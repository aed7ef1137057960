# InfraTrack in Dafny

InfraTrack is a small Flask application that records hosts, the maintenance
tasks performed on them and a change log, plus an Ansible dynamic inventory
script that turns Terraform outputs into an inventory document. This project
models its core and proves properties of the model:

- `wrappers.dfy` (`Wrappers`): `Option` (Python's `None` or a value) and
  `Result` (a value or a raised exception).
- `pystr.dfy` (`PyStr`): the parts of Python's `str` the application uses.
  These are `strip()` with Python's whitespace set, `split(",")` and
  `",".join(...)`.
- `keys.dfy` (`Keys`): primary keys, the key an insert receives, and
  ascending key order.
- `models.dfy` (`Models`): the contents of `app/models.py`. That is
  `tags_to_list`, the `Host`, `Task` and `Change` records, the store of the
  three tables, and the no-orphan invariant the foreign keys declare. It also
  has the cascade that deleting a host is declared to perform, the deletion
  that actually happens on the default SQLite database (see Findings), and
  the store writes the handlers commit.
- `queries.dfy` (`Queries`): the listings ordered by id and the host choices
  ordered by hostname.
- `routes.dfy` (`Routes`): the nine add, edit and delete handlers of
  `app/routes.py` as pure transitions from a store to a new store and a
  reply. The reply is one of: redirect, render the form again, or not
  found. The four listing handlers (`index` and `hosts`, `tasks`,
  `changes`) only read the store; they are `Queries.ListHosts`,
  `Queries.ListTasks` and `Queries.ListChanges`.
- `inventory.dfy` (`Inventory`): `tf_outputs`, `build_inventory` and the
  command-line modes of `infra/ansible/inventory_terraform.py`, over decoded
  JSON values.

The handlers model requests that passed the application-wide CSRF check
(`CSRFProtect`, app/__init__.py:8 and 24). A POST without a valid token is
answered with 400 before any handler runs, and the store stays unchanged.
Inputs the handlers cannot compute are parameters:

- `form`: the processed field data, `form.<field>.data`, as WTForms leaves
  it after reading the request. On the edit routes the form is first filled
  from the stored row, so a field missing from the POST carries the stored
  value.
- `valid` / `fieldsValid`: whether `validate_on_submit` holds, that is, the
  request is a POST and the WTForms field validators accept the fields.
- `commitFails`: whether the commit raises `SQLAlchemyError`.
- `now`: the creation timestamp.

The host select field's own check is modelled, though. A task or change is
only accepted when its host id is among the choices computed from the
current hosts.

What the code does, stated because a reader might assume otherwise:

- Hostnames get no syntax or length check. The forms only demand that a
  hostname is present (`DataRequired`). The declared column lengths are not
  enforced by SQLite either.
- Field data is validated as it stands and stripped afterwards, when it is
  stored.
- An `os` or `tags` value made only of whitespace is stored as the empty
  string, not as `NULL`. Only field data that is `None` or empty becomes
  `NULL`.
- A failed or undecodable Terraform query gives an empty inventory. Decoded outputs that are
  not an object, or a truthy output entry that is not an object, make the
  script raise `AttributeError` at `.get`, and nothing catches it. The model
  returns `Err` in exactly those cases. `Inventory.ObjectOutputsNeverCrash`
  shows they cannot arise from outputs shaped the way Terraform writes them.

## Model

| member | source | states |
|---|---|---|
| PyStr.Strip | app/models.py:5 | `strip()` returns a text with no whitespace at either end, cut out of the input between two whitespace-only margins |
| PyStr.StripOfPadded | app/routes.py:27-30 | whatever trimmed text sits between whitespace-only margins is exactly what `strip()` returns, so the stored fields are determined by the field data |
| PyStr.StripIdempotent | app/routes.py:45-51 | stripping twice is stripping once, so submitting the edit form unchanged from the stored host stores the same hostname and IP address again |
| PyStr.Split | app/models.py:5 | `split(",")` yields one more segment than there are commas, and no segment contains a comma |
| PyStr.JoinSplit | app/models.py:5 | joining the segments of `split(",")` with `","` gives the original string back |
| PyStr.SplitJoin | app/models.py:5 | splitting a join of comma-free parts gives the parts back |
| Models.TagsToList | app/models.py:4-5 | every tag is non-empty, has no surrounding whitespace and no comma; there are at most commas + 1 tags; `None` and `""` give no tags |
| Models.TagsAppend | app/models.py:5 | the tags of two runs of segments are the tags of the first then the tags of the second, so tag order follows segment order |
| Models.TagsOfTags | app/models.py:5 | a list that already consists of tags comes back unchanged |
| Models.TagsJoinRoundTrip | app/models.py:4-5 | parsing `",".join(tags)` of valid tags gives the same tags |
| Models.TagsToListRoundTrip | app/models.py:4-5 | `tags_to_list(",".join(tags_to_list(s))) == tags_to_list(s)` for every tag string, including `None` |
| Models.ScanTags | app/models.py:4-5 | a one-pass scanner that emits a tag at each comma and at the end computes the same list as split, strip and filter |
| Models.Host.TagList | app/models.py:34-35 | a host's tag list contains only valid tags, is empty for a `NULL` tag column, and is the one tag for a column holding a single tag |
| Models.PutHost | app/routes.py:32-33 | writing a host row under its own id keeps every other row and keeps the store invariant |
| Models.PutTask | app/routes.py:89-91 | writing a task row under its own id whose host exists keeps every other row and the no-orphan invariant |
| Models.PutChange | app/routes.py:144-146 | writing a change row under its own id whose host exists keeps every other row and the no-orphan invariant |
| Models.RemoveTask | app/routes.py:123-124 | deleting one task removes only that key and keeps the invariant |
| Models.RemoveChange | app/routes.py:177-178 | deleting one change removes only that key and keeps the invariant |
| Models.CascadeDelete | app/models.py:19-32 | deleting a host removes it, exactly its tasks and exactly its changes, leaves every other row as it was, and keeps the no-orphan invariant |
| Models.CascadeCounts | app/models.py:19-32 | a host with N tasks and M changes takes exactly 1 + N + M rows with it |
| Models.HostOnlyDelete | app/routes.py:64-67 | deleting a host on a database that does not enforce foreign keys removes only the host row; every task and change stays |
| Models.HostOnlyDeleteOrphans | app/models.py:42-47 | deleting only the host row of a valid store orphans its tasks or changes whenever it has any, while the declared cascade leaves none |
| Models.OrphanedTaskExample | app/models.py:19-32 | host 1 owning task 7: deleting host 1 without the cascade leaves task 7 pointing at no host; the cascade removes it |
| Models.EmptyStoreValid | app/__init__.py:30-31 | the freshly created, empty database satisfies the store invariant |
| Keys.NextId | app/models.py:11 | a new row's key is fresh, above every existing key, one more than the largest, and 1 in an empty table |
| Keys.Ascending | app/routes.py:18 | a key set listed ascending is strictly increasing and holds exactly the keys |
| Queries.ListHosts | app/routes.py:11 | the host listing has one entry per stored host, each stored host appears, and ids strictly increase |
| Queries.ListTasks | app/routes.py:80 | the tasks page lists one entry per stored task, each stored task appears, and ids strictly increase |
| Queries.ListChanges | app/routes.py:135 | the change listing has one entry per stored change, each stored change appears, and ids strictly increase |
| Queries.LexTotal | app/routes.py:86 | any two hostnames are ordered one way or the other under code-point order |
| Queries.LexTrans | app/routes.py:86 | code-point order on hostnames is transitive |
| Queries.SortByName | app/routes.py:86 | sorting hosts by hostname gives a sorted permutation of the hosts |
| Queries.HostChoices | app/routes.py:86 | there is one choice per host, with hostnames in ascending order |
| Queries.ChoicesAreHosts | app/routes.py:104 | each choice carries a stored host's id and that host's hostname |
| Queries.HostsAreChoices | app/routes.py:141 | every stored host is offered as a choice |
| Queries.ChoiceIdsAreHostIds | app/routes.py:159 | the select field accepts a host id exactly when a host with that id exists |
| Routes.Optional | app/routes.py:29-30 | an optional field is `NULL` exactly when its data is `None` or empty, and otherwise its stripped text, which is empty for whitespace-only input |
| Routes.AddHost | app/routes.py:21-40 | an invalid form or failed commit re-renders with no change; otherwise a host with a fresh id, the creation time and the stripped fields is inserted, nothing else changes, and the invariant is kept |
| Routes.EditHost | app/routes.py:42-59 | an unknown id is not found with no change; a successful edit replaces only that host's four form fields and keeps its id and creation time |
| Routes.DeleteHost | app/routes.py:61-72 | an unknown id is not found; a failed commit redirects with an error and no change; otherwise the host and exactly its tasks and changes go (the declared cascade, see Findings) |
| Routes.IsChoice | app/routes.py:86-87 | the select field's check accepts exactly the ids of stored hosts |
| Routes.AddTask | app/routes.py:83-98 | a task for a host that does not exist is rejected with no change; otherwise a task with a fresh id, that host, the stripped description and the time is inserted |
| Routes.EditTask | app/routes.py:100-116 | an unknown task is not found; a successful edit moves it to an existing host and rewrites its description, keeping id and time |
| Routes.DeleteTask | app/routes.py:119-129 | an unknown task is not found; otherwise exactly that task goes, unless the commit fails |
| Routes.AddChange | app/routes.py:138-153 | a change for a host that does not exist is rejected with no change; otherwise a change with a fresh id, that host, the stripped summary and the time is inserted |
| Routes.EditChange | app/routes.py:155-171 | an unknown change is not found; a successful edit moves it to an existing host and rewrites its summary, keeping id and time |
| Routes.DeleteChange | app/routes.py:173-183 | an unknown change is not found; otherwise exactly that change goes, unless the commit fails |
| Inventory.TfOutputs | infra/ansible/inventory_terraform.py:9-14 | a failed Terraform query reads as no outputs (`{}`) |
| Inventory.OutputValue | infra/ansible/inventory_terraform.py:18-19 | an output's value is found exactly when the entry is an object with a `value`; the lookup raises exactly when the outputs or a truthy entry are not objects |
| Inventory.BuildInventory | infra/ansible/inventory_terraform.py:16-37 | `all` and `web` list the same hosts, `all` has no variables, the hosts with variables are the listed ones and there is at most one; there is a host exactly when the IP is truthy, and it is `infratrack` with the IP, user and key, and the DNS name exactly when that is truthy |
| Inventory.ToJson | infra/ansible/inventory_terraform.py:33-37 | the printed document has exactly the sections `_meta`, `all` and `web`; `DocumentGroups` and `EmptyInventoryDocument` state what they hold |
| Inventory.HostQuery | infra/ansible/inventory_terraform.py:43 | `--host NAME` answers with the variables record of a host of that name, and `{}` when there is none; `HostQueryOfInventory` says which names have one |
| Inventory.EmptyInventoryDocument | infra/ansible/inventory_terraform.py:33-37 | an inventory with no hosts prints as `{"_meta": {"hostvars": {}}, "all": {"hosts": [], "vars": {}}, "web": {"hosts": []}}` |
| Inventory.NoAddressNoHosts | infra/ansible/inventory_terraform.py:22-37 | without a truthy IP the script prints exactly the empty document |
| Inventory.QueryFailureNoHosts | infra/ansible/inventory_terraform.py:9-14 | when Terraform cannot be queried the script succeeds with the empty document |
| Inventory.ObjectOutputsNeverCrash | infra/ansible/inventory_terraform.py:18-19 | outputs that are an object of objects never make the script raise |
| Inventory.PublicDnsOnlyWithBoth | infra/ansible/inventory_terraform.py:23-31 | some host has `public_dns` exactly when both the IP and the DNS name are truthy |
| Inventory.DocumentGroups | infra/ansible/inventory_terraform.py:33-37 | in the printed document `all.hosts` equals `web.hosts`, `all.vars` is `{}`, and the names under `_meta.hostvars` are exactly those in `all.hosts` |
| Inventory.HostQueryOfInventory | infra/ansible/inventory_terraform.py:43 | `--host infratrack` gives the connection variables when there is a truthy IP; every other name, or no IP, gives `{}` |
| Inventory.Command | infra/ansible/inventory_terraform.py:39-45 | `--host NAME` prints one host's variables, `--list` and every other argument list print the whole document, and the script fails only when building the inventory does |
| Inventory.ExampleWithDns | infra/ansible/inventory_terraform.py:23-31 | IP `1.2.3.4` and DNS `x.example.com` give the single host `infratrack` in both groups, with `ansible_host` and `public_dns` set to them |

## Left out

- Flask plumbing is out of the model, because only each handler's outcome matters: routing, templates, `url_for`, flash message wording, `abort`. The outcome is the new store plus redirect, re-render or not found, with a success or failure notice.
- SQLAlchemy sessions, identity maps and lazy loading are not modelled. A commit is atomic: the store either becomes the new store or stays as it was.
- The WTForms field validators (`DataRequired`, `IPAddress`) are one boolean input per request, because their logic lives in libraries outside the repository. The GET case, where `validate_on_submit` is false, is the same input.
- Requests the global CSRF check rejects (400, store unchanged) never reach a handler and have no representation in `Routes`.
- Models.CascadeDelete: assumes a database that enforces foreign keys, so that `ON DELETE CASCADE` runs. The default SQLite database does not enforce them (see Findings), and the handlers are modelled with the declared cascade. Ids are unbounded integers: SQLite's rowid ceiling of 2^63-1 and its random choice of a free rowid beyond it are not modelled.
- Keys.NextId: max + 1 holds only below SQLite's rowid ceiling of 2^63-1, which the model does not have.
- PyStr.Strip: strings are sequences of Unicode scalar values; Python strings holding lone surrogates (U+D800 to U+DFFF, e.g. from a `\ud800` escape in decoded JSON) are outside the model.
- Routes.EditHost: the form data is taken as given, and the prefill that `HostForm(obj=host)` performs is not modelled. On the edit routes (`Routes.EditHost`, `Routes.EditTask`, `Routes.EditChange`) a field missing from the POST keeps the stored value, because WTForms replaces a prefilled value only when the request carries that field; the caller supplies that value as the field's data.
- Hostname syntax and column length limits are not modelled: the code enforces neither.
- Timestamps are an opaque `Instant` passed in. The clock and time zones are outside the model.
- The model does not say which order hosts with equal hostnames appear in. `ORDER BY hostname` leaves it open, and `Queries.HostChoices` proves only ascending hostnames.
- Running Terraform, decoding its JSON, reading `ANSIBLE_SSH_USER`, `ANSIBLE_SSH_KEY`, `TERRAFORM_BIN` and `HOME`, and reading `sys.argv` are all I/O. The model takes the decoded outputs (or `None` for a failed query), the user, the key path and the argument list as parameters.
- JSON serialisation, and so the key order of the printed document, is not modelled. The document is a JSON value.
- JSON numbers are integers only; floating point is not modelled.
- `app/__init__.py` (application factory, database URL, CSRF setup) and `run.py` (entry point) are configuration, not logic. Only their consequences appear: the default SQLite engine, the global CSRF check and the initial empty database.

## Findings

| source | as written | input that shows it | evidently intended | confidence | as-written member | corrected member |
|---|---|---|---|---|---|---|
| app/models.py:19-32 | `passive_deletes=True` leaves a host's tasks and changes to the database's `ON DELETE CASCADE` (app/models.py:44, 58); the default SQLite engine (app/__init__.py:15-17) ignores foreign keys because no connection sets `PRAGMA foreign_keys=ON`, so `delete_host` removes only the host row | a store with host 1 owning task 7, then deleting host 1: task 7 remains and points at no host | deleting a host also deletes its tasks and changes, as the relationships' `delete-orphan` cascade and the comment at app/models.py:18 declare | not executed; medium (depends on the database URL in use) | Models.HostOnlyDeleteOrphans | Models.CascadeDelete |
