/**
 * The request handlers of `app/routes.py` as pure transitions of the store.
 *
 * The handlers see only requests that passed the application-wide CSRF
 * check: a POST without a valid token is answered with 400 before any
 * handler runs, and leaves the store unchanged. Whether the submitted form
 * validates (`validate_on_submit`: false on a GET, and otherwise the WTForms
 * field validators) and whether the commit raises `SQLAlchemyError` are
 * inputs. The one validator
 * the handlers configure themselves, the host select field's list of
 * choices, is modelled: a task or change form only validates when its host
 * id is among the choices computed from the current hosts.
 */
module Routes {
  import opened Wrappers
  import opened Keys
  import opened PyStr
  import opened Models
  import opened Queries

  /** The message flashed on the next page. */
  datatype Flash = NoFlash | Done | Failed

  /** What the handler answers: a redirect to the listing, the form page
      rendered again, or a 404 from `get_or_404`. */
  datatype Reply = Redirect(flash: Flash) | Render(flash: Flash) | NotFound

  /** The store after the request, and the answer. */
  datatype Response = Response(store: Store, reply: Reply)

  /** The host form's processed field data, `form.<field>.data` after WTForms
      has read the request; `os` and `tags` may be `None`. On the edit route
      the form starts from the stored host (`HostForm(obj=host)`), so a field
      the POST leaves out carries the stored value, not `None`. */
  datatype HostForm = HostForm(hostname: string, ipAddress: string, os: Option<string>, tags: Option<string>)

  /** The task form's processed field data: the chosen host and the
      description (prefilled from the stored task on the edit route). */
  datatype TaskForm = TaskForm(hostId: Id, description: string)

  /** The change form's processed field data: the chosen host and the
      summary (prefilled from the stored change on the edit route). */
  datatype ChangeForm = ChangeForm(hostId: Id, summary: string)

  /** `value.strip() if value else None` for the optional host columns: field
      data that is `None` or empty is stored as NULL, anything else stripped,
      so a whitespace-only value is stored as the empty string. */
  function Optional(value: Option<string>): (r: Option<string>)
    ensures r == None <==> value == None || value == Some([])
    ensures r.Some? ==> IsTrimmed(r.value) && PaddedBy(value.value, r.value)
    ensures value.Some? && value.value != [] && AllSpace(value.value) ==> r == Some([])
  {
    if value.Some? && value.value != [] then
      var r := Strip(value.value);
      assert AllSpace(value.value) ==> r == [] by {
        if AllSpace(value.value) {
          StripOfPadded(value.value, [], []);
          assert value.value + [] + [] == value.value;
        }
      }
      Some(r)
    else
      None
  }

  /** `h` holds the host form's fields the way the handlers store them. */
  predicate HoldsForm(h: Host, f: HostForm) {
    && h.hostname == Strip(f.hostname)
    && h.ipAddress == Strip(f.ipAddress)
    && h.os == Optional(f.os)
    && h.tags == Optional(f.tags)
  }

  /** `m2` is `m` with one new entry under the fresh key `k`. */
  predicate Inserted<T(==)>(m: map<Id, T>, m2: map<Id, T>, k: Id) {
    && k !in m
    && m2.Keys == m.Keys + {k}
    && forall j :: j in m ==> m2[j] == m[j]
  }

  /** `m2` is `m` with the entry under `k` replaced. */
  predicate Replaced<T(==)>(m: map<Id, T>, m2: map<Id, T>, k: Id) {
    && k in m
    && m2.Keys == m.Keys
    && forall j :: j in m && j != k ==> m2[j] == m[j]
  }

  /** `m2` is `m` without the entry under `k`. */
  predicate Removed<T(==)>(m: map<Id, T>, m2: map<Id, T>, k: Id) {
    && k in m
    && m2.Keys == m.Keys - {k}
    && forall j :: j in m2 ==> m2[j] == m[j]
  }

  // ---------------------------------------------------------------------
  // Hosts
  // ---------------------------------------------------------------------

  /** `add_host`: insert a host built from the stripped form fields. */
  function AddHost(s: Store, form: HostForm, valid: bool, commitFails: bool, now: Instant): (r: Response)
    ensures r.reply == (if !valid then Render(NoFlash) else if commitFails then Render(Failed) else Redirect(Done))
    ensures !r.reply.Redirect? ==> r.store == s
    ensures r.reply.Redirect? ==>
              var id := NextId(s.hosts.Keys);
              && Inserted(s.hosts, r.store.hosts, id)
              && r.store.hosts[id].id == id
              && r.store.hosts[id].createdAt == now
              && HoldsForm(r.store.hosts[id], form)
              && r.store.tasks == s.tasks && r.store.changes == s.changes
    ensures Valid(s) ==> Valid(r.store)
  {
    if !valid then Response(s, Render(NoFlash))
    else if commitFails then Response(s, Render(Failed))
    else
      var id := NextId(s.hosts.Keys);
      var host := Host(id, Strip(form.hostname), Strip(form.ipAddress), Optional(form.os), Optional(form.tags), now);
      Response(PutHost(s, id, host), Redirect(Done))
  }

  /** `edit_host`: overwrite the four form fields of an existing host. */
  function EditHost(s: Store, id: Id, form: HostForm, valid: bool, commitFails: bool): (r: Response)
    ensures id !in s.hosts ==> r == Response(s, NotFound)
    ensures id in s.hosts ==>
              r.reply == (if !valid then Render(NoFlash) else if commitFails then Render(Failed) else Redirect(Done))
    ensures !r.reply.Redirect? ==> r.store == s
    ensures r.reply.Redirect? ==>
              && Replaced(s.hosts, r.store.hosts, id)
              && r.store.hosts[id].id == s.hosts[id].id
              && r.store.hosts[id].createdAt == s.hosts[id].createdAt
              && HoldsForm(r.store.hosts[id], form)
              && r.store.tasks == s.tasks && r.store.changes == s.changes
    ensures Valid(s) ==> Valid(r.store)
  {
    if id !in s.hosts then Response(s, NotFound)
    else if !valid then Response(s, Render(NoFlash))
    else if commitFails then Response(s, Render(Failed))
    else
      var host := s.hosts[id].(
        hostname := Strip(form.hostname),
        ipAddress := Strip(form.ipAddress),
        os := Optional(form.os),
        tags := Optional(form.tags));
      Response(PutHost(s, id, host), Redirect(Done))
  }

  /** `delete_host`: remove the host and, by cascade, its tasks and changes,
      on a database that enforces foreign keys (see `Models.HostOnlyDelete`
      for one that does not). A failed commit still redirects, with an error
      notice. */
  function DeleteHost(s: Store, id: Id, commitFails: bool): (r: Response)
    ensures id !in s.hosts ==> r == Response(s, NotFound)
    ensures id in s.hosts ==> r.reply == Redirect(if commitFails then Failed else Done)
    ensures r.reply != Redirect(Done) ==> r.store == s
    ensures r.reply == Redirect(Done) ==>
              && Removed(s.hosts, r.store.hosts, id)
              && (forall k :: k in r.store.tasks ==> k in s.tasks && r.store.tasks[k] == s.tasks[k] && s.tasks[k].hostId != id)
              && (forall k :: k in s.tasks && s.tasks[k].hostId != id ==> k in r.store.tasks)
              && (forall k :: k in r.store.changes ==> k in s.changes && r.store.changes[k] == s.changes[k] && s.changes[k].hostId != id)
              && (forall k :: k in s.changes && s.changes[k].hostId != id ==> k in r.store.changes)
    ensures Valid(s) ==> Valid(r.store)
  {
    if id !in s.hosts then Response(s, NotFound)
    else if commitFails then Response(s, Redirect(Failed))
    else Response(CascadeDelete(s, id), Redirect(Done))
  }

  /** The select field's own check: `hostId` is one of the choices built
      from the hosts stored when the form is handled. */
  function IsChoice(s: Store, hostId: Id): (b: bool)
    ensures KeysMatchIds(s) ==> (b <==> hostId in s.hosts)
  {
    assert KeysMatchIds(s) ==> (hostId in ChoiceIds(HostChoices(s)) <==> hostId in s.hosts) by {
      if KeysMatchIds(s) {
        ChoiceIdsAreHostIds(s, hostId);
      }
    }
    hostId in ChoiceIds(HostChoices(s))
  }

  // ---------------------------------------------------------------------
  // Tasks
  // ---------------------------------------------------------------------

  /** `add_task`: insert a task for a host chosen from the current hosts. */
  function AddTask(s: Store, form: TaskForm, fieldsValid: bool, commitFails: bool, now: Instant): (r: Response)
    ensures KeysMatchIds(s) ==>
              r.reply == (if !fieldsValid || form.hostId !in s.hosts then Render(NoFlash)
                          else if commitFails then Render(Failed) else Redirect(Done))
    ensures !r.reply.Redirect? ==> r.store == s
    ensures r.reply.Redirect? ==>
              var id := NextId(s.tasks.Keys);
              && Inserted(s.tasks, r.store.tasks, id)
              && r.store.tasks[id] == Task(id, form.hostId, Strip(form.description), now)
              && r.store.hosts == s.hosts && r.store.changes == s.changes
    ensures Valid(s) ==> Valid(r.store)
  {
    var accepted := fieldsValid && IsChoice(s, form.hostId);
    if !accepted then Response(s, Render(NoFlash))
    else if commitFails then Response(s, Render(Failed))
    else
      var id := NextId(s.tasks.Keys);
      Response(PutTask(s, id, Task(id, form.hostId, Strip(form.description), now)), Redirect(Done))
  }

  /** `edit_task`: move an existing task to a chosen host and rewrite its description. */
  function EditTask(s: Store, id: Id, form: TaskForm, fieldsValid: bool, commitFails: bool): (r: Response)
    ensures id !in s.tasks ==> r == Response(s, NotFound)
    ensures KeysMatchIds(s) && id in s.tasks ==>
              r.reply == (if !fieldsValid || form.hostId !in s.hosts then Render(NoFlash)
                          else if commitFails then Render(Failed) else Redirect(Done))
    ensures !r.reply.Redirect? ==> r.store == s
    ensures r.reply.Redirect? ==>
              && Replaced(s.tasks, r.store.tasks, id)
              && r.store.tasks[id].id == s.tasks[id].id
              && r.store.tasks[id].performedAt == s.tasks[id].performedAt
              && r.store.tasks[id].hostId == form.hostId
              && r.store.tasks[id].description == Strip(form.description)
              && r.store.hosts == s.hosts && r.store.changes == s.changes
    ensures Valid(s) ==> Valid(r.store)
  {
    if id !in s.tasks then Response(s, NotFound)
    else
      var accepted := fieldsValid && IsChoice(s, form.hostId);
      if !accepted then Response(s, Render(NoFlash))
      else if commitFails then Response(s, Render(Failed))
      else
        var task := s.tasks[id].(hostId := form.hostId, description := Strip(form.description));
        Response(PutTask(s, id, task), Redirect(Done))
  }

  /** `delete_task`: remove exactly the named task. */
  function DeleteTask(s: Store, id: Id, commitFails: bool): (r: Response)
    ensures id !in s.tasks ==> r == Response(s, NotFound)
    ensures id in s.tasks ==> r.reply == Redirect(if commitFails then Failed else Done)
    ensures r.reply != Redirect(Done) ==> r.store == s
    ensures r.reply == Redirect(Done) ==>
              Removed(s.tasks, r.store.tasks, id) && r.store.hosts == s.hosts && r.store.changes == s.changes
    ensures Valid(s) ==> Valid(r.store)
  {
    if id !in s.tasks then Response(s, NotFound)
    else if commitFails then Response(s, Redirect(Failed))
    else Response(RemoveTask(s, id), Redirect(Done))
  }

  // ---------------------------------------------------------------------
  // Changes
  // ---------------------------------------------------------------------

  /** `add_change`: log a change against a host chosen from the current hosts. */
  function AddChange(s: Store, form: ChangeForm, fieldsValid: bool, commitFails: bool, now: Instant): (r: Response)
    ensures KeysMatchIds(s) ==>
              r.reply == (if !fieldsValid || form.hostId !in s.hosts then Render(NoFlash)
                          else if commitFails then Render(Failed) else Redirect(Done))
    ensures !r.reply.Redirect? ==> r.store == s
    ensures r.reply.Redirect? ==>
              var id := NextId(s.changes.Keys);
              && Inserted(s.changes, r.store.changes, id)
              && r.store.changes[id] == Change(id, form.hostId, Strip(form.summary), now)
              && r.store.hosts == s.hosts && r.store.tasks == s.tasks
    ensures Valid(s) ==> Valid(r.store)
  {
    var accepted := fieldsValid && IsChoice(s, form.hostId);
    if !accepted then Response(s, Render(NoFlash))
    else if commitFails then Response(s, Render(Failed))
    else
      var id := NextId(s.changes.Keys);
      Response(PutChange(s, id, Change(id, form.hostId, Strip(form.summary), now)), Redirect(Done))
  }

  /** `edit_change`: move an existing change to a chosen host and rewrite its summary. */
  function EditChange(s: Store, id: Id, form: ChangeForm, fieldsValid: bool, commitFails: bool): (r: Response)
    ensures id !in s.changes ==> r == Response(s, NotFound)
    ensures KeysMatchIds(s) && id in s.changes ==>
              r.reply == (if !fieldsValid || form.hostId !in s.hosts then Render(NoFlash)
                          else if commitFails then Render(Failed) else Redirect(Done))
    ensures !r.reply.Redirect? ==> r.store == s
    ensures r.reply.Redirect? ==>
              && Replaced(s.changes, r.store.changes, id)
              && r.store.changes[id].id == s.changes[id].id
              && r.store.changes[id].changedAt == s.changes[id].changedAt
              && r.store.changes[id].hostId == form.hostId
              && r.store.changes[id].summary == Strip(form.summary)
              && r.store.hosts == s.hosts && r.store.tasks == s.tasks
    ensures Valid(s) ==> Valid(r.store)
  {
    if id !in s.changes then Response(s, NotFound)
    else
      var accepted := fieldsValid && IsChoice(s, form.hostId);
      if !accepted then Response(s, Render(NoFlash))
      else if commitFails then Response(s, Render(Failed))
      else
        var change := s.changes[id].(hostId := form.hostId, summary := Strip(form.summary));
        Response(PutChange(s, id, change), Redirect(Done))
  }

  /** `delete_change`: remove exactly the named change. */
  function DeleteChange(s: Store, id: Id, commitFails: bool): (r: Response)
    ensures id !in s.changes ==> r == Response(s, NotFound)
    ensures id in s.changes ==> r.reply == Redirect(if commitFails then Failed else Done)
    ensures r.reply != Redirect(Done) ==> r.store == s
    ensures r.reply == Redirect(Done) ==>
              Removed(s.changes, r.store.changes, id) && r.store.hosts == s.hosts && r.store.tasks == s.tasks
    ensures Valid(s) ==> Valid(r.store)
  {
    if id !in s.changes then Response(s, NotFound)
    else if commitFails then Response(s, Redirect(Failed))
    else Response(RemoveChange(s, id), Redirect(Done))
  }
}
