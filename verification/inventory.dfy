/**
 * The Ansible dynamic inventory script `infra/ansible/inventory_terraform.py`.
 *
 * The Terraform query (`terraform output -json`, then `json.loads`) is an
 * input: `None` when it raised, otherwise the decoded document. The SSH user
 * and key path the script reads from its environment are parameters too.
 * What is modelled is the document the script builds and prints, as a JSON
 * value, and the one way the script itself can still fail: calling `.get`
 * on something that is not a dict raises `AttributeError`, which nothing
 * catches.
 */
module Inventory {
  import opened Wrappers

  /** A decoded JSON value (numbers restricted to integers). */
  datatype Json =
    | JNull
    | JBool(b: bool)
    | JNum(n: int)
    | JStr(s: string)
    | JArr(items: seq<Json>)
    | JObj(fields: map<string, Json>)

  /** Python truthiness of the decoded value. */
  predicate Truthy(j: Json) {
    match j
    case JNull => false
    case JBool(b) => b
    case JNum(n) => n != 0
    case JStr(s) => s != []
    case JArr(items) => items != []
    case JObj(fields) => fields != map[]
  }

  /** Python truthiness of a value `dict.get` may have returned as `None`. */
  predicate Present(v: Option<Json>) {
    v.Some? && Truthy(v.value)
  }

  /** The uncaught exception: `.get` called on a value that is not a dict. */
  datatype Crash = AttributeError(receiver: Json)

  const IpOutput: string := "instance_public_ip"
  const DnsOutput: string := "instance_public_dns"
  /** The one host the inventory can describe. */
  const HostName: string := "infratrack"

  /** `tf_outputs()`: the decoded Terraform outputs, or `{}` when running
      Terraform or decoding its output raised. */
  function TfOutputs(query: Option<Json>): (r: Json)
    ensures query.None? ==> r == JObj(map[])
    ensures query.Some? ==> r == query.value
  {
    query.GetOr(JObj(map[]))
  }

  /** Python's `o.get(k)`. */
  function Get(o: Json, k: string): (r: Result<Option<Json>, Crash>)
    ensures r.Err? <==> !o.JObj?
    ensures r.Ok? ==> (r.value.Some? <==> k in o.fields)
    ensures r.Ok? && r.value.Some? ==> r.value.value == o.fields[k]
  {
    if !o.JObj? then Err(AttributeError(o))
    else if k in o.fields then Ok(Some(o.fields[k]))
    else Ok(None)
  }

  /** `o` holds the output `name` as an object with a `"value"` member. */
  predicate HasValue(o: Json, name: string) {
    o.JObj? && name in o.fields && o.fields[name].JObj? && "value" in o.fields[name].fields
  }

  /** `(o.get(name) or {}).get("value")`: the value of one Terraform output.
      A falsy or missing entry reads as no value; a truthy entry that is not
      an object, or an `o` that is not one, raises. */
  function OutputValue(o: Json, name: string): (r: Result<Option<Json>, Crash>)
    ensures r.Err? <==> !o.JObj? || (name in o.fields && Truthy(o.fields[name]) && !o.fields[name].JObj?)
    ensures r.Ok? && r.value.Some? <==> HasValue(o, name)
    ensures HasValue(o, name) ==> r == Ok(Some(o.fields[name].fields["value"]))
  {
    var entry :- Get(o, name);
    var table := if Present(entry) then entry.value else JObj(map[]);
    Get(table, "value")
  }

  /** The document `build_inventory()` returns: the host variables under
      `_meta`, the `all` group's hosts and variables, the `web` group's hosts. */
  datatype Inventory = Inventory(
    hostvars: map<string, map<string, Json>>,
    allHosts: seq<string>,
    allVars: map<string, Json>,
    webHosts: seq<string>)

  /** The inventory with no hosts. */
  const EmptyInventory: Inventory := Inventory(map[], [], map[], [])

  /** The shape of every inventory the script emits: both groups list the
      same hosts, `all` has no variables, exactly the listed hosts have
      variables, and there is at most one host. */
  predicate WellShaped(inv: Inventory) {
    && inv.webHosts == inv.allHosts
    && inv.allVars == map[]
    && (forall n :: n in inv.hostvars ==> n in inv.allHosts)
    && (forall i :: 0 <= i < |inv.allHosts| ==> inv.allHosts[i] in inv.hostvars)
    && |inv.allHosts| <= 1
  }

  /** `vars` are the connection variables for address `ip`, with the DNS
      name exactly when there is a truthy one, and nothing else. */
  predicate Connects(vars: map<string, Json>, ip: Json, user: string, key: string, dns: Option<Json>) {
    && "ansible_host" in vars && vars["ansible_host"] == ip
    && "ansible_user" in vars && vars["ansible_user"] == JStr(user)
    && "ansible_ssh_private_key_file" in vars && vars["ansible_ssh_private_key_file"] == JStr(key)
    && ("public_dns" in vars <==> Present(dns))
    && (Present(dns) ==> vars["public_dns"] == dns.value)
    && vars.Keys <= {"ansible_host", "ansible_user", "ansible_ssh_private_key_file", "public_dns"}
  }

  /** `build_inventory()` over the outputs `o`, with `user` and `key` standing
      for `DEFAULT_USER` and `DEFAULT_KEY`. */
  function BuildInventory(o: Json, user: string, key: string): (r: Result<Inventory, Crash>)
    ensures r.Err? <==> OutputValue(o, IpOutput).Err? || OutputValue(o, DnsOutput).Err?
    ensures r.Ok? ==> WellShaped(r.value)
    ensures r.Ok? ==> (r.value.allHosts != [] <==> Present(OutputValue(o, IpOutput).value))
    ensures r.Ok? && r.value.allHosts != [] ==>
              && r.value.allHosts == [HostName]
              && HostName in r.value.hostvars
              && Connects(r.value.hostvars[HostName], OutputValue(o, IpOutput).value.value,
                          user, key, OutputValue(o, DnsOutput).value)
  {
    var ip :- OutputValue(o, IpOutput);
    var dns :- OutputValue(o, DnsOutput);
    if Present(ip) then
      var vars := map[
        "ansible_host" := ip.value,
        "ansible_user" := JStr(user),
        "ansible_ssh_private_key_file" := JStr(key)];
      var vars' := if Present(dns) then vars["public_dns" := dns.value] else vars;
      Ok(Inventory(map[HostName := vars'], [HostName], map[], [HostName]))
    else
      Ok(EmptyInventory)
  }

  /** The printed document as a JSON value: the three top-level sections,
      with the per-host variables under `_meta`. */
  function ToJson(inv: Inventory): (r: Json)
    ensures r.JObj? && r.fields.Keys == {"_meta", "all", "web"}
  {
    JObj(map[
      "_meta" := JObj(map["hostvars" := HostVarsJson(inv.hostvars)]),
      "all" := JObj(map["hosts" := Names(inv.allHosts), "vars" := JObj(inv.allVars)]),
      "web" := JObj(map["hosts" := Names(inv.webHosts)])])
  }

  /** A list of host names as a JSON array of strings. */
  function Names(hosts: seq<string>): (r: Json)
    ensures r.JArr? && |r.items| == |hosts|
    ensures forall i :: 0 <= i < |hosts| ==> r.items[i] == JStr(hosts[i])
  {
    JArr(seq(|hosts|, i requires 0 <= i < |hosts| => JStr(hosts[i])))
  }

  /** The per-host variables as a JSON object of objects. */
  function HostVarsJson(hostvars: map<string, map<string, Json>>): (r: Json)
    ensures r.JObj? && r.fields.Keys == hostvars.Keys
    ensures forall n :: n in hostvars ==> r.fields[n] == JObj(hostvars[n])
  {
    JObj(map n | n in hostvars :: JObj(hostvars[n]))
  }

  /** `{"_meta": {"hostvars": {}}, "all": {"hosts": [], "vars": {}}, "web": {"hosts": []}}` */
  const EmptyDocument: Json := JObj(map[
    "_meta" := JObj(map["hostvars" := JObj(map[])]),
    "all" := JObj(map["hosts" := JArr([]), "vars" := JObj(map[])]),
    "web" := JObj(map["hosts" := JArr([])])])

  /** The inventory with no hosts prints as the empty document. */
  lemma EmptyInventoryDocument()
    ensures ToJson(EmptyInventory) == EmptyDocument
  {
    assert HostVarsJson(map[]).fields == map[];
    assert Names([]).items == [];
  }

  /** Without a truthy public IP the script prints the empty document. */
  lemma NoAddressNoHosts(o: Json, user: string, key: string)
    requires BuildInventory(o, user, key).Ok?
    requires !Present(OutputValue(o, IpOutput).value)
    ensures BuildInventory(o, user, key) == Ok(EmptyInventory)
    ensures ToJson(BuildInventory(o, user, key).value) == EmptyDocument
  {
    EmptyInventoryDocument();
  }

  /** When Terraform cannot be queried the script still succeeds, with the
      empty document. */
  lemma QueryFailureNoHosts(user: string, key: string)
    ensures BuildInventory(TfOutputs(None), user, key) == Ok(EmptyInventory)
    ensures ToJson(BuildInventory(TfOutputs(None), user, key).value) == EmptyDocument
  {
    EmptyInventoryDocument();
  }

  /** Outputs as `terraform output -json` writes them, an object of objects,
      never make the script raise. */
  lemma ObjectOutputsNeverCrash(o: Json, user: string, key: string)
    requires o.JObj?
    requires IpOutput in o.fields ==> o.fields[IpOutput].JObj?
    requires DnsOutput in o.fields ==> o.fields[DnsOutput].JObj?
    ensures BuildInventory(o, user, key).Ok?
  {
  }

  /** The DNS name is published only when there is both a truthy address and
      a truthy DNS name. */
  lemma PublicDnsOnlyWithBoth(o: Json, user: string, key: string)
    requires BuildInventory(o, user, key).Ok?
    ensures var inv := BuildInventory(o, user, key).value;
            (exists n :: n in inv.hostvars && "public_dns" in inv.hostvars[n]) <==>
            Present(OutputValue(o, IpOutput).value) && Present(OutputValue(o, DnsOutput).value)
  {
    var inv := BuildInventory(o, user, key).value;
    if Present(OutputValue(o, IpOutput).value) {
      assert HostName in inv.hostvars;
    }
  }

  /** The printed groups: `all` and `web` list the same names, `all` has
      no variables, and the hosts with variables are exactly the listed ones. */
  lemma DocumentGroups(inv: Inventory)
    requires WellShaped(inv)
    ensures ToJson(inv).fields["all"].fields["hosts"] == ToJson(inv).fields["web"].fields["hosts"]
    ensures ToJson(inv).fields["all"].fields["vars"] == JObj(map[])
    ensures forall n :: n in ToJson(inv).fields["_meta"].fields["hostvars"].fields <==>
                        JStr(n) in ToJson(inv).fields["all"].fields["hosts"].items
  {
    var names := Names(inv.allHosts).items;
    forall n ensures n in HostVarsJson(inv.hostvars).fields <==> JStr(n) in names {
      if JStr(n) in names {
        var i :| 0 <= i < |names| && names[i] == JStr(n);
        assert inv.allHosts[i] == n;
      }
    }
  }

  /** `hostvars.get(name, {})` for the `--host` mode. */
  function HostQuery(inv: Inventory, name: string): (r: Json)
    ensures r.JObj?
    ensures name in inv.hostvars ==> r.fields == inv.hostvars[name]
    ensures name !in inv.hostvars ==> r.fields == map[]
  {
    if name in inv.hostvars then JObj(inv.hostvars[name]) else JObj(map[])
  }

  /** `--host infratrack` answers with the connection variables when there is
      a truthy address, and every other name, or no address, gets `{}`. */
  lemma HostQueryOfInventory(o: Json, user: string, key: string, name: string)
    requires BuildInventory(o, user, key).Ok?
    ensures var inv := BuildInventory(o, user, key).value;
            var ip := OutputValue(o, IpOutput).value;
            if name == HostName && Present(ip) then
              Connects(HostQuery(inv, name).fields, ip.value, user, key, OutputValue(o, DnsOutput).value)
            else
              HostQuery(inv, name) == JObj(map[])
  {
    var inv := BuildInventory(o, user, key).value;
    if name != HostName || !Present(OutputValue(o, IpOutput).value) {
      assert name !in inv.hostvars;
    }
  }

  /** The command line: `--host NAME` prints one host's variables; `--list`
      and every other argument list print the whole document. */
  function Command(args: seq<string>, o: Json, user: string, key: string): (r: Result<Json, Crash>)
    ensures r.Err? <==> BuildInventory(o, user, key).Err?
    ensures r.Ok? && |args| == 3 && args[1] == "--host" ==>
              r.value == HostQuery(BuildInventory(o, user, key).value, args[2])
    ensures r.Ok? && !(|args| == 3 && args[1] == "--host") ==>
              r.value == ToJson(BuildInventory(o, user, key).value)
  {
    if |args| == 2 && args[1] == "--list" then
      var inv :- BuildInventory(o, user, key);
      Ok(ToJson(inv))
    else if |args| == 3 && args[1] == "--host" then
      var inv :- BuildInventory(o, user, key);
      Ok(HostQuery(inv, args[2]))
    else
      var inv :- BuildInventory(o, user, key);
      Ok(ToJson(inv))
  }

  /** An example: address `1.2.3.4` and DNS name `x.example.com`
      give the single host `infratrack` in both groups, with both values. */
  lemma ExampleWithDns(user: string, key: string)
    ensures var o := JObj(map[
              IpOutput := JObj(map["value" := JStr("1.2.3.4")]),
              DnsOutput := JObj(map["value" := JStr("x.example.com")])]);
            var inv := BuildInventory(o, user, key);
            && inv.Ok?
            && inv.value.allHosts == [HostName] && inv.value.webHosts == [HostName]
            && inv.value.hostvars[HostName]["ansible_host"] == JStr("1.2.3.4")
            && inv.value.hostvars[HostName]["public_dns"] == JStr("x.example.com")
  {
    var o := JObj(map[
      IpOutput := JObj(map["value" := JStr("1.2.3.4")]),
      DnsOutput := JObj(map["value" := JStr("x.example.com")])]);
    assert HasValue(o, IpOutput) && HasValue(o, DnsOutput);
  }
}
