/**
 * The read side of the application: the listings (`ORDER BY id ASC`) and
 * the host choices offered by the forms for tasks and changes (`ORDER BY hostname`).
 */
module Queries {
  import opened Keys
  import opened Models

  /** The rows of `m` under `ids`, in the order of `ids`. */
  function Rows<T>(m: map<Id, T>, ids: seq<Id>): (r: seq<T>)
    requires forall i :: 0 <= i < |ids| ==> ids[i] in m
    ensures |r| == |ids|
    ensures forall i :: 0 <= i < |r| ==> r[i] == m[ids[i]]
  {
    seq(|ids|, i requires 0 <= i < |ids| => m[ids[i]])
  }

  /** The rows of `m` by ascending key. */
  function ByKey<T>(m: map<Id, T>): (r: seq<T>)
    ensures |r| == |m|
    ensures forall i :: 0 <= i < |r| ==> Ascending(m.Keys)[i] in m && r[i] == m[Ascending(m.Keys)[i]]
  {
    Rows(m, Ascending(m.Keys))
  }

  /** Every row of `m` is among `ByKey(m)`. */
  lemma ByKeyCovers<T>(m: map<Id, T>, k: Id)
    requires k in m
    ensures m[k] in ByKey(m)
  {
    var ids := Ascending(m.Keys);
    var i :| 0 <= i < |ids| && ids[i] == k;
    assert ByKey(m)[i] == m[k];
  }

  /** The hosts page and the landing page: every host once, by id ascending. */
  function ListHosts(s: Store): (r: seq<Host>)
    ensures |r| == |s.hosts|
    ensures forall k :: k in s.hosts ==> s.hosts[k] in r
    ensures KeysMatchIds(s) ==> forall i :: 0 <= i < |r| ==> r[i].id in s.hosts && s.hosts[r[i].id] == r[i]
    ensures KeysMatchIds(s) ==> forall i, j :: 0 <= i < j < |r| ==> r[i].id < r[j].id
  {
    forall k | k in s.hosts ensures s.hosts[k] in ByKey(s.hosts) {
      ByKeyCovers(s.hosts, k);
    }
    ByKey(s.hosts)
  }

  /** The tasks page: every task once, by id ascending. */
  function ListTasks(s: Store): (r: seq<Task>)
    ensures |r| == |s.tasks|
    ensures forall k :: k in s.tasks ==> s.tasks[k] in r
    ensures KeysMatchIds(s) ==> forall i :: 0 <= i < |r| ==> r[i].id in s.tasks && s.tasks[r[i].id] == r[i]
    ensures KeysMatchIds(s) ==> forall i, j :: 0 <= i < j < |r| ==> r[i].id < r[j].id
  {
    forall k | k in s.tasks ensures s.tasks[k] in ByKey(s.tasks) {
      ByKeyCovers(s.tasks, k);
    }
    ByKey(s.tasks)
  }

  /** The changes page: every change once, by id ascending. */
  function ListChanges(s: Store): (r: seq<Change>)
    ensures |r| == |s.changes|
    ensures forall k :: k in s.changes ==> s.changes[k] in r
    ensures KeysMatchIds(s) ==> forall i :: 0 <= i < |r| ==> r[i].id in s.changes && s.changes[r[i].id] == r[i]
    ensures KeysMatchIds(s) ==> forall i, j :: 0 <= i < j < |r| ==> r[i].id < r[j].id
  {
    forall k | k in s.changes ensures s.changes[k] in ByKey(s.changes) {
      ByKeyCovers(s.changes, k);
    }
    ByKey(s.changes)
  }

  // ---------------------------------------------------------------------
  // Host choices
  // ---------------------------------------------------------------------

  /** String order as SQLite's default BINARY collation compares text:
      code point by code point, a proper prefix first. */
  predicate LexLe(a: string, b: string)
    decreases |a|
  {
    a == [] || (b != [] && (a[0] < b[0] || (a[0] == b[0] && LexLe(a[1..], b[1..]))))
  }

  /** Any two strings are ordered one way or the other. */
  lemma {:induction false} LexTotal(a: string, b: string)
    ensures LexLe(a, b) || LexLe(b, a)
    decreases |a|
  {
    if a != [] && b != [] && a[0] == b[0] {
      LexTotal(a[1..], b[1..]);
    }
  }

  /** The order is transitive, so adjacent order is order throughout. */
  lemma {:induction false} LexTrans(a: string, b: string, c: string)
    requires LexLe(a, b) && LexLe(b, c)
    ensures LexLe(a, c)
    decreases |a|
  {
    if a != [] && b != [] && c != [] && a[0] == b[0] && b[0] == c[0] {
      LexTrans(a[1..], b[1..], c[1..]);
    }
  }

  predicate SortedByName(hs: seq<Host>) {
    forall i :: 0 <= i < |hs| - 1 ==> LexLe(hs[i].hostname, hs[i + 1].hostname)
  }

  /** Insert `h` into a hostname-sorted list after every host whose name is
      not above it. */
  function InsertByName(h: Host, sorted: seq<Host>): (r: seq<Host>)
    requires SortedByName(sorted)
    ensures SortedByName(r)
    ensures multiset(r) == multiset(sorted) + multiset{h}
    ensures r[0] == h || (sorted != [] && r[0] == sorted[0])
    decreases |sorted|
  {
    if sorted == [] then [h]
    else if !LexLe(sorted[0].hostname, h.hostname) then
      LexTotal(h.hostname, sorted[0].hostname);
      [h] + sorted
    else
      var rest := InsertByName(h, sorted[1..]);
      assert sorted == [sorted[0]] + sorted[1..];
      [sorted[0]] + rest
  }

  /** Hosts sorted by hostname (an insertion sort). */
  function SortByName(hs: seq<Host>): (r: seq<Host>)
    ensures SortedByName(r)
    ensures multiset(r) == multiset(hs)
    ensures |r| == |hs|
    decreases |hs|
  {
    if hs == [] then []
    else
      assert hs == [hs[0]] + hs[1..];
      InsertByName(hs[0], SortByName(hs[1..]))
  }

  /** One `(value, label)` pair of a host select field. */
  datatype Choice = Choice(id: Id, text: string)

  /** The ids a select field accepts. */
  function ChoiceIds(cs: seq<Choice>): (r: set<Id>)
    ensures forall i :: 0 <= i < |cs| ==> cs[i].id in r
    ensures forall k :: k in r ==> exists i :: 0 <= i < |cs| && cs[i].id == k
  {
    set i | 0 <= i < |cs| :: cs[i].id
  }

  /** Each host as a `(host.id, host.hostname)` choice. */
  function ToChoices(hs: seq<Host>): (r: seq<Choice>)
    ensures |r| == |hs|
    ensures forall i :: 0 <= i < |r| ==> r[i].id == hs[i].id && r[i].text == hs[i].hostname
    decreases |hs|
  {
    if hs == [] then [] else [Choice(hs[0].id, hs[0].hostname)] + ToChoices(hs[1..])
  }

  /** Sorting keeps exactly the same hosts. */
  lemma SortKeepsHosts(hs: seq<Host>)
    ensures forall i :: 0 <= i < |SortByName(hs)| ==> SortByName(hs)[i] in hs
    ensures forall h :: h in hs ==> h in SortByName(hs)
  {
    var r := SortByName(hs);
    forall i | 0 <= i < |r| ensures r[i] in hs {
      assert r[i] in multiset(hs);
    }
    forall h | h in hs ensures h in r {
      assert h in multiset(r);
    }
  }

  /** `[(h.id, h.hostname) for h in Host.query.order_by(Host.hostname)]`:
      one choice per host, hostnames ascending. Hosts that share a hostname
      come in an order SQL leaves open. */
  function HostChoices(s: Store): (r: seq<Choice>)
    ensures |r| == |s.hosts|
    ensures forall i :: 0 <= i < |r| - 1 ==> LexLe(r[i].text, r[i + 1].text)
  {
    ToChoices(SortByName(ListHosts(s)))
  }

  /** Each choice names a stored host and shows its hostname. */
  lemma ChoicesAreHosts(s: Store, i: nat)
    requires KeysMatchIds(s)
    requires i < |HostChoices(s)|
    ensures HostChoices(s)[i].id in s.hosts
    ensures HostChoices(s)[i].text == s.hosts[HostChoices(s)[i].id].hostname
  {
    var hosts := ListHosts(s);
    var sorted := SortByName(hosts);
    SortKeepsHosts(hosts);
    assert sorted[i] in hosts;
    var j :| 0 <= j < |hosts| && hosts[j] == sorted[i];
    assert hosts[j].id in s.hosts && s.hosts[hosts[j].id] == hosts[j];
  }

  /** Every stored host is offered. */
  lemma HostsAreChoices(s: Store, k: Id)
    requires KeysMatchIds(s)
    requires k in s.hosts
    ensures k in ChoiceIds(HostChoices(s))
  {
    var hosts := ListHosts(s);
    var sorted := SortByName(hosts);
    SortKeepsHosts(hosts);
    assert s.hosts[k] in sorted;
    var i :| 0 <= i < |sorted| && sorted[i] == s.hosts[k];
    assert HostChoices(s)[i].id == k;
  }

  /** A select field built from the host choices accepts exactly the ids of
      stored hosts. */
  lemma ChoiceIdsAreHostIds(s: Store, k: Id)
    requires KeysMatchIds(s)
    ensures k in ChoiceIds(HostChoices(s)) <==> k in s.hosts
  {
    if k in s.hosts {
      HostsAreChoices(s, k);
    }
    if k in ChoiceIds(HostChoices(s)) {
      var i :| 0 <= i < |HostChoices(s)| && HostChoices(s)[i].id == k;
      ChoicesAreHosts(s, i);
    }
  }
}
