/**
 * InfraTrack's data model: the three record kinds, the store that holds
 * them, the no-orphan invariant the foreign keys declare, the cascade that
 * deleting a host is declared to perform, and the tag-string interpretation.
 *
 * The relationships use `passive_deletes=True`, so the ORM leaves a deleted
 * host's tasks and changes to the database's `ON DELETE CASCADE`. That only
 * happens on a database that enforces foreign keys; SQLite, the default
 * engine, does not unless `PRAGMA foreign_keys=ON` is set, and nothing sets
 * it. `HostOnlyDelete` is the deletion as it happens there; `CascadeDelete`
 * is the declared one, which the request handlers use.
 */
module Models {
  import opened Wrappers
  import opened PyStr

  import opened Keys

  /** A UTC timestamp, supplied by the caller when a record is created. */
  datatype Instant = Instant(utcMicros: int)

  // ---------------------------------------------------------------------
  // Tags
  // ---------------------------------------------------------------------

  /** What `tags_to_list` may produce: a non-empty, trimmed, comma-free tag. */
  predicate IsTag(t: string) {
    t != [] && IsTrimmed(t) && ',' !in t
  }

  /** The stripped, non-empty segments, in order. */
  function Tags(segments: seq<string>): (r: seq<string>)
    ensures |r| <= |segments|
    ensures forall i :: 0 <= i < |r| ==> r[i] != [] && IsTrimmed(r[i])
    decreases |segments|
  {
    if segments == [] then []
    else
      var t := Strip(segments[0]);
      var rest := Tags(segments[1..]);
      if t == [] then rest
      else
        assert forall i :: 0 < i <= |rest| ==> ([t] + rest)[i] == rest[i - 1];
        [t] + rest
  }

  /** Comma-free segments give comma-free tags. */
  lemma {:induction false} TagsHaveNoComma(segments: seq<string>)
    requires forall i :: 0 <= i < |segments| ==> ',' !in segments[i]
    ensures forall i :: 0 <= i < |Tags(segments)| ==> IsTag(Tags(segments)[i])
    decreases |segments|
  {
    if segments != [] {
      TagsHaveNoComma(segments[1..]);
      if ',' in Strip(segments[0]) {
        StripChars(segments[0], ',');
      }
    }
  }

  /** `tags_to_list`: split on commas, strip each piece, drop the empty ones.
      `None` is read as the empty string. */
  function TagsToList(tagString: Option<string>): (r: seq<string>)
    ensures forall i :: 0 <= i < |r| ==> IsTag(r[i])
    ensures |r| <= Count(tagString.GetOr([]), ',') + 1
    ensures tagString == None || tagString == Some([]) ==> r == []
  {
    // `tag_string or ""`: `GetOr` differs from `or` only on a present
    // falsy value, and the one falsy string is `""`, the default itself.
    var segments := Split(tagString.GetOr([]), ',');
    TagsHaveNoComma(segments);
    Tags(segments)
  }

  /** Tag extraction is a homomorphism over segment lists: the tags of two
      runs of segments are the tags of the first followed by those of the
      second, so tags keep the order of their segments. */
  lemma {:induction false} TagsAppend(a: seq<string>, b: seq<string>)
    ensures Tags(a + b) == Tags(a) + Tags(b)
    decreases |a|
  {
    if a == [] {
      assert a + b == b;
    } else {
      assert (a + b)[0] == a[0];
      assert (a + b)[1..] == a[1..] + b;
      TagsAppend(a[1..], b);
    }
  }

  /** A text with no whitespace at either end is its own `strip()`. */
  lemma StripOfTrimmed(t: string)
    requires IsTrimmed(t)
    ensures Strip(t) == t
  {
    StripOfPadded([], t, []);
    assert [] + t + [] == t;
  }

  /** Segments that are already tags come back unchanged. */
  lemma {:induction false} TagsOfTags(ts: seq<string>)
    requires forall i :: 0 <= i < |ts| ==> IsTag(ts[i])
    ensures Tags(ts) == ts
    decreases |ts|
  {
    if ts != [] {
      assert IsTag(ts[0]);
      StripOfTrimmed(ts[0]);
      TagsOfTags(ts[1..]);
      assert ts == [ts[0]] + ts[1..];
    }
  }

  /** Joining tags with "," and parsing the result again gives the same tags. */
  lemma TagsJoinRoundTrip(tags: seq<string>)
    requires forall i :: 0 <= i < |tags| ==> IsTag(tags[i])
    ensures TagsToList(Some(Join(tags, ','))) == tags
  {
    if tags == [] {
      assert Strip([]) == [] by { StripOfPadded([], [], []); }
    } else {
      SplitJoin(tags, ',');
      TagsOfTags(tags);
    }
  }

  /** The round trip the tag column relies on: `tags_to_list(",".join(tags_to_list(s)))`
      equals `tags_to_list(s)`. */
  lemma TagsToListRoundTrip(tagString: Option<string>)
    ensures TagsToList(Some(Join(TagsToList(tagString), ','))) == TagsToList(tagString)
  {
    TagsJoinRoundTrip(TagsToList(tagString));
  }

  /** The segment list with `prefix` glued onto its first segment. */
  function WithPrefix(prefix: string, segments: seq<string>): (r: seq<string>)
    requires segments != []
    ensures |r| == |segments| && r[1..] == segments[1..] && r[0] == prefix + segments[0]
  {
    [prefix + segments[0]] + segments[1..]
  }

  lemma WithEmptyPrefix(segments: seq<string>)
    requires segments != []
    ensures WithPrefix([], segments) == segments
  {
    assert [] + segments[0] == segments[0];
    assert [segments[0]] + segments[1..] == segments;
  }

  /** One step of splitting from the front: a comma closes the current
      segment, any other character extends it. */
  lemma SplitStep(s: string, i: nat)
    requires i < |s|
    ensures s[i] == ',' ==> Split(s[i..], ',') == [[]] + Split(s[i + 1..], ',')
    ensures s[i] != ',' ==> Split(s[i..], ',') == WithPrefix([s[i]], Split(s[i + 1..], ','))
  {
    assert s[i..][0] == s[i];
    assert s[i..][1..] == s[i + 1..];
  }

  /** The tag a finished segment contributes: its stripped text, unless that is empty. */
  function Emit(segment: string): (r: seq<string>)
    ensures |r| <= 1
    ensures r == Tags([segment])
  {
    assert [segment][1..] == [];
    if Strip(segment) == [] then [] else [Strip(segment)]
  }

  /** The tags still to come when `current` has been read from the segment
      that continues at `s[i..]`. */
  function Pending(current: string, s: string, i: nat): seq<string>
    requires i <= |s|
  {
    Tags(WithPrefix(current, Split(s[i..], ',')))
  }

  lemma PendingStart(s: string)
    ensures [] + Pending([], s, 0) == TagsToList(Some(s))
  {
    assert [] + Pending([], s, 0) == Pending([], s, 0);
    assert s[0..] == s;
    WithEmptyPrefix(Split(s, ','));
  }

  /** A comma closes the current segment. */
  lemma PendingComma(current: string, s: string, i: nat)
    requires i < |s| && s[i] == ','
    ensures Pending(current, s, i) == Emit(current) + Pending([], s, i + 1)
  {
    SplitStep(s, i);
    var rest := Split(s[i + 1..], ',');
    assert current + [] == current;
    assert WithPrefix(current, [[]] + rest) == [current] + rest;
    TagsAppend([current], rest);
    WithEmptyPrefix(rest);
  }

  /** Any other character extends it. */
  lemma PendingChar(current: string, s: string, i: nat)
    requires i < |s| && s[i] != ','
    ensures Pending(current, s, i) == Pending(current + [s[i]], s, i + 1)
  {
    SplitStep(s, i);
    var rest := Split(s[i + 1..], ',');
    assert current + ([s[i]] + rest[0]) == (current + [s[i]]) + rest[0];
  }

  /** The end of the input closes the last segment. */
  lemma PendingEnd(current: string, s: string)
    ensures Pending(current, s, |s|) == Emit(current)
  {
    assert s[|s|..] == [];
    assert current + [] == current;
    assert WithPrefix(current, [[]]) == [current];
  }

  /** Associativity of sequence concatenation, which Dafny knows; the empty
      body is deliberate. Calling it hands the solver the one regrouped term
      `ScanChar` needs, which is much cheaper than an inline assertion. */
  lemma AppendAssoc(a: seq<string>, b: seq<string>, c: seq<string>)
    ensures a + (b + c) == (a + b) + c
  {
  }

  /** Reading character `s[i]`: a comma emits the current segment's tag and
      starts a new segment, any other character extends the current one. */
  method ScanChar(s: string, i: nat, tags: seq<string>, current: string)
    returns (tags': seq<string>, current': string)
    requires i < |s|
    ensures tags' + Pending(current', s, i + 1) == tags + Pending(current, s, i)
  {
    if s[i] == ',' {
      PendingComma(current, s, i);
      AppendAssoc(tags, Emit(current), Pending([], s, i + 1));
      tags', current' := tags + Emit(current), [];
    } else {
      PendingChar(current, s, i);
      tags', current' := tags, current + [s[i]];
    }
  }

  /** A second, independent definition of `tags_to_list`: one left-to-right
      pass over the characters that emits a tag at every comma and at the end. */
  method ScanTags(s: string) returns (tags: seq<string>)
    ensures tags == TagsToList(Some(s))
  {
    tags := [];
    var current: string := [];
    var i := 0;
    PendingStart(s);
    while i < |s|
      invariant 0 <= i <= |s|
      invariant tags + Pending(current, s, i) == TagsToList(Some(s))
    {
      tags, current := ScanChar(s, i, tags, current);
      i := i + 1;
    }
    PendingEnd(current, s);
    tags := tags + Emit(current);
  }

  // ---------------------------------------------------------------------
  // Records and the store
  // ---------------------------------------------------------------------

  /** A managed machine. `os` and `tags` are nullable columns. */
  datatype Host = Host(
    id: Id,
    hostname: string,
    ipAddress: string,
    os: Option<string>,
    tags: Option<string>,
    createdAt: Instant)
  {
    /** `Host.tag_list()`: this host's tag column read as a list of tags. */
    function TagList(): (r: seq<string>)
      ensures forall i :: 0 <= i < |r| ==> IsTag(r[i])
      ensures tags == None ==> r == []
      ensures tags.Some? && IsTag(tags.value) ==> r == [tags.value]
    {
      assert tags.Some? && IsTag(tags.value) ==> TagsToList(tags) == [tags.value] by {
        if tags.Some? && IsTag(tags.value) {
          TagsJoinRoundTrip([tags.value]);
        }
      }
      TagsToList(tags)
    }
  }

  /** A maintenance action performed on a host; `hostId` is a non-null foreign key. */
  datatype Task = Task(id: Id, hostId: Id, description: string, performedAt: Instant)

  /** A change-log entry for a host; `hostId` is a non-null foreign key. */
  datatype Change = Change(id: Id, hostId: Id, summary: string, changedAt: Instant)

  /** The three tables, each keyed by primary key. */
  datatype Store = Store(hosts: map<Id, Host>, tasks: map<Id, Task>, changes: map<Id, Change>)

  /** The freshly created database (`db.create_all()` on an empty file). */
  const EmptyStore := Store(map[], map[], map[])

  /** Each row sits under its own primary key. */
  predicate KeysMatchIds(s: Store) {
    && (forall k :: k in s.hosts ==> s.hosts[k].id == k)
    && (forall k :: k in s.tasks ==> s.tasks[k].id == k)
    && (forall k :: k in s.changes ==> s.changes[k].id == k)
  }

  /** Every task and change references a host that exists. */
  predicate NoOrphans(s: Store) {
    && (forall k :: k in s.tasks ==> s.tasks[k].hostId in s.hosts)
    && (forall k :: k in s.changes ==> s.changes[k].hostId in s.hosts)
  }

  /** The store invariant every transition keeps. */
  predicate Valid(s: Store) {
    KeysMatchIds(s) && NoOrphans(s)
  }

  /** Write a host row under key `k` (an insert or an update). */
  function PutHost(s: Store, k: Id, h: Host): (r: Store)
    ensures r.hosts.Keys == s.hosts.Keys + {k} && r.hosts[k] == h
    ensures k in s.hosts ==> r.hosts.Keys == s.hosts.Keys
    ensures forall j :: j in s.hosts && j != k ==> r.hosts[j] == s.hosts[j]
    ensures r.tasks == s.tasks && r.changes == s.changes
    ensures Valid(s) && h.id == k ==> Valid(r)
  {
    s.(hosts := s.hosts[k := h])
  }

  /** Write a task row under key `k`; the foreign key demands its host exist. */
  function PutTask(s: Store, k: Id, t: Task): (r: Store)
    ensures r.tasks.Keys == s.tasks.Keys + {k} && r.tasks[k] == t
    ensures k in s.tasks ==> r.tasks.Keys == s.tasks.Keys
    ensures forall j :: j in s.tasks && j != k ==> r.tasks[j] == s.tasks[j]
    ensures r.hosts == s.hosts && r.changes == s.changes
    ensures Valid(s) && t.id == k && t.hostId in s.hosts ==> Valid(r)
  {
    s.(tasks := s.tasks[k := t])
  }

  /** Write a change row under key `k`; the foreign key demands its host exist. */
  function PutChange(s: Store, k: Id, c: Change): (r: Store)
    ensures r.changes.Keys == s.changes.Keys + {k} && r.changes[k] == c
    ensures k in s.changes ==> r.changes.Keys == s.changes.Keys
    ensures forall j :: j in s.changes && j != k ==> r.changes[j] == s.changes[j]
    ensures r.hosts == s.hosts && r.tasks == s.tasks
    ensures Valid(s) && c.id == k && c.hostId in s.hosts ==> Valid(r)
  {
    s.(changes := s.changes[k := c])
  }

  /** Delete one task row; nothing references tasks. */
  function RemoveTask(s: Store, id: Id): (r: Store)
    ensures r.tasks.Keys == s.tasks.Keys - {id}
    ensures forall k :: k in r.tasks ==> r.tasks[k] == s.tasks[k]
    ensures r.hosts == s.hosts && r.changes == s.changes
    ensures Valid(s) ==> Valid(r)
  {
    s.(tasks := s.tasks - {id})
  }

  /** Delete one change row; nothing references changes. */
  function RemoveChange(s: Store, id: Id): (r: Store)
    ensures r.changes.Keys == s.changes.Keys - {id}
    ensures forall k :: k in r.changes ==> r.changes[k] == s.changes[k]
    ensures r.hosts == s.hosts && r.tasks == s.tasks
    ensures Valid(s) ==> Valid(r)
  {
    s.(changes := s.changes - {id})
  }

  /** Keys of the tasks owned by host `hostId`. */
  function TasksOf(s: Store, hostId: Id): (r: set<Id>)
    ensures forall k :: k in r <==> k in s.tasks && s.tasks[k].hostId == hostId
  {
    set k | k in s.tasks && s.tasks[k].hostId == hostId
  }

  /** Keys of the changes owned by host `hostId`. */
  function ChangesOf(s: Store, hostId: Id): (r: set<Id>)
    ensures forall k :: k in r <==> k in s.changes && s.changes[k].hostId == hostId
  {
    set k | k in s.changes && s.changes[k].hostId == hostId
  }

  /** Deleting a host together with everything it owns, as the relationships'
      `delete-orphan` cascade and the foreign keys' `ON DELETE CASCADE`
      declare it, on a database that enforces foreign keys. */
  function CascadeDelete(s: Store, hostId: Id): (r: Store)
    ensures r.hosts.Keys == s.hosts.Keys - {hostId}
    ensures r.tasks.Keys == s.tasks.Keys - TasksOf(s, hostId)
    ensures r.changes.Keys == s.changes.Keys - ChangesOf(s, hostId)
    ensures forall k :: k in r.hosts ==> r.hosts[k] == s.hosts[k]
    ensures forall k :: k in r.tasks ==> r.tasks[k] == s.tasks[k]
    ensures forall k :: k in r.changes ==> r.changes[k] == s.changes[k]
    ensures Valid(s) ==> Valid(r)
  {
    Store(
      map k | k in s.hosts && k != hostId :: s.hosts[k],
      map k | k in s.tasks && s.tasks[k].hostId != hostId :: s.tasks[k],
      map k | k in s.changes && s.changes[k].hostId != hostId :: s.changes[k])
  }

  /** A host with `n` tasks and `m` changes takes exactly `1 + n + m` rows with it. */
  lemma CascadeCounts(s: Store, hostId: Id)
    requires hostId in s.hosts
    ensures |CascadeDelete(s, hostId).hosts| == |s.hosts| - 1
    ensures |CascadeDelete(s, hostId).tasks| == |s.tasks| - |TasksOf(s, hostId)|
    ensures |CascadeDelete(s, hostId).changes| == |s.changes| - |ChangesOf(s, hostId)|
  {
    var r := CascadeDelete(s, hostId);
    assert r.hosts.Keys == s.hosts.Keys - {hostId};
    assert TasksOf(s, hostId) <= s.tasks.Keys;
    assert ChangesOf(s, hostId) <= s.changes.Keys;
  }

  /** `DELETE FROM host` on a database that does not enforce foreign keys:
      the host row goes and every task and change stays as it was. */
  function HostOnlyDelete(s: Store, hostId: Id): (r: Store)
    ensures r.hosts.Keys == s.hosts.Keys - {hostId}
    ensures forall k :: k in r.hosts ==> r.hosts[k] == s.hosts[k]
    ensures r.tasks == s.tasks && r.changes == s.changes
  {
    s.(hosts := map k | k in s.hosts && k != hostId :: s.hosts[k])
  }

  /** Without the cascade the invariant breaks: deleting only the host row of
      a valid store orphans its tasks and changes whenever it has any. */
  lemma HostOnlyDeleteOrphans(s: Store, hostId: Id)
    requires Valid(s)
    requires TasksOf(s, hostId) != {} || ChangesOf(s, hostId) != {}
    ensures !NoOrphans(HostOnlyDelete(s, hostId))
    ensures NoOrphans(CascadeDelete(s, hostId))
  {
    if TasksOf(s, hostId) != {} {
      var k := PickKey(TasksOf(s, hostId));
      assert s.tasks[k].hostId == hostId;
    } else {
      var k := PickKey(ChangesOf(s, hostId));
      assert s.changes[k].hostId == hostId;
    }
  }

  /** A concrete case: host 1 owns task 7; deleting host 1 without the
      cascade leaves task 7 pointing at no host, the cascade removes it. */
  lemma OrphanedTaskExample(now: Instant)
    ensures var s := Store(map[1 := Host(1, "web-01", "10.0.0.1", None, None, now)],
                           map[7 := Task(7, 1, "patch", now)], map[]);
            && Valid(s)
            && 7 in HostOnlyDelete(s, 1).tasks && HostOnlyDelete(s, 1).tasks[7].hostId !in HostOnlyDelete(s, 1).hosts
            && 7 !in CascadeDelete(s, 1).tasks
  {
    var s := Store(map[1 := Host(1, "web-01", "10.0.0.1", None, None, now)],
                   map[7 := Task(7, 1, "patch", now)], map[]);
    assert 7 in TasksOf(s, 1);
  }

  /** The empty database satisfies the invariant, so every store reached
      from it by the handlers does. */
  lemma EmptyStoreValid()
    ensures Valid(EmptyStore)
  {
  }
}
