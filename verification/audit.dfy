/** The audit module as tables: logs under their eight-byte ids, the actor, type and time indexes,
    the counter, and the step that records a log. */
module Audit {
  import opened ByteStrings
  import opened Scan

  datatype AuditLog = AuditLog(
    id: uint64, eventType: Bytes, actor: Bytes, target: Bytes, action: Bytes, data: Bytes,
    blockHeight: int64, timestamp: int64, txHash: Bytes)

  datatype Params = Params(largeTransferThreshold: uint64, retentionBlocks: int64, allowedAuditors: seq<Bytes>,
    maxDataSize: int64)

  const DEFAULT_PARAMS := Params(1_000_000, 0, [], 65536)

  datatype GenesisState = GenesisState(logs: seq<AuditLog>, counter: uint64, params: Params)

  /** The hash of the transaction bytes is an input, empty when there are none. */
  datatype Context = Context(blockHeight: int64, blockTime: int64, txHash: Bytes)

  datatype Msg = RecordAudit(creator: Bytes, eventType: Bytes, target: Bytes, action: Bytes, data: Bytes)

  datatype Response = Recorded | NotAllowed | DataTooLarge

  /** byActor and byType hold entries name | 0x00 | id(8); byTime holds timestamp(8) | id(8). */
  datatype State = State(
    logs: map<Bytes, AuditLog>,
    byActor: set<Bytes>,
    byType: set<Bytes>,
    byTime: set<Bytes>,
    counter: Option<uint64>,
    params: Option<Params>)

  const EMPTY := State(map[], {}, {}, {}, None, None)

  function LogKey(l: AuditLog): Bytes { BE8(l.id) }

  function ActorOf(l: AuditLog): Bytes { l.actor }

  function TypeOf(l: AuditLog): Bytes { l.eventType }

  function TimeEntry(timestamp: int64, x: Bytes): Bytes { BE8(ToUint64(timestamp)) + x }

  function PutLog(a: State, l: AuditLog): State {
    a.(logs := a.logs[LogKey(l) := l],
       byActor := a.byActor + {IndexEntry(l.actor, LogKey(l))},
       byType := a.byType + {IndexEntry(l.eventType, LogKey(l))},
       byTime := a.byTime + {TimeEntry(l.timestamp, LogKey(l))})
  }

  // ---------- index agreement ----------

  ghost predicate Keyed(logs: map<Bytes, AuditLog>) {
    forall x :: x in logs ==> LogKey(logs[x]) == x
  }

  ghost predicate IndexAgrees(logs: map<Bytes, AuditLog>, index: set<Bytes>, nameOf: AuditLog -> Bytes) {
    forall k :: k in index <==> exists x :: x in logs && k == IndexEntry(nameOf(logs[x]), x)
  }

  ghost predicate TimeAgrees(logs: map<Bytes, AuditLog>, index: set<Bytes>) {
    forall k :: k in index <==> exists x :: x in logs && k == TimeEntry(logs[x].timestamp, x)
  }

  /** No entry is missing from an index, and none is stale. */
  ghost predicate Indexed(a: State) {
    && Keyed(a.logs)
    && IndexAgrees(a.logs, a.byActor, ActorOf)
    && IndexAgrees(a.logs, a.byType, TypeOf)
    && TimeAgrees(a.logs, a.byTime)
  }

  lemma IndexAgreesPut(logs: map<Bytes, AuditLog>, index: set<Bytes>, nameOf: AuditLog -> Bytes, x: Bytes, l: AuditLog)
    requires IndexAgrees(logs, index, nameOf) && x !in logs
    ensures IndexAgrees(logs[x := l], index + {IndexEntry(nameOf(l), x)}, nameOf)
  {
    hide IndexEntry;
    var logs' := logs[x := l];
    forall k
      ensures k in index + {IndexEntry(nameOf(l), x)} <==>
        exists z :: z in logs' && k == IndexEntry(nameOf(logs'[z]), z)
    {
      if k in index {
        var z :| z in logs && k == IndexEntry(nameOf(logs[z]), z);
        assert z in logs' && k == IndexEntry(nameOf(logs'[z]), z);
      } else if k == IndexEntry(nameOf(l), x) {
        assert x in logs' && k == IndexEntry(nameOf(logs'[x]), x);
      }
    }
  }

  lemma TimeAgreesPut(logs: map<Bytes, AuditLog>, index: set<Bytes>, x: Bytes, l: AuditLog)
    requires TimeAgrees(logs, index) && x !in logs
    ensures TimeAgrees(logs[x := l], index + {TimeEntry(l.timestamp, x)})
  {
    hide TimeEntry;
    var logs' := logs[x := l];
    forall k
      ensures k in index + {TimeEntry(l.timestamp, x)} <==>
        exists z :: z in logs' && k == TimeEntry(logs'[z].timestamp, z)
    {
      if k in index {
        var z :| z in logs && k == TimeEntry(logs[z].timestamp, z);
        assert z in logs' && k == TimeEntry(logs'[z].timestamp, z);
      } else if k == TimeEntry(l.timestamp, x) {
        assert x in logs' && k == TimeEntry(logs'[x].timestamp, x);
      }
    }
  }

  lemma PutLogIndexed(a: State, l: AuditLog)
    requires Indexed(a) && LogKey(l) !in a.logs
    ensures Indexed(PutLog(a, l))
  {
    IndexAgreesPut(a.logs, a.byActor, ActorOf, LogKey(l), l);
    IndexAgreesPut(a.logs, a.byType, TypeOf, LogKey(l), l);
    TimeAgreesPut(a.logs, a.byTime, LogKey(l), l);
    hide IndexAgrees, TimeAgrees, LogKey, IndexEntry, TimeEntry;
  }

  lemma IndexesUnique(a: State, b: State)
    requires Indexed(a) && Indexed(b) && a.logs == b.logs
    ensures a.byActor == b.byActor && a.byType == b.byType && a.byTime == b.byTime
  {
    hide IndexEntry, TimeEntry, LogKey;
    assert forall k :: k in a.byActor <==> k in b.byActor;
    assert forall k :: k in a.byType <==> k in b.byType;
    assert forall k :: k in a.byTime <==> k in b.byTime;
  }

  // ---------- queries by name ----------

  /** A query either returns the gathered logs or panics on an entry too short to hold an id. */
  datatype Outcome = Returned(logs: seq<AuditLog>) | Panicked

  /** The log that the entry name | 0x00 | y leads to: the id is read from the first eight bytes of y. */
  function EntryLookup(logs: map<Bytes, AuditLog>): Bytes -> Option<AuditLog> {
    y => if |y| >= 8 then MapLookup(logs)(y[..8]) else None
  }

  ghost predicate HasShortEntry(entries: set<Bytes>) {
    exists y :: y in entries && |y| < 8
  }

  ghost function QueryByName(logs: map<Bytes, AuditLog>, index: set<Bytes>, name: Bytes): Outcome {
    var entries := EntriesUnder(index, name);
    if HasShortEntry(entries) then Panicked else Returned(Collect(SortedKeys(entries), EntryLookup(logs)))
  }

  function Named(nameOf: AuditLog -> Bytes, name: Bytes): AuditLog -> bool {
    l => nameOf(l) == name
  }

  /** No log of another name has an index entry that the queried prefix selects and that can be
      read as the id of a stored log, or that is too short to be read. */
  ghost predicate NoMisreadEntry(logs: map<Bytes, AuditLog>, nameOf: AuditLog -> Bytes, name: Bytes) {
    forall x, y :: x in logs && nameOf(logs[x]) != name && IndexEntry(nameOf(logs[x]), x) == IndexEntry(name, y) ==>
      |y| >= 8 && y[..8] !in logs
  }

  /** The log under x, of another name n, has such an entry in one of two cases. Either n is the
      queried name, a NUL and more, and the eight bytes after the NUL are the id of a stored log; or
      the queried name ends inside the entry's id, right before a zero byte, and fewer than eight
      bytes are left to read. */
  predicate FalseEntry(logs: map<Bytes, AuditLog>, n: Bytes, x: Bytes, name: Bytes) {
    if |n| > |name| then name + [0x00] <= n && |x| == 8 && (n[|name| + 1..] + [0x00] + x)[..8] in logs
    else TooShort(n, x, name)
  }

  predicate TooShort(n: Bytes, x: Bytes, name: Bytes) {
    |n| < |name| && name + [0x00] <= IndexEntry(n, x)
  }

  ghost predicate NoFalseEntry(logs: map<Bytes, AuditLog>, nameOf: AuditLog -> Bytes, name: Bytes) {
    forall x :: x in logs && nameOf(logs[x]) != name ==> !FalseEntry(logs, nameOf(logs[x]), x, name)
  }

  predicate Misread(logs: map<Bytes, AuditLog>, y: Bytes) {
    |y| < 8 || y[..8] in logs
  }

  lemma RestOfEntry(n: Bytes, x: Bytes, name: Bytes, y: Bytes)
    ensures IndexEntry(n, x) == IndexEntry(name, y) <==>
      name + [0x00] <= IndexEntry(n, x) && y == IndexEntry(n, x)[|name| + 1..]
    ensures |n| > |name| && name + [0x00] <= IndexEntry(n, x) ==>
      name + [0x00] <= n && IndexEntry(n, x)[|name| + 1..] == n[|name| + 1..] + [0x00] + x
  {
    var p, k := name + [0x00], IndexEntry(n, x);
    if p <= k {
      PrefixSplits(p, k);
      if |n| > |name| {
        assert k[..|name| + 1] == n[..|name| + 1];
      }
    }
    assert IndexEntry(name, y) == p + y;
    assert (p + y)[|p|..] == y;
  }

  lemma PrefixOfName(n: Bytes, x: Bytes, name: Bytes)
    requires name + [0x00] <= n
    ensures name + [0x00] <= IndexEntry(n, x)
  {}

  lemma FalseEntryIff(logs: map<Bytes, AuditLog>, n: Bytes, x: Bytes, name: Bytes)
    requires |x| == 8 && n != name
    ensures FalseEntry(logs, n, x, name) <==> exists y :: IndexEntry(n, x) == IndexEntry(name, y) && Misread(logs, y)
  {
    var k := IndexEntry(n, x);
    if FalseEntry(logs, n, x, name) {
      if |n| > |name| {
        PrefixOfName(n, x, name);
      }
      var y := k[|name| + 1..];
      RestOfEntry(n, x, name, y);
      assert Misread(logs, y);
    }
    if y :| k == IndexEntry(name, y) && Misread(logs, y) {
      RestOfEntry(n, x, name, y);
      if |n| == |name| {
        SameLengthSameName(n, x, name, y);
      }
    }
  }

  lemma NoFalseMeansNoMisread(logs: map<Bytes, AuditLog>, nameOf: AuditLog -> Bytes, name: Bytes)
    requires Keyed(logs)
    ensures NoFalseEntry(logs, nameOf, name) <==> NoMisreadEntry(logs, nameOf, name)
  {
    KeysHaveEightBytes(logs);
    hide FalseEntry, IndexEntry, Keyed;
    forall x | x in logs && nameOf(logs[x]) != name
      ensures FalseEntry(logs, nameOf(logs[x]), x, name) <==>
        exists y :: IndexEntry(nameOf(logs[x]), x) == IndexEntry(name, y) && Misread(logs, y)
    {
      FalseEntryIff(logs, nameOf(logs[x]), x, name);
    }
  }

  lemma KeysHaveEightBytes(logs: map<Bytes, AuditLog>)
    requires Keyed(logs)
    ensures forall x :: x in logs ==> |x| == 8
  {
    assert forall x :: x in logs ==> |LogKey(logs[x])| == 8;
  }

  lemma NameQueryComplete(logs: map<Bytes, AuditLog>, index: set<Bytes>, nameOf: AuditLog -> Bytes, name: Bytes)
    requires Keyed(logs) && IndexAgrees(logs, index, nameOf)
    ensures ScanIsComplete(logs.Keys, MapLookup(logs), EntriesUnder(index, name), EntryLookup(logs),
      Named(nameOf, name))
  {
    KeysHaveEightBytes(logs);
    forall x | x in logs.Keys && MapLookup(logs)(x).Some? && Named(nameOf, name)(MapLookup(logs)(x).value)
      ensures x in EntriesUnder(index, name) && EntryLookup(logs)(x) == MapLookup(logs)(x)
    {
      assert x in logs && nameOf(logs[x]) == name;
      assert IndexEntry(name, x) in index;
      assert x[..8] == x;
    }
  }

  lemma NameQuerySoundIff(logs: map<Bytes, AuditLog>, index: set<Bytes>, nameOf: AuditLog -> Bytes, name: Bytes)
    requires Keyed(logs) && IndexAgrees(logs, index, nameOf)
    ensures ScanIsSound(logs.Keys, MapLookup(logs), EntriesUnder(index, name), EntryLookup(logs), Named(nameOf, name))
         && !HasShortEntry(EntriesUnder(index, name))
       <==> NoMisreadEntry(logs, nameOf, name)
  {
    KeysHaveEightBytes(logs);
    if NoMisreadEntry(logs, nameOf, name) {
      NoMisreadIsSound(logs, index, nameOf, name);
    } else {
      var x, y :| x in logs && nameOf(logs[x]) != name && IndexEntry(nameOf(logs[x]), x) == IndexEntry(name, y)
        && !(|y| >= 8 && y[..8] !in logs);
      assert IndexEntry(name, y) in index;
      assert y in EntriesUnder(index, name);
      if |y| >= 8 {
        assert EntryLookup(logs)(y) == MapLookup(logs)(y[..8]);
        if y in logs {
          SameLengthSameName(nameOf(logs[x]), x, name, y);
        }
      }
    }
  }

  lemma EntryIsOwnOrUnread(logs: map<Bytes, AuditLog>, nameOf: AuditLog -> Bytes, name: Bytes, x: Bytes, y: Bytes)
    requires x in logs && |x| == 8 && NoMisreadEntry(logs, nameOf, name)
    requires IndexEntry(name, y) == IndexEntry(nameOf(logs[x]), x)
    ensures |y| >= 8
    ensures EntryLookup(logs)(y).Some? ==> y == x && nameOf(logs[x]) == name && EntryLookup(logs)(y) == Some(logs[x])
  {
    if nameOf(logs[x]) == name {
      SameLengthSameName(nameOf(logs[x]), x, name, y);
      assert y[..8] == y;
      assert EntryLookup(logs)(y) == MapLookup(logs)(y[..8]) == Some(logs[x]);
    } else {
      assert |y| >= 8 && y[..8] !in logs;
      assert EntryLookup(logs)(y) == MapLookup(logs)(y[..8]) == None;
    }
  }

  lemma NoMisreadIsSound(logs: map<Bytes, AuditLog>, index: set<Bytes>, nameOf: AuditLog -> Bytes, name: Bytes)
    requires Keyed(logs) && IndexAgrees(logs, index, nameOf) && NoMisreadEntry(logs, nameOf, name)
    ensures ScanIsSound(logs.Keys, MapLookup(logs), EntriesUnder(index, name), EntryLookup(logs), Named(nameOf, name))
    ensures !HasShortEntry(EntriesUnder(index, name))
  {
    KeysHaveEightBytes(logs);
    hide IndexEntry, NoMisreadEntry, Keyed, EntryLookup;
    forall y | y in EntriesUnder(index, name)
      ensures |y| >= 8
      ensures EntryLookup(logs)(y).Some? ==>
        y in logs.Keys && MapLookup(logs)(y) == EntryLookup(logs)(y) && Named(nameOf, name)(EntryLookup(logs)(y).value)
    {
      var x :| x in logs && IndexEntry(name, y) == IndexEntry(nameOf(logs[x]), x);
      EntryIsOwnOrUnread(logs, nameOf, name, x, y);
    }
  }

  /** The query by a name returns exactly the logs of that name, in ascending id order, exactly when
      no foreign entry can be read as a stored id and none is too short. */
  lemma NameQueryExactIff(logs: map<Bytes, AuditLog>, index: set<Bytes>, nameOf: AuditLog -> Bytes, name: Bytes)
    requires Keyed(logs) && IndexAgrees(logs, index, nameOf)
    ensures QueryByName(logs, index, name) == Returned(Filter(Values(logs), Named(nameOf, name)))
       <==> NoFalseEntry(logs, nameOf, name)
  {
    NoFalseMeansNoMisread(logs, nameOf, name);
    NameQueryComplete(logs, index, nameOf, name);
    NameQuerySoundIff(logs, index, nameOf, name);
    assert forall x :: x in logs.Keys ==> MapLookup(logs)(x).Some?;
    hide IndexAgrees, Keyed, NoFalseEntry, NoMisreadEntry, ScanIsComplete, ScanIsSound, HasShortEntry, Collect,
      Filter, EntriesUnder, MapLookup, EntryLookup;
    ScanExactIff(logs.Keys, MapLookup(logs), EntriesUnder(index, name), EntryLookup(logs), Named(nameOf, name));
  }

  /** NUL-free names are enough. */
  lemma NulFreeNamesAreExact(logs: map<Bytes, AuditLog>, index: set<Bytes>, nameOf: AuditLog -> Bytes, name: Bytes)
    requires Keyed(logs) && IndexAgrees(logs, index, nameOf)
    requires NulFree(name) && forall x :: x in logs ==> NulFree(nameOf(logs[x]))
    ensures QueryByName(logs, index, name) == Returned(Filter(Values(logs), Named(nameOf, name)))
  {
    NameQueryExactIff(logs, index, nameOf, name);
    NoFalseMeansNoMisread(logs, nameOf, name);
    forall x, y | x in logs && nameOf(logs[x]) != name && IndexEntry(nameOf(logs[x]), x) == IndexEntry(name, y)
      ensures false
    {
      FirstNul(nameOf(logs[x]), x, name, y);
    }
  }

  lemma OwnKeyInName(q: Bytes, x: Bytes)
    requires |x| == 8
    ensures IndexEntry(IndexEntry(q, x), x) == IndexEntry(q, IndexEntry(x, x))
    ensures |IndexEntry(x, x)| == 17 && IndexEntry(x, x)[..8] == x && IndexEntry(q, x) != q
  {
    assert |IndexEntry(q, x)| == |q| + 9;
  }

  /** Event types are unrestricted, and the condition is needed: a log whose type is q, a NUL and
      the log's own key is returned by the query for q. */
  lemma NulTypeLeaks(a: State, l: AuditLog, q: Bytes)
    requires Indexed(a) && LogKey(l) in a.logs && a.logs[LogKey(l)] == l
    requires l.eventType == IndexEntry(q, LogKey(l))
    ensures QueryByName(a.logs, a.byType, q) != Returned(Filter(Values(a.logs), Named(TypeOf, q)))
  {
    var x := LogKey(l);
    OwnKeyInName(q, x);
    NameQueryExactIff(a.logs, a.byType, TypeOf, q);
    NoFalseMeansNoMisread(a.logs, TypeOf, q);
    hide IndexEntry, LogKey, QueryByName, Filter, IndexAgrees, TimeAgrees, NoFalseEntry;
    assert IndexEntry(TypeOf(a.logs[x]), x) == IndexEntry(q, IndexEntry(x, x));
  }

  /** The query panics exactly when the queried name and a NUL reach into the id of some entry, so
      that fewer than eight bytes are left. */
  lemma NameQueryPanicsIff(logs: map<Bytes, AuditLog>, index: set<Bytes>, nameOf: AuditLog -> Bytes, name: Bytes)
    requires Keyed(logs) && IndexAgrees(logs, index, nameOf)
    ensures QueryByName(logs, index, name) == Panicked <==> exists x :: x in logs && TooShort(nameOf(logs[x]), x, name)
  {
    KeysHaveEightBytes(logs);
    var entries := EntriesUnder(index, name);
    hide Keyed;
    if HasShortEntry(entries) {
      var y :| y in entries && |y| < 8;
      var x :| x in logs && IndexEntry(name, y) == IndexEntry(nameOf(logs[x]), x);
      RestOfEntry(nameOf(logs[x]), x, name, y);
      assert TooShort(nameOf(logs[x]), x, name);
    }
    if x :| x in logs && TooShort(nameOf(logs[x]), x, name) {
      var n := nameOf(logs[x]);
      var y := IndexEntry(n, x)[|name| + 1..];
      RestOfEntry(n, x, name, y);
      assert IndexEntry(n, x) in index && y in entries && |y| < 8;
    }
  }

  /** A query for a stored name and a NUL panics on every log whose id begins with a zero byte, that is,
      on ids below 2^56. */
  lemma NulQueryPanics(a: State, l: AuditLog)
    requires Indexed(a) && LogKey(l) in a.logs && a.logs[LogKey(l)] == l && LogKey(l)[0] == 0
    ensures QueryByName(a.logs, a.byType, l.eventType + [0x00]) == Panicked
    ensures QueryByName(a.logs, a.byActor, l.actor + [0x00]) == Panicked
  {
    var x := LogKey(l);
    NameQueryPanicsIff(a.logs, a.byType, TypeOf, l.eventType + [0x00]);
    NameQueryPanicsIff(a.logs, a.byActor, ActorOf, l.actor + [0x00]);
    ReachesIntoId(l.eventType, x);
    ReachesIntoId(l.actor, x);
    hide QueryByName, LogKey, Keyed, IndexAgrees, TimeAgrees, TooShort;
    assert TooShort(TypeOf(a.logs[x]), x, l.eventType + [0x00]) && TooShort(ActorOf(a.logs[x]), x, l.actor + [0x00]);
  }

  lemma ReachesIntoId(n: Bytes, x: Bytes)
    requires x != [] && x[0] == 0
    ensures TooShort(n, x, n + [0x00])
  {
    var p, k := n + [0x00] + [0x00], IndexEntry(n, x);
    assert k[..|p|] == p;
  }

  // ---------- queries by time ----------

  function TimeLookup(logs: map<Bytes, AuditLog>): Bytes -> Option<AuditLog> {
    z => if |z| >= 16 then MapLookup(logs)(z[8..16]) else None
  }

  /** The range iterator from the from-key to the key of to+1, whose sum wraps at 2^63. */
  function TimeWindow(index: set<Bytes>, from: int64, to: int64): set<Bytes> {
    Window(index, BE8(ToUint64(from)), BE8(ToUint64(WrapInt64(to + 1))))
  }

  function QueryByTime(logs: map<Bytes, AuditLog>, index: set<Bytes>, from: int64, to: int64): seq<AuditLog> {
    Collect(SortedKeys(TimeWindow(index, from, to)), TimeLookup(logs))
  }

  /** Ordered by time, then by id. */
  predicate Before(l: AuditLog, m: AuditLog) {
    ToUint64(l.timestamp) < ToUint64(m.timestamp) || (l.timestamp == m.timestamp && l.id < m.id)
  }

  lemma TimeEntryOrder(t: int64, i: uint64, u: int64, j: uint64)
    ensures Less(TimeEntry(t, BE8(i)), TimeEntry(u, BE8(j))) <==>
              ToUint64(t) < ToUint64(u) || (t == u && i < j)
  {
    LessConcat(BE8(ToUint64(t)), BE8(i), BE8(ToUint64(u)), BE8(j));
    BE8Order(ToUint64(t), ToUint64(u));
    BE8Order(i, j);
  }

  lemma TimeEntryInWindow(t: int64, x: Bytes, from: int64, to: int64)
    ensures !Less(TimeEntry(t, x), BE8(ToUint64(from))) && Less(TimeEntry(t, x), BE8(ToUint64(WrapInt64(to + 1))))
       <==> InWindow(t, from, to)
  {
    BoundOrder(t, x, ToUint64(from));
    BoundOrder(t, x, ToUint64(WrapInt64(to + 1)));
  }

  lemma BoundOrder(t: int64, x: Bytes, v: uint64)
    ensures Less(TimeEntry(t, x), BE8(v)) <==> ToUint64(t) < v
  {
    assert BE8(v) + [] == BE8(v);
    LessConcat(BE8(ToUint64(t)), x, BE8(v), []);
    BE8Order(ToUint64(t), v);
  }

  /** An entry of the time index leads to the log it was written for. */
  lemma TimeEntryLeads(logs: map<Bytes, AuditLog>, index: set<Bytes>, z: Bytes)
    requires Keyed(logs) && TimeAgrees(logs, index) && z in index
    ensures TimeLookup(logs)(z).Some?
    ensures var l := TimeLookup(logs)(z).value;
      LogKey(l) in logs && logs[LogKey(l)] == l && z == TimeEntry(l.timestamp, LogKey(l)) && z[8..] == LogKey(l)
  {
    var x :| x in logs && z == TimeEntry(logs[x].timestamp, x);
    assert LogKey(logs[x]) == x && |x| == 8 && |z| == 16;
    assert z[8..] == x && z[8..16] == x;
    assert TimeLookup(logs)(z) == MapLookup(logs)(x) == Some(logs[x]);
  }

  /** For all bounds: exactly the stored logs in the window, ordered by time and then by id. */
  lemma TimeQueryIs(logs: map<Bytes, AuditLog>, index: set<Bytes>, from: int64, to: int64, r: seq<AuditLog>)
    requires Keyed(logs) && TimeAgrees(logs, index) && r == QueryByTime(logs, index, from, to)
    ensures forall l :: l in r <==> LogKey(l) in logs && logs[LogKey(l)] == l && InWindow(l.timestamp, from, to)
    ensures forall i, j :: 0 <= i < j < |r| ==> Before(r[i], r[j])
  {
    var zs := SortedKeys(TimeWindow(index, from, to));
    TimeRows(logs, index, from, to, zs, r);
    forall i, j | 0 <= i < j < |r|
      ensures Before(r[i], r[j])
    {
      assert Less(zs[i], zs[j]);
      TimeEntryOrder(r[i].timestamp, r[i].id, r[j].timestamp, r[j].id);
    }
    forall l | LogKey(l) in logs && logs[LogKey(l)] == l && InWindow(l.timestamp, from, to)
      ensures l in r
    {
      var z := TimeEntry(l.timestamp, LogKey(l));
      TimeEntryInWindow(l.timestamp, LogKey(l), from, to);
      assert z in TimeWindow(index, from, to);
      assert z in zs;
      TimeEntryLeads(logs, index, z);
      assert z[8..] == LogKey(l);
      CollectContains(zs, TimeLookup(logs), z);
    }
  }

  lemma TimeRows(logs: map<Bytes, AuditLog>, index: set<Bytes>, from: int64, to: int64, zs: seq<Bytes>,
      r: seq<AuditLog>)
    requires Keyed(logs) && TimeAgrees(logs, index)
    requires zs == SortedKeys(TimeWindow(index, from, to)) && r == QueryByTime(logs, index, from, to)
    ensures |zs| == |r|
    ensures forall i :: 0 <= i < |r| ==> zs[i] == TimeEntry(r[i].timestamp, LogKey(r[i])) && zs[i][8..] == LogKey(r[i])
    ensures forall i :: 0 <= i < |r| ==>
      LogKey(r[i]) in logs && logs[LogKey(r[i])] == r[i] && InWindow(r[i].timestamp, from, to)
  {
    forall z | z in zs
      ensures TimeLookup(logs)(z).Some?
    {
      TimeEntryLeads(logs, index, z);
    }
    CollectAllFound(zs, TimeLookup(logs));
    forall i | 0 <= i < |zs|
      ensures zs[i] == TimeEntry(r[i].timestamp, LogKey(r[i])) && zs[i][8..] == LogKey(r[i])
      ensures LogKey(r[i]) in logs && logs[LogKey(r[i])] == r[i] && InWindow(r[i].timestamp, from, to)
    {
      assert zs[i] in zs;
      TimeEntryLeads(logs, index, zs[i]);
      TimeEntryInWindow(r[i].timestamp, LogKey(r[i]), from, to);
    }
  }
}
