/** The audit keeper and its message server over the byte store, proved to take the steps of the
    tables and to answer its queries as the tables do. */
module AuditKeeper {
  import opened ByteStrings
  import opened Scan
  import opened Audit
  import opened AuditRuns
  import opened AuditGenesis

  datatype Value =
    | LogV(log: AuditLog)
    | Marker
    | CounterV(bytes: Bytes)
    | ParamsV(params: Params)

  // ---------- keys ----------

  const COUNTER_KEY: Bytes := [0x04]
  const PARAMS_KEY: Bytes := [0x06]

  function IdKey(id: uint64): Bytes { [0x01] + BE8(id) }

  function ActorKey(actor: Bytes, id: uint64): Bytes { [0x02] + IndexEntry(actor, BE8(id)) }

  function ActorPrefix(actor: Bytes): Bytes { [0x02] + actor + [0x00] }

  function TypeKey(eventType: Bytes, id: uint64): Bytes { [0x03] + IndexEntry(eventType, BE8(id)) }

  function TypePrefix(eventType: Bytes): Bytes { [0x03] + eventType + [0x00] }

  function TimeKey(timestamp: int64, id: uint64): Bytes { [0x05] + TimeEntry(timestamp, BE8(id)) }

  function TimeBound(timestamp: int64): Bytes { [0x05] + BE8(ToUint64(timestamp)) }

  /** What the store holds under a key. */
  function At(a: State): Bytes -> Option<Value> {
    k =>
      if k == [] then None
      else if k[0] == 0x01 then (if k[1..] in a.logs then Some(LogV(a.logs[k[1..]])) else None)
      else if k[0] == 0x02 then (if k[1..] in a.byActor then Some(Marker) else None)
      else if k[0] == 0x03 then (if k[1..] in a.byType then Some(Marker) else None)
      else if k[0] == 0x05 then (if k[1..] in a.byTime then Some(Marker) else None)
      else if k == COUNTER_KEY then (if a.counter.Some? then Some(CounterV(BE8(a.counter.value))) else None)
      else if k == PARAMS_KEY then (if a.params.Some? then Some(ParamsV(a.params.value)) else None)
      else None
  }

  lemma StoreLog(store: map<Bytes, Value>, a: State, l: AuditLog, b: State)
    requires Encodes(store, At(a)) && b == a.(logs := a.logs[LogKey(l) := l])
    ensures Encodes(store[IdKey(l.id) := LogV(l)], At(b))
  {
    hide BE8;
    forall k
      ensures At(b)(k) == if k == IdKey(l.id) then Some(LogV(l)) else At(a)(k)
    {
      TaggedKey(0x01, BE8(l.id), k);
    }
    EncodesSet(store, At(a), IdKey(l.id), LogV(l), At(b));
  }

  lemma StoreActorEntry(store: map<Bytes, Value>, a: State, entry: Bytes, b: State)
    requires Encodes(store, At(a)) && b == a.(byActor := a.byActor + {entry})
    ensures Encodes(store[[0x02] + entry := Marker], At(b))
  {
    forall k
      ensures At(b)(k) == if k == [0x02] + entry then Some(Marker) else At(a)(k)
    {
      TaggedKey(0x02, entry, k);
    }
    EncodesSet(store, At(a), [0x02] + entry, Marker, At(b));
  }

  lemma StoreTypeEntry(store: map<Bytes, Value>, a: State, entry: Bytes, b: State)
    requires Encodes(store, At(a)) && b == a.(byType := a.byType + {entry})
    ensures Encodes(store[[0x03] + entry := Marker], At(b))
  {
    forall k
      ensures At(b)(k) == if k == [0x03] + entry then Some(Marker) else At(a)(k)
    {
      TaggedKey(0x03, entry, k);
    }
    EncodesSet(store, At(a), [0x03] + entry, Marker, At(b));
  }

  lemma StoreTimeEntry(store: map<Bytes, Value>, a: State, entry: Bytes, b: State)
    requires Encodes(store, At(a)) && b == a.(byTime := a.byTime + {entry})
    ensures Encodes(store[[0x05] + entry := Marker], At(b))
  {
    forall k
      ensures At(b)(k) == if k == [0x05] + entry then Some(Marker) else At(a)(k)
    {
      TaggedKey(0x05, entry, k);
    }
    EncodesSet(store, At(a), [0x05] + entry, Marker, At(b));
  }

  lemma CounterStored(store: map<Bytes, Value>, a: State)
    requires Encodes(store, At(a))
    ensures COUNTER_KEY in store <==> a.counter.Some?
    ensures COUNTER_KEY in store ==> store[COUNTER_KEY] == CounterV(BE8(a.counter.value))
  {
    assert At(a)(COUNTER_KEY).Some? <==> COUNTER_KEY in store;
  }

  lemma StoreCounter(store: map<Bytes, Value>, a: State, n: uint64, b: State)
    requires Encodes(store, At(a)) && b == a.(counter := Some(n))
    ensures Encodes(store[COUNTER_KEY := CounterV(BE8(n))], At(b))
  {
    EncodesSet(store, At(a), COUNTER_KEY, CounterV(BE8(n)), At(b));
  }

  lemma LogStored(store: map<Bytes, Value>, a: State, x: Bytes)
    requires Encodes(store, At(a))
    ensures [0x01] + x in store <==> x in a.logs
    ensures x in a.logs ==> store[[0x01] + x] == LogV(a.logs[x])
  {
    assert At(a)([0x01] + x).Some? <==> [0x01] + x in store;
  }

  lemma StoredSuffixes(store: map<Bytes, Value>, a: State, name: Bytes)
    requires Encodes(store, At(a))
    ensures Suffixes(store, [0x01]) == a.logs.Keys
    ensures Suffixes(store, [0x05]) == a.byTime
    ensures Suffixes(store, ActorPrefix(name)) == EntriesUnder(a.byActor, name)
    ensures Suffixes(store, TypePrefix(name)) == EntriesUnder(a.byType, name)
  {
    forall y
      ensures [0x01] + y in store <==> y in a.logs
      ensures [0x05] + y in store <==> y in a.byTime
      ensures ActorPrefix(name) + y in store <==> IndexEntry(name, y) in a.byActor
      ensures TypePrefix(name) + y in store <==> IndexEntry(name, y) in a.byType
    {
      assert [0x01] + y in store <==> At(a)([0x01] + y).Some?;
      assert [0x05] + y in store <==> At(a)([0x05] + y).Some?;
      assert ActorPrefix(name) + y == [0x02] + IndexEntry(name, y);
      assert TypePrefix(name) + y == [0x03] + IndexEntry(name, y);
      assert ActorPrefix(name) + y in store <==> At(a)(ActorPrefix(name) + y).Some?;
      assert TypePrefix(name) + y in store <==> At(a)(TypePrefix(name) + y).Some?;
    }
  }

  /** The range iterator of a time query walks the entries in the window. */
  lemma TimeIterator(store: map<Bytes, Value>, a: State, from: int64, to: int64)
    requires Encodes(store, At(a))
    ensures RangeKeys(store, TimeBound(from), TimeBound(WrapInt64(to + 1)))
         == Prepend([0x05], SortedKeys(TimeWindow(a.byTime, from, to)))
  {
    StoredSuffixes(store, a, []);
    RangeKeysAre(store, [0x05], BE8(ToUint64(from)), BE8(ToUint64(WrapInt64(to + 1))));
  }

  lemma FirstEightBytes(y: Bytes)
    requires |y| >= 8
    ensures BE8(FromBE8(y)) == y[..8]
  {
    assert y[..8][..8] == y[..8];
    FromBE8RoundTrip(y[..8]);
  }

  lemma EntryLookupIs(logs: map<Bytes, AuditLog>, y: Bytes)
    requires |y| >= 8
    ensures EntryLookup(logs)(y) == MapLookup(logs)(BE8(FromBE8(y)))
  {
    FirstEightBytes(y);
  }

  lemma TimeLookupIs(logs: map<Bytes, AuditLog>, key: Bytes, z: Bytes)
    requires key == [0x05] + z
    ensures |key| < 17 ==> TimeLookup(logs)(z) == None
    ensures |key| >= 17 ==> TimeLookup(logs)(z) == MapLookup(logs)(BE8(FromBE8(key[9..])))
  {
    if |key| >= 17 {
      FirstEightBytes(key[9..]);
      assert key[9..][..8] == z[8..16];
    }
  }

  /** What a time query has gathered after i entries. */
  ghost function GatheredByTime(a: State, from: int64, to: int64, i: nat): seq<AuditLog> {
    var zs := SortedKeys(TimeWindow(a.byTime, from, to));
    if i <= |zs| then Collect(zs[..i], TimeLookup(a.logs)) else []
  }

  lemma GatheredEnds(a: State, from: int64, to: int64)
    ensures GatheredByTime(a, from, to, 0) == []
    ensures GatheredByTime(a, from, to, |SortedKeys(TimeWindow(a.byTime, from, to))|) ==
      QueryByTime(a.logs, a.byTime, from, to)
  {
    var zs := SortedKeys(TimeWindow(a.byTime, from, to));
    assert zs[..|zs|] == zs;
  }

  /** One turn of the time query's loop. */
  lemma TimeTurn(store: map<Bytes, Value>, a: State, from: int64, to: int64, keys: seq<Bytes>, i: nat)
    requires Encodes(store, At(a)) && keys == RangeKeys(store, TimeBound(from), TimeBound(WrapInt64(to + 1))) &&
      i < |keys|
    ensures |keys| == |SortedKeys(TimeWindow(a.byTime, from, to))|
    ensures GatheredByTime(a, from, to, i + 1) == GatheredByTime(a, from, to, i) +
      if |keys[i]| >= 17 && MapLookup(a.logs)(BE8(FromBE8(keys[i][9..]))).Some?
      then [MapLookup(a.logs)(BE8(FromBE8(keys[i][9..]))).value] else []
  {
    hide Encodes, At, MapLookup, Collect, SortedKeys, RangeKeys, TimeWindow, TimeLookup, BE8, FromBE8, WrapInt64,
      TimeBound;
    TimeIterator(store, a, from, to);
    var zs := SortedKeys(TimeWindow(a.byTime, from, to));
    TimeLookupIs(a.logs, keys[i], zs[i]);
    CollectStep(zs, TimeLookup(a.logs), i);
  }

  /** The bytes of the keys: which are in the store, and which table they stand for. */
  lemma KeyLayout(store: map<Bytes, Value>, a: State, n: Bytes, x: Bytes)
    requires Encodes(store, At(a))
    ensures [0x01] + x in store <==> x in a.logs
    ensures [0x02] + (n + [0x00] + x) in store <==> n + [0x00] + x in a.byActor
    ensures [0x03] + (n + [0x00] + x) in store <==> n + [0x00] + x in a.byType
    ensures [0x05] + (n + x) in store <==> n + x in a.byTime
    ensures [0x04] in store <==> a.counter.Some?
    ensures [0x06] in store <==> a.params.Some?
  {
    assert [0x01] + x in store <==> At(a)([0x01] + x).Some?;
    assert [0x02] + (n + [0x00] + x) in store <==> At(a)([0x02] + (n + [0x00] + x)).Some?;
    assert [0x03] + (n + [0x00] + x) in store <==> At(a)([0x03] + (n + [0x00] + x)).Some?;
    assert [0x05] + (n + x) in store <==> At(a)([0x05] + (n + x)).Some?;
    assert [0x04] in store <==> At(a)([0x04]).Some?;
    assert [0x06] in store <==> At(a)([0x06]).Some?;
  }

  class Keeper {
    var store: map<Bytes, Value>
    ghost var tables: State

    ghost predicate Valid()
      reads this
    {
      Encodes(store, At(tables))
    }

    constructor ()
      ensures Valid() && tables == EMPTY
    {
      store := map[];
      tables := EMPTY;
    }

    method GetNextID() returns (id: uint64)
      requires Valid()
      ensures id == NextId(tables) && id == (Counter(tables) + 1) % TWO_64
    {
      CounterStored(store, tables);
      if COUNTER_KEY !in store {
        return 1;
      }
      BE8RoundTrip(tables.counter.value);
      var n := FromBE8(store[COUNTER_KEY].bytes);
      id := if n == TWO_64 - 1 then 0 else n + 1;
    }

    method IncrementCounter(id: uint64)
      requires Valid()
      modifies this
      ensures Valid() && tables == old(tables).(counter := Some(id))
    {
      ghost var a := tables;
      tables := tables.(counter := Some(id));
      StoreCounter(store, a, id, tables);
      store := store[COUNTER_KEY := CounterV(BE8(id))];
    }

    method SetParams(params: Params)
      requires Valid()
      modifies this
      ensures Valid() && tables == old(tables).(params := Some(params))
    {
      ghost var a := tables;
      tables := tables.(params := Some(params));
      EncodesSet(store, At(a), PARAMS_KEY, ParamsV(params), At(tables));
      store := store[PARAMS_KEY := ParamsV(params)];
    }

    method GetParams() returns (params: Params)
      requires Valid()
      ensures params == ParamsOf(tables)
    {
      assert At(tables)(PARAMS_KEY).Some? <==> PARAMS_KEY in store;
      if PARAMS_KEY !in store {
        return DEFAULT_PARAMS;
      }
      assert At(tables)(PARAMS_KEY) == Some(store[PARAMS_KEY]);
      params := store[PARAMS_KEY].params;
    }

    method RecordAuditLog(log: AuditLog)
      requires Valid()
      modifies this
      ensures Valid() && tables == PutLog(old(tables), log)
    {
      ghost var a := tables;
      ghost var b := a.(logs := a.logs[LogKey(log) := log]);
      ghost var c := b.(byActor := b.byActor + {IndexEntry(log.actor, LogKey(log))});
      ghost var d := c.(byType := c.byType + {IndexEntry(log.eventType, LogKey(log))});
      tables := PutLog(a, log);
      StoreLog(store, a, log, b);
      store := store[IdKey(log.id) := LogV(log)];
      StoreActorEntry(store, b, IndexEntry(log.actor, LogKey(log)), c);
      store := store[ActorKey(log.actor, log.id) := Marker];
      StoreTypeEntry(store, c, IndexEntry(log.eventType, LogKey(log)), d);
      store := store[TypeKey(log.eventType, log.id) := Marker];
      StoreTimeEntry(store, d, TimeEntry(log.timestamp, LogKey(log)), tables);
      store := store[TimeKey(log.timestamp, log.id) := Marker];
    }

    method GetAuditLog(id: uint64) returns (r: Option<AuditLog>)
      requires Valid()
      ensures r == MapLookup(tables.logs)(BE8(id))
    {
      LogStored(store, tables, BE8(id));
      if IdKey(id) !in store {
        return None;
      }
      r := Some(store[IdKey(id)].log);
    }

    /** The loop shared by the actor and the type query: the id is read from each stripped key. */
    method GatherByIds(keys: seq<Bytes>) returns (r: Outcome)
      requires Valid()
      ensures r == if exists y :: y in keys && |y| < 8 then Panicked
                   else Returned(Collect(keys, EntryLookup(tables.logs)))
    {
      var logs := [];
      for i := 0 to |keys|
        invariant forall j :: 0 <= j < i ==> |keys[j]| >= 8
        invariant logs == Collect(keys[..i], EntryLookup(tables.logs))
      {
        if |keys[i]| < 8 {
          assert keys[i] in keys;
          return Panicked;
        }
        EntryLookupIs(tables.logs, keys[i]);
        CollectStep(keys, EntryLookup(tables.logs), i);
        var log := GetAuditLog(FromBE8(keys[i]));
        if log.Some? {
          logs := logs + [log.value];
        }
      }
      assert keys[..|keys|] == keys;
      r := Returned(logs);
    }

    method GetAuditLogsByActor(actor: Bytes) returns (r: Outcome)
      requires Valid()
      ensures r == QueryByName(tables.logs, tables.byActor, actor)
    {
      StoredSuffixes(store, tables, actor);
      r := GatherByIds(SortedKeys(Suffixes(store, ActorPrefix(actor))));
    }

    method GetAuditLogsByType(eventType: Bytes) returns (r: Outcome)
      requires Valid()
      ensures r == QueryByName(tables.logs, tables.byType, eventType)
    {
      StoredSuffixes(store, tables, eventType);
      r := GatherByIds(SortedKeys(Suffixes(store, TypePrefix(eventType))));
    }

    method GetAuditLogsByTimeRange(from: int64, to: int64) returns (logs: seq<AuditLog>)
      requires Valid()
      ensures logs == QueryByTime(tables.logs, tables.byTime, from, to)
    {
      var keys := RangeKeys(store, TimeBound(from), TimeBound(WrapInt64(to + 1)));
      TimeIterator(store, tables, from, to);
      GatheredEnds(tables, from, to);
      logs := [];
      for i := 0 to |keys|
        invariant logs == GatheredByTime(tables, from, to, i)
      {
        TimeTurn(store, tables, from, to, keys, i);
        if |keys[i]| < 17 {
          continue;
        }
        var log := GetAuditLog(FromBE8(keys[i][9..]));
        if log.Some? {
          logs := logs + [log.value];
        }
      }
    }

    method GetAllLogs() returns (logs: seq<AuditLog>)
      requires Valid()
      ensures logs == Values(tables.logs)
    {
      StoredSuffixes(store, tables, []);
      var keys := SortedKeys(Suffixes(store, [0x01]));
      logs := [];
      for i := 0 to |keys|
        invariant logs == Collect(keys[..i], MapLookup(tables.logs))
      {
        assert keys[i] in keys;
        LogStored(store, tables, keys[i]);
        CollectStep(keys, MapLookup(tables.logs), i);
        logs := logs + [store[[0x01] + keys[i]].log];
      }
      assert keys[..|keys|] == keys;
    }

    // ---------- message server ----------

    method IsAllowedAuditor(address: Bytes) returns (ok: bool)
      requires Valid()
      ensures ok <==> IsAllowed(tables, address)
    {
      var params := GetParams();
      if |params.allowedAuditors| == 0 {
        return true;
      }
      for i := 0 to |params.allowedAuditors|
        invariant address !in params.allowedAuditors[..i]
      {
        if params.allowedAuditors[i] == address {
          return true;
        }
      }
      assert params.allowedAuditors[..|params.allowedAuditors|] == params.allowedAuditors;
      ok := false;
    }

    method HandleRecordAudit(msg: Msg, ctx: Context) returns (r: Response)
      requires Valid()
      modifies this
      ensures Valid() && (tables, r) == Handle(old(tables), msg, ctx)
    {
      var allowed := IsAllowedAuditor(msg.creator);
      if !allowed {
        return NotAllowed;
      }
      var params := GetParams();
      if params.maxDataSize > 0 && |msg.data| > params.maxDataSize {
        return DataTooLarge;
      }
      var id := GetNextID();
      RecordAuditLog(AuditLog(id, msg.eventType, msg.creator, msg.target, msg.action, msg.data, ctx.blockHeight,
        ctx.blockTime, ctx.txHash));
      IncrementCounter(id);
      r := Recorded;
    }

    // ---------- genesis ----------

    method InitGenesis(gs: GenesisState)
      requires Valid()
      modifies this
      ensures Valid() && tables == Import(old(tables), gs)
    {
      hide At, Encodes, PutLog;
      SetParams(gs.params);
      ghost var a := tables;
      for i := 0 to |gs.logs|
        invariant Valid() && tables == PutAllLogs(a, gs.logs[..i])
      {
        assert gs.logs[..i + 1][..i] == gs.logs[..i];
        RecordAuditLog(gs.logs[i]);
      }
      assert gs.logs[..|gs.logs|] == gs.logs;
      if gs.counter > 0 {
        IncrementCounter(gs.counter);
      }
    }

    method ExportGenesis() returns (gs: GenesisState)
      requires Valid()
      ensures gs == Export(tables)
    {
      var logs := GetAllLogs();
      CounterStored(store, tables);
      var counter: uint64 := 0;
      if COUNTER_KEY in store {
        BE8RoundTrip(tables.counter.value);
        counter := FromBE8(store[COUNTER_KEY].bytes);
      }
      var params := GetParams();
      gs := GenesisState(logs, counter, params);
    }
  }
}
