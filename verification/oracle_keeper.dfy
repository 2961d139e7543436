/** The oracle keeper and its message server over the byte store. */
module OracleKeeper {
  import opened ByteStrings
  import opened Scan
  import opened Oracle
  import opened OracleGenesis

  datatype Value = DataV(data: OracleData) | OracleV(oracle: OracleInfo) | ParamsV(params: Params)

  const PARAMS_KEY: Bytes := [111, 114, 97, 99, 108, 101, 95, 112, 97, 114, 97, 109, 115]  // oracle_params

  function DataKey(category: Bytes, timestamp: int64): Bytes { [0x01] + IndexEntry(category, TimeKey(timestamp)) }

  function OracleKey(address: Bytes): Bytes { [0x02] + address }

  function LatestKey(category: Bytes): Bytes { [0x03] + category }

  function At(a: State): Bytes -> Option<Value> {
    k =>
      if k == [] then None
      else if k[0] == 0x01 then (if k[1..] in a.history then Some(DataV(a.history[k[1..]])) else None)
      else if k[0] == 0x02 then (if k[1..] in a.oracles then Some(OracleV(a.oracles[k[1..]])) else None)
      else if k[0] == 0x03 then (if k[1..] in a.latest then Some(DataV(a.latest[k[1..]])) else None)
      else if k == PARAMS_KEY then (if a.params.Some? then Some(ParamsV(a.params.value)) else None)
      else None
  }

  lemma StoreHistory(store: map<Bytes, Value>, a: State, d: OracleData, b: State)
    requires Encodes(store, At(a)) && b == a.(history := a.history[HistKey(d) := d])
    ensures Encodes(store[DataKey(d.category, d.timestamp) := DataV(d)], At(b))
  {
    hide TimeKey, IndexEntry;
    forall k
      ensures At(b)(k) == if k == DataKey(d.category, d.timestamp) then Some(DataV(d)) else At(a)(k)
    {
      TaggedKey(0x01, HistKey(d), k);
    }
    EncodesSet(store, At(a), DataKey(d.category, d.timestamp), DataV(d), At(b));
  }

  lemma StoreLatest(store: map<Bytes, Value>, a: State, d: OracleData, b: State)
    requires Encodes(store, At(a)) && b == a.(latest := a.latest[d.category := d])
    ensures Encodes(store[LatestKey(d.category) := DataV(d)], At(b))
  {
    forall k
      ensures At(b)(k) == if k == LatestKey(d.category) then Some(DataV(d)) else At(a)(k)
    {
      TaggedKey(0x03, d.category, k);
    }
    EncodesSet(store, At(a), LatestKey(d.category), DataV(d), At(b));
  }

  lemma StoreOracle(store: map<Bytes, Value>, a: State, o: OracleInfo, b: State)
    requires Encodes(store, At(a)) && b == PutOracle(a, o)
    ensures Encodes(store[OracleKey(o.address) := OracleV(o)], At(b))
  {
    forall k
      ensures At(b)(k) == if k == OracleKey(o.address) then Some(OracleV(o)) else At(a)(k)
    {
      TaggedKey(0x02, o.address, k);
    }
    EncodesSet(store, At(a), OracleKey(o.address), OracleV(o), At(b));
  }

  lemma DropOracle(store: map<Bytes, Value>, a: State, address: Bytes, b: State)
    requires Encodes(store, At(a)) && b == a.(oracles := a.oracles - {address})
    ensures Encodes(store - {OracleKey(address)}, At(b))
  {
    forall k
      ensures At(b)(k) == if k == OracleKey(address) then None else At(a)(k)
    {
      TaggedKey(0x02, address, k);
    }
    EncodesDelete(store, At(a), OracleKey(address), At(b));
  }

  lemma Stored(store: map<Bytes, Value>, a: State, x: Bytes)
    requires Encodes(store, At(a))
    ensures [0x01] + x in store <==> x in a.history
    ensures [0x02] + x in store <==> x in a.oracles
    ensures [0x03] + x in store <==> x in a.latest
    ensures x in a.history ==> store[[0x01] + x] == DataV(a.history[x])
    ensures x in a.oracles ==> store[[0x02] + x] == OracleV(a.oracles[x])
    ensures x in a.latest ==> store[[0x03] + x] == DataV(a.latest[x])
  {
    assert At(a)([0x01] + x).Some? <==> [0x01] + x in store;
    assert At(a)([0x02] + x).Some? <==> [0x02] + x in store;
    assert At(a)([0x03] + x).Some? <==> [0x03] + x in store;
  }

  lemma StoredSuffixes(store: map<Bytes, Value>, a: State)
    requires Encodes(store, At(a))
    ensures Suffixes(store, [0x01]) == a.history.Keys
    ensures Suffixes(store, [0x02]) == a.oracles.Keys
  {
    hide Encodes, At;
    forall x
      ensures [0x01] + x in store <==> x in a.history
      ensures [0x02] + x in store <==> x in a.oracles
    {
      Stored(store, a, x);
    }
  }

  lemma HistoryIterator(store: map<Bytes, Value>, a: State, category: Bytes, from: int64, to: int64)
    requires Encodes(store, At(a))
    ensures RangeKeys(store, DataKey(category, from), DataKey(category, WrapInt64(to + 1)))
         == Prepend([0x01], SortedKeys(HistWindow(a.history, category, from, to)))
  {
    StoredSuffixes(store, a);
    RangeKeysAre(store, [0x01], IndexEntry(category, TimeKey(from)), IndexEntry(category, TimeKey(WrapInt64(to + 1))));
  }

  lemma TableIterators(store: map<Bytes, Value>, a: State)
    requires Encodes(store, At(a))
    ensures PrefixKeys(store, [0x01]) == Prepend([0x01], SortedKeys(a.history.Keys))
    ensures PrefixKeys(store, [0x02]) == Prepend([0x02], SortedKeys(a.oracles.Keys))
  {
    StoredSuffixes(store, a);
    PrefixKeysAre(store, [0x01]);
    PrefixKeysAre(store, [0x02]);
  }

  /** What the query has gathered after i keys of the set s of history keys. */
  ghost function GatheredUpTo(a: State, s: set<Bytes>, i: nat): seq<OracleData> {
    if i <= |SortedKeys(s)| then Collect(SortedKeys(s)[..i], MapLookup(a.history)) else []
  }

  lemma GatheredEnds(a: State, s: set<Bytes>)
    ensures GatheredUpTo(a, s, 0) == []
    ensures GatheredUpTo(a, s, |SortedKeys(s)|) == Collect(SortedKeys(s), MapLookup(a.history))
  {
    assert SortedKeys(s)[..|SortedKeys(s)|] == SortedKeys(s);
  }

  lemma DataTurn(store: map<Bytes, Value>, a: State, s: set<Bytes>, keys: seq<Bytes>, i: nat)
    requires Encodes(store, At(a)) && s <= a.history.Keys && keys == Prepend([0x01], SortedKeys(s)) && i < |keys|
    ensures keys[i] in store && store[keys[i]].DataV?
    ensures GatheredUpTo(a, s, i + 1) == GatheredUpTo(a, s, i) + [store[keys[i]].data]
  {
    hide Encodes, At, Collect, SortedKeys;
    var xs := SortedKeys(s);
    assert xs[i] in xs;
    Stored(store, a, xs[i]);
    CollectStep(xs, MapLookup(a.history), i);
  }

  lemma OracleTurn(store: map<Bytes, Value>, a: State, keys: seq<Bytes>, i: nat)
    requires Encodes(store, At(a)) && keys == Prepend([0x02], SortedKeys(a.oracles.Keys)) && i < |keys|
    ensures keys[i] in store && store[keys[i]].OracleV?
    ensures ValuesUpTo(a.oracles, i + 1) == ValuesUpTo(a.oracles, i) + [store[keys[i]].oracle]
  {
    hide Encodes, At, Collect, SortedKeys;
    var xs := SortedKeys(a.oracles.Keys);
    assert xs[i] in xs;
    Stored(store, a, xs[i]);
    CollectStep(xs, MapLookup(a.oracles), i);
  }

  /** The read-only scan of an oracle's categories. */
  method CheckAuthorizedFor(o: OracleInfo, category: Bytes) returns (ok: bool)
    ensures ok <==> IsAuthorizedFor(o, category)
  {
    if !o.active {
      return false;
    }
    if |o.authorizedCategories| == 0 {
      return true;
    }
    for i := 0 to |o.authorizedCategories|
      invariant category !in o.authorizedCategories[..i]
    {
      if o.authorizedCategories[i] == category {
        return true;
      }
    }
    assert o.authorizedCategories[..|o.authorizedCategories|] == o.authorizedCategories;
    ok := false;
  }

  /** The bytes of the keys: which are in the store, and which table they stand for. */
  lemma KeyLayout(store: map<Bytes, Value>, a: State, n: Bytes, x: Bytes)
    requires Encodes(store, At(a))
    ensures [0x01] + (n + [0x00] + x) in store <==> n + [0x00] + x in a.history
    ensures [0x02] + x in store <==> x in a.oracles
    ensures [0x03] + x in store <==> x in a.latest
    ensures [111, 114, 97, 99, 108, 101, 95, 112, 97, 114, 97, 109, 115] in store <==> a.params.Some?
  {
    assert [0x01] + (n + [0x00] + x) in store <==> At(a)([0x01] + (n + [0x00] + x)).Some?;
    assert [0x02] + x in store <==> At(a)([0x02] + x).Some?;
    assert [0x03] + x in store <==> At(a)([0x03] + x).Some?;
    var p: Bytes := [111, 114, 97, 99, 108, 101, 95, 112, 97, 114, 97, 109, 115];
    assert p in store <==> At(a)(p).Some?;
  }

  class Keeper {
    const authority: Bytes
    var store: map<Bytes, Value>
    ghost var tables: State

    ghost predicate Valid()
      reads this
    {
      Encodes(store, At(tables))
    }

    constructor (authority: Bytes)
      ensures Valid() && tables == EMPTY && this.authority == authority
    {
      this.authority := authority;
      store := map[];
      tables := EMPTY;
    }

    method SetOracleData(data: OracleData)
      requires Valid()
      modifies this
      ensures Valid() && tables == PutData(old(tables), data)
    {
      ghost var a := tables;
      ghost var b := a.(history := a.history[HistKey(data) := data]);
      tables := PutData(a, data);
      StoreHistory(store, a, data, b);
      store := store[DataKey(data.category, data.timestamp) := DataV(data)];
      StoreLatest(store, b, data, tables);
      store := store[LatestKey(data.category) := DataV(data)];
    }

    method GetLatestData(category: Bytes) returns (r: Option<OracleData>)
      requires Valid()
      ensures r == MapLookup(tables.latest)(category)
    {
      Stored(store, tables, category);
      if LatestKey(category) !in store {
        return None;
      }
      r := Some(store[LatestKey(category)].data);
    }

    method GetDataHistory(category: Bytes, fromTime: int64, toTime: int64) returns (results: seq<OracleData>)
      requires Valid()
      ensures results == QueryHistory(tables.history, category, fromTime, toTime)
    {
      var keys := RangeKeys(store, DataKey(category, fromTime), DataKey(category, WrapInt64(toTime + 1)));
      ghost var s := HistWindow(tables.history, category, fromTime, toTime);
      HistoryIterator(store, tables, category, fromTime, toTime);
      WindowIsSubset(tables.history, category, fromTime, toTime);
      GatheredEnds(tables, s);
      results := [];
      for i := 0 to |keys|
        invariant results == GatheredUpTo(tables, s, i)
      {
        DataTurn(store, tables, s, keys, i);
        results := results + [store[keys[i]].data];
      }
    }

    method StoreOracleInfo(oracle: OracleInfo)
      requires Valid()
      modifies this
      ensures Valid() && tables == PutOracle(old(tables), oracle)
    {
      ghost var a := tables;
      tables := PutOracle(a, oracle);
      StoreOracle(store, a, oracle, tables);
      store := store[OracleKey(oracle.address) := OracleV(oracle)];
    }

    method DeleteOracle(address: Bytes)
      requires Valid()
      modifies this
      ensures Valid() && tables == old(tables).(oracles := old(tables).oracles - {address})
    {
      ghost var a := tables;
      tables := a.(oracles := a.oracles - {address});
      DropOracle(store, a, address, tables);
      store := store - {OracleKey(address)};
    }

    method GetOracle(address: Bytes) returns (r: Option<OracleInfo>)
      requires Valid()
      ensures r == MapLookup(tables.oracles)(address)
    {
      Stored(store, tables, address);
      if OracleKey(address) !in store {
        return None;
      }
      r := Some(store[OracleKey(address)].oracle);
    }

    method GetAllOracles() returns (results: seq<OracleInfo>)
      requires Valid()
      ensures results == Values(tables.oracles)
    {
      var keys := PrefixKeys(store, [0x02]);
      TableIterators(store, tables);
      ValuesEnds(tables.oracles);
      results := [];
      for i := 0 to |keys|
        invariant results == ValuesUpTo(tables.oracles, i)
      {
        OracleTurn(store, tables, keys, i);
        results := results + [store[keys[i]].oracle];
      }
    }

    method SetParams(params: Params)
      requires Valid()
      modifies this
      ensures Valid() && tables == old(tables).(params := Some(params))
    {
      ghost var a := tables;
      tables := tables.(params := Some(params));
      EncodesSet(store, At(a), PARAMS_KEY, ParamsV(params), At(tables));
      store := store[PARAMS_KEY := ParamsV(params)];
    }

    method GetParams() returns (params: Params)
      requires Valid()
      ensures params == ParamsOf(tables)
    {
      assert At(tables)(PARAMS_KEY).Some? <==> PARAMS_KEY in store;
      if PARAMS_KEY !in store {
        return DEFAULT_PARAMS;
      }
      assert At(tables)(PARAMS_KEY) == Some(store[PARAMS_KEY]);
      params := store[PARAMS_KEY].params;
    }

    // ---------- message server ----------

    method HandleSubmitData(msg: Msg, ctx: Context) returns (r: Response)
      requires Valid() && msg.SubmitData?
      modifies this
      ensures Valid() && (tables, r) == Handle(authority, old(tables), msg, ctx)
    {
      var oracle := GetOracle(msg.submitter);
      if oracle.None? {
        return Unauthorized;
      }
      var ok := CheckAuthorizedFor(oracle.value, msg.category);
      if !ok {
        return Unauthorized;
      }
      var params := GetParams();
      var maxDrift: int64 := if params.dataMaxAge <= 0 then 3600 else params.dataMaxAge;
      if msg.timestamp > WrapInt64(ctx.blockTime + maxDrift) {
        return TooFarInFuture;
      }
      if msg.timestamp < WrapInt64(ctx.blockTime - maxDrift) {
        return TooFarInPast;
      }
      SetOracleData(OracleData(msg.category, msg.value, msg.metadata, msg.timestamp, msg.submitter, ctx.blockHeight));
      r := Done;
    }

    method HandleAddOracle(msg: Msg, ctx: Context) returns (r: Response)
      requires Valid() && msg.AddOracle?
      modifies this
      ensures Valid() && (tables, r) == Handle(authority, old(tables), msg, ctx)
    {
      if msg.authority != authority {
        return Unauthorized;
      }
      StoreOracleInfo(OracleInfo(msg.oracleAddress, msg.name, true, msg.categories));
      r := Done;
    }

    method HandleRemoveOracle(msg: Msg, ctx: Context) returns (r: Response)
      requires Valid() && msg.RemoveOracle?
      modifies this
      ensures Valid() && (tables, r) == Handle(authority, old(tables), msg, ctx)
    {
      if msg.authority != authority {
        return Unauthorized;
      }
      var oracle := GetOracle(msg.oracleAddress);
      if oracle.None? {
        return OracleNotFound;
      }
      DeleteOracle(msg.oracleAddress);
      r := Done;
    }

    // ---------- genesis ----------

    method InitGenesis(gs: GenesisState)
      requires Valid()
      modifies this
      ensures Valid() && tables == Import(old(tables), gs)
    {
      hide At, Encodes, PutData, PutOracle;
      SetParams(gs.params);
      ghost var a := tables;
      for i := 0 to |gs.oracles|
        invariant Valid() && tables == PutAllOracles(a, gs.oracles[..i])
      {
        assert gs.oracles[..i + 1][..i] == gs.oracles[..i];
        StoreOracleInfo(gs.oracles[i]);
      }
      assert gs.oracles[..|gs.oracles|] == gs.oracles;
      ghost var b := tables;
      for i := 0 to |gs.data|
        invariant Valid() && tables == PutAllData(b, gs.data[..i])
      {
        assert gs.data[..i + 1][..i] == gs.data[..i];
        SetOracleData(gs.data[i]);
      }
      assert gs.data[..|gs.data|] == gs.data;
    }

    method ExportGenesis() returns (gs: GenesisState)
      requires Valid()
      ensures gs == Export(tables)
    {
      var keys := PrefixKeys(store, [0x01]);
      ghost var s := tables.history.Keys;
      TableIterators(store, tables);
      GatheredEnds(tables, s);
      var data: seq<OracleData> := [];
      for i := 0 to |keys|
        invariant data == GatheredUpTo(tables, s, i)
      {
        DataTurn(store, tables, s, keys, i);
        data := data + [store[keys[i]].data];
      }
      var params := GetParams();
      var oracles := GetAllOracles();
      gs := GenesisState(oracles, data, params);
    }
  }
}
