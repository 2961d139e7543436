/** The energy keeper and its message server over the byte store. The ghost field `tables` is what
    the store holds; every method is proved to take the step that the tables take. */
module EnergyKeeper {
  import opened ByteStrings
  import opened Scan
  import opened Merkle
  import opened Energy
  import opened EnergyGenesis

  datatype Value =
    | DataV(data: EnergyData)
    | IdV(id: Bytes)
    | BatchV(batch: BatchSubmission)
    | CounterV(bytes: Bytes)
    | ParamsV(params: Params)

  // ---------- keys ----------

  const COUNTER_KEY: Bytes := [0x05]
  const PARAMS_KEY: Bytes := [101, 110, 101, 114, 103, 121, 95, 112, 97, 114, 97, 109, 115]  // energy_params

  function DataKey(id: Bytes): Bytes { [0x01] + id }

  function CategoryKey(category: Bytes, id: Bytes): Bytes { [0x02] + IndexEntry(category, id) }

  function CategoryPrefix(category: Bytes): Bytes { [0x02] + category + [0x00] }

  function SubmitterKey(submitter: Bytes, id: Bytes): Bytes { [0x03] + IndexEntry(submitter, id) }

  function SubmitterPrefix(submitter: Bytes): Bytes { [0x03] + submitter + [0x00] }

  function BatchKeyOf(id: Bytes): Bytes { [0x04] + id }

  /** What the store holds under a key: each table lives under its own first byte. */
  function At(a: State): Bytes -> Option<Value> {
    k =>
      if k == [] then None
      else if k[0] == 0x01 then (if k[1..] in a.records then Some(DataV(a.records[k[1..]])) else None)
      else if k[0] == 0x02 then (if k[1..] in a.byCategory then Some(IdV(a.byCategory[k[1..]])) else None)
      else if k[0] == 0x03 then (if k[1..] in a.bySubmitter then Some(IdV(a.bySubmitter[k[1..]])) else None)
      else if k[0] == 0x04 then (if k[1..] in a.batches then Some(BatchV(a.batches[k[1..]])) else None)
      else if k == COUNTER_KEY then (if a.counter.Some? then Some(CounterV(BE8(a.counter.value))) else None)
      else if k == PARAMS_KEY then (if a.params.Some? then Some(ParamsV(a.params.value)) else None)
      else None
  }

  lemma StoreData(store: map<Bytes, Value>, a: State, id: Bytes, d: EnergyData, b: State)
    requires Encodes(store, At(a)) && b == a.(records := a.records[id := d])
    ensures Encodes(store[DataKey(id) := DataV(d)], At(b))
  {
    forall k
      ensures At(b)(k) == if k == DataKey(id) then Some(DataV(d)) else At(a)(k)
    {
      TaggedKey(0x01, id, k);
    }
    EncodesSet(store, At(a), DataKey(id), DataV(d), At(b));
  }

  lemma StoreCategoryEntry(store: map<Bytes, Value>, a: State, category: Bytes, id: Bytes, b: State)
    requires Encodes(store, At(a)) && b == a.(byCategory := a.byCategory[IndexEntry(category, id) := id])
    ensures Encodes(store[CategoryKey(category, id) := IdV(id)], At(b))
  {
    forall k
      ensures At(b)(k) == if k == CategoryKey(category, id) then Some(IdV(id)) else At(a)(k)
    {
      TaggedKey(0x02, IndexEntry(category, id), k);
    }
    EncodesSet(store, At(a), CategoryKey(category, id), IdV(id), At(b));
  }

  lemma StoreSubmitterEntry(store: map<Bytes, Value>, a: State, submitter: Bytes, id: Bytes, b: State)
    requires Encodes(store, At(a)) && b == a.(bySubmitter := a.bySubmitter[IndexEntry(submitter, id) := id])
    ensures Encodes(store[SubmitterKey(submitter, id) := IdV(id)], At(b))
  {
    forall k
      ensures At(b)(k) == if k == SubmitterKey(submitter, id) then Some(IdV(id)) else At(a)(k)
    {
      TaggedKey(0x03, IndexEntry(submitter, id), k);
    }
    EncodesSet(store, At(a), SubmitterKey(submitter, id), IdV(id), At(b));
  }

  lemma StoreBatch(store: map<Bytes, Value>, a: State, batch: BatchSubmission, b: State)
    requires Encodes(store, At(a)) && b == a.(batches := a.batches[batch.id := batch])
    ensures Encodes(store[BatchKeyOf(batch.id) := BatchV(batch)], At(b))
  {
    forall k
      ensures At(b)(k) == if k == BatchKeyOf(batch.id) then Some(BatchV(batch)) else At(a)(k)
    {
      TaggedKey(0x04, batch.id, k);
    }
    EncodesSet(store, At(a), BatchKeyOf(batch.id), BatchV(batch), At(b));
  }

  lemma CounterStored(store: map<Bytes, Value>, a: State)
    requires Encodes(store, At(a))
    ensures COUNTER_KEY in store <==> a.counter.Some?
    ensures COUNTER_KEY in store ==> store[COUNTER_KEY] == CounterV(BE8(a.counter.value))
  {
    assert At(a)(COUNTER_KEY).Some? <==> COUNTER_KEY in store;
  }

  lemma StoreCounter(store: map<Bytes, Value>, a: State, n: uint64, b: State)
    requires Encodes(store, At(a)) && b == a.(counter := Some(n))
    ensures Encodes(store[COUNTER_KEY := CounterV(BE8(n))], At(b))
  {
    EncodesSet(store, At(a), COUNTER_KEY, CounterV(BE8(n)), At(b));
  }

  /** The category prefix selects the entries under that category, in the order of their rest. */
  lemma CategoryIterator(store: map<Bytes, Value>, a: State, category: Bytes)
    requires Encodes(store, At(a))
    ensures PrefixKeys(store, CategoryPrefix(category))
         == Prepend(CategoryPrefix(category), SortedKeys(EntriesUnder(a.byCategory.Keys, category)))
  {
    var p := CategoryPrefix(category);
    forall y
      ensures p + y in store <==> IndexEntry(category, y) in a.byCategory
    {
      assert p + y == [0x02] + IndexEntry(category, y);
      assert p + y in store <==> At(a)(p + y).Some?;
    }
    assert Suffixes(store, p) == EntriesUnder(a.byCategory.Keys, category);
    PrefixKeysAre(store, p);
  }

  lemma SubmitterIterator(store: map<Bytes, Value>, a: State, submitter: Bytes)
    requires Encodes(store, At(a))
    ensures PrefixKeys(store, SubmitterPrefix(submitter))
         == Prepend(SubmitterPrefix(submitter), SortedKeys(EntriesUnder(a.bySubmitter.Keys, submitter)))
  {
    var p := SubmitterPrefix(submitter);
    forall y
      ensures p + y in store <==> IndexEntry(submitter, y) in a.bySubmitter
    {
      assert p + y == [0x03] + IndexEntry(submitter, y);
      assert p + y in store <==> At(a)(p + y).Some?;
    }
    assert Suffixes(store, p) == EntriesUnder(a.bySubmitter.Keys, submitter);
    PrefixKeysAre(store, p);
  }

  lemma TableIterator(store: map<Bytes, Value>, a: State)
    requires Encodes(store, At(a))
    ensures PrefixKeys(store, [0x01]) == Prepend([0x01], SortedKeys(a.records.Keys))
    ensures PrefixKeys(store, [0x04]) == Prepend([0x04], SortedKeys(a.batches.Keys))
  {
    forall y
      ensures [0x01] + y in store <==> y in a.records
      ensures [0x04] + y in store <==> y in a.batches
    {
      assert [0x01] + y in store <==> At(a)([0x01] + y).Some?;
      assert [0x04] + y in store <==> At(a)([0x04] + y).Some?;
    }
    assert Suffixes(store, [0x01]) == a.records.Keys;
    assert Suffixes(store, [0x04]) == a.batches.Keys;
    PrefixKeysAre(store, [0x01]);
    PrefixKeysAre(store, [0x04]);
  }

  /** What an index query has gathered after i entries. */
  ghost function ScannedUpTo(records: map<Bytes, EnergyData>, index: map<Bytes, Bytes>, name: Bytes,
      i: nat): seq<EnergyData> {
    var ys := SortedKeys(EntriesUnder(index.Keys, name));
    if i <= |ys| then Collect(ys[..i], IndexLookup(records, index, name)) else []
  }

  lemma ScanEnds(records: map<Bytes, EnergyData>, index: map<Bytes, Bytes>, name: Bytes)
    ensures ScannedUpTo(records, index, name, 0) == []
    ensures ScannedUpTo(records, index, name, |SortedKeys(EntriesUnder(index.Keys, name))|) ==
      IndexScan(records, index, name)
  {
    var ys := SortedKeys(EntriesUnder(index.Keys, name));
    assert ys[..|ys|] == ys;
  }

  lemma CategoryEntryAt(store: map<Bytes, Value>, a: State, name: Bytes, y: Bytes)
    requires Encodes(store, At(a)) && IndexEntry(name, y) in a.byCategory
    ensures CategoryPrefix(name) + y in store && store[CategoryPrefix(name) + y].IdV?
    ensures IndexLookup(a.records, a.byCategory, name)(y) == MapLookup(a.records)(store[CategoryPrefix(name) + y].id)
  {
    var k := CategoryPrefix(name) + y;
    assert k == [0x02] + IndexEntry(name, y);
    assert At(a)(k) == Some(IdV(a.byCategory[IndexEntry(name, y)]));
  }

  /** One turn of the category query's loop. */
  lemma CategoryTurn(store: map<Bytes, Value>, a: State, name: Bytes, keys: seq<Bytes>, i: nat)
    requires Encodes(store, At(a)) && keys == PrefixKeys(store, CategoryPrefix(name)) && i < |keys|
    ensures |keys| == |SortedKeys(EntriesUnder(a.byCategory.Keys, name))|
    ensures keys[i] in store && store[keys[i]].IdV?
    ensures var r := MapLookup(a.records)(store[keys[i]].id);
      ScannedUpTo(a.records, a.byCategory, name, i + 1) ==
        ScannedUpTo(a.records, a.byCategory, name, i) + if r.Some? then [r.value] else []
  {
    hide Encodes, At, MapLookup, IndexLookup, CategoryPrefix, IndexEntry, Collect, SortedKeys, PrefixKeys;
    CategoryIterator(store, a, name);
    var ys := SortedKeys(EntriesUnder(a.byCategory.Keys, name));
    assert ys[i] in ys;
    CategoryEntryAt(store, a, name, ys[i]);
    CollectStep(ys, IndexLookup(a.records, a.byCategory, name), i);
  }

  lemma SubmitterEntryAt(store: map<Bytes, Value>, a: State, name: Bytes, y: Bytes)
    requires Encodes(store, At(a)) && IndexEntry(name, y) in a.bySubmitter
    ensures SubmitterPrefix(name) + y in store && store[SubmitterPrefix(name) + y].IdV?
    ensures IndexLookup(a.records, a.bySubmitter, name)(y) == MapLookup(a.records)(store[SubmitterPrefix(name) + y].id)
  {
    var k := SubmitterPrefix(name) + y;
    assert k == [0x03] + IndexEntry(name, y);
    assert At(a)(k) == Some(IdV(a.bySubmitter[IndexEntry(name, y)]));
  }

  /** One turn of the submitter query's loop. */
  lemma SubmitterTurn(store: map<Bytes, Value>, a: State, name: Bytes, keys: seq<Bytes>, i: nat)
    requires Encodes(store, At(a)) && keys == PrefixKeys(store, SubmitterPrefix(name)) && i < |keys|
    ensures |keys| == |SortedKeys(EntriesUnder(a.bySubmitter.Keys, name))|
    ensures keys[i] in store && store[keys[i]].IdV?
    ensures var r := MapLookup(a.records)(store[keys[i]].id);
      ScannedUpTo(a.records, a.bySubmitter, name, i + 1) ==
        ScannedUpTo(a.records, a.bySubmitter, name, i) + if r.Some? then [r.value] else []
  {
    hide Encodes, At, MapLookup, IndexLookup, SubmitterPrefix, IndexEntry, Collect, SortedKeys, PrefixKeys;
    SubmitterIterator(store, a, name);
    var ys := SortedKeys(EntriesUnder(a.bySubmitter.Keys, name));
    assert ys[i] in ys;
    SubmitterEntryAt(store, a, name, ys[i]);
    CollectStep(ys, IndexLookup(a.records, a.bySubmitter, name), i);
  }

  lemma TableEntryAt(store: map<Bytes, Value>, a: State, y: Bytes)
    requires Encodes(store, At(a))
    ensures y in a.records ==> [0x01] + y in store && store[[0x01] + y] == DataV(a.records[y])
    ensures y in a.batches ==> [0x04] + y in store && store[[0x04] + y] == BatchV(a.batches[y])
  {
    assert y in a.records ==> At(a)([0x01] + y) == Some(DataV(a.records[y]));
    assert y in a.batches ==> At(a)([0x04] + y) == Some(BatchV(a.batches[y]));
  }

  lemma DataTurn(store: map<Bytes, Value>, a: State, keys: seq<Bytes>, i: nat)
    requires Encodes(store, At(a)) && keys == PrefixKeys(store, [0x01]) && i < |keys|
    ensures |keys| == |SortedKeys(a.records.Keys)| && keys[i] in store && store[keys[i]].DataV?
    ensures ValuesUpTo(a.records, i + 1) == ValuesUpTo(a.records, i) + [store[keys[i]].data]
  {
    hide Encodes, At, Collect, SortedKeys, PrefixKeys;
    TableIterator(store, a);
    var ys := SortedKeys(a.records.Keys);
    assert ys[i] in ys;
    TableEntryAt(store, a, ys[i]);
    CollectStep(ys, MapLookup(a.records), i);
  }

  lemma BatchTurn(store: map<Bytes, Value>, a: State, keys: seq<Bytes>, i: nat)
    requires Encodes(store, At(a)) && keys == PrefixKeys(store, [0x04]) && i < |keys|
    ensures |keys| == |SortedKeys(a.batches.Keys)| && keys[i] in store && store[keys[i]].BatchV?
    ensures ValuesUpTo(a.batches, i + 1) == ValuesUpTo(a.batches, i) + [store[keys[i]].batch]
  {
    hide Encodes, At, Collect, SortedKeys, PrefixKeys;
    TableIterator(store, a);
    var ys := SortedKeys(a.batches.Keys);
    assert ys[i] in ys;
    TableEntryAt(store, a, ys[i]);
    CollectStep(ys, MapLookup(a.batches), i);
  }

  /** The bytes of the keys: which are in the store, and which table they stand for. */
  lemma KeyLayout(store: map<Bytes, Value>, a: State, n: Bytes, x: Bytes)
    requires Encodes(store, At(a))
    ensures [0x01] + x in store <==> x in a.records
    ensures [0x02] + (n + [0x00] + x) in store <==> n + [0x00] + x in a.byCategory
    ensures [0x03] + (n + [0x00] + x) in store <==> n + [0x00] + x in a.bySubmitter
    ensures [0x04] + x in store <==> x in a.batches
    ensures [0x05] in store <==> a.counter.Some?
    ensures [101, 110, 101, 114, 103, 121, 95, 112, 97, 114, 97, 109, 115] in store <==> a.params.Some?
  {
    assert [0x01] + x in store <==> At(a)([0x01] + x).Some?;
    assert [0x02] + (n + [0x00] + x) in store <==> At(a)([0x02] + (n + [0x00] + x)).Some?;
    assert [0x03] + (n + [0x00] + x) in store <==> At(a)([0x03] + (n + [0x00] + x)).Some?;
    assert [0x04] + x in store <==> At(a)([0x04] + x).Some?;
    assert [0x05] in store <==> At(a)([0x05]).Some?;
    var p: Bytes := [101, 110, 101, 114, 103, 121, 95, 112, 97, 114, 97, 109, 115];
    assert p in store <==> At(a)(p).Some?;
  }

  class Keeper {
    const keccak: Hash
    var store: map<Bytes, Value>
    ghost var tables: State

    ghost predicate Valid()
      reads this
    {
      Encodes(store, At(tables))
    }

    constructor (keccak: Hash)
      ensures Valid() && tables == EMPTY && this.keccak == keccak
    {
      this.keccak := keccak;
      store := map[];
      tables := EMPTY;
    }

    method GenerateID() returns (id: Bytes)
      requires Valid()
      modifies this
      ensures Valid() && tables == Bumped(old(tables)) && id == EnergyId(Counter(tables))
    {
      CounterStored(store, tables);
      var n: uint64 := 0;
      if COUNTER_KEY in store {
        BE8RoundTrip(tables.counter.value);
        n := FromBE8(store[COUNTER_KEY].bytes);
      }
      n := if n == TWO_64 - 1 then 0 else n + 1;
      ghost var a := tables;
      tables := Bumped(tables);
      StoreCounter(store, a, n, tables);
      store := store[COUNTER_KEY := CounterV(BE8(n))];
      id := EnergyId(n);
    }

    method SubmitEnergyData(data: EnergyData)
      requires Valid()
      modifies this
      ensures Valid() && tables == PutData(old(tables), data)
    {
      ghost var a := tables;
      ghost var b := a.(records := a.records[data.id := data]);
      ghost var c := b.(byCategory := b.byCategory[IndexEntry(data.category, data.id) := data.id]);
      tables := PutData(tables, data);
      StoreData(store, a, data.id, data, b);
      store := store[DataKey(data.id) := DataV(data)];
      StoreCategoryEntry(store, b, data.category, data.id, c);
      store := store[CategoryKey(data.category, data.id) := IdV(data.id)];
      StoreSubmitterEntry(store, c, data.submitter, data.id, tables);
      store := store[SubmitterKey(data.submitter, data.id) := IdV(data.id)];
    }

    method GetEnergyData(id: Bytes) returns (r: Option<EnergyData>)
      requires Valid()
      ensures r == MapLookup(tables.records)(id)
    {
      assert At(tables)(DataKey(id)).Some? <==> DataKey(id) in store;
      if DataKey(id) !in store {
        return None;
      }
      assert At(tables)(DataKey(id)) == Some(store[DataKey(id)]);
      r := Some(store[DataKey(id)].data);
    }

    method GetEnergyDataByCategory(category: Bytes) returns (results: seq<EnergyData>)
      requires Valid()
      ensures results == IndexScan(tables.records, tables.byCategory, category)
    {
      var keys := PrefixKeys(store, CategoryPrefix(category));
      CategoryIterator(store, tables, category);
      ScanEnds(tables.records, tables.byCategory, category);
      results := [];
      for i := 0 to |keys|
        invariant results == ScannedUpTo(tables.records, tables.byCategory, category, i)
      {
        CategoryTurn(store, tables, category, keys, i);
        var data := GetEnergyData(store[keys[i]].id);
        if data.Some? {
          results := results + [data.value];
        }
      }
    }

    method GetEnergyDataBySubmitter(submitter: Bytes) returns (results: seq<EnergyData>)
      requires Valid()
      ensures results == IndexScan(tables.records, tables.bySubmitter, submitter)
    {
      var keys := PrefixKeys(store, SubmitterPrefix(submitter));
      SubmitterIterator(store, tables, submitter);
      ScanEnds(tables.records, tables.bySubmitter, submitter);
      results := [];
      for i := 0 to |keys|
        invariant results == ScannedUpTo(tables.records, tables.bySubmitter, submitter, i)
      {
        SubmitterTurn(store, tables, submitter, keys, i);
        var data := GetEnergyData(store[keys[i]].id);
        if data.Some? {
          results := results + [data.value];
        }
      }
    }

    method GetAllData() returns (results: seq<EnergyData>)
      requires Valid()
      ensures results == Values(tables.records)
    {
      var keys := PrefixKeys(store, [0x01]);
      TableIterator(store, tables);
      ValuesEnds(tables.records);
      results := [];
      for i := 0 to |keys|
        invariant results == ValuesUpTo(tables.records, i)
      {
        DataTurn(store, tables, keys, i);
        results := results + [store[keys[i]].data];
      }
    }

    method SubmitBatch(batch: BatchSubmission)
      requires Valid()
      modifies this
      ensures Valid() && tables == PutBatch(old(tables), batch)
    {
      ghost var a := tables;
      tables := PutBatch(tables, batch);
      StoreBatch(store, a, batch, tables);
      store := store[BatchKeyOf(batch.id) := BatchV(batch)];
    }

    method GetBatch(id: Bytes) returns (r: Option<BatchSubmission>)
      requires Valid()
      ensures r == MapLookup(tables.batches)(id)
    {
      assert At(tables)(BatchKeyOf(id)).Some? <==> BatchKeyOf(id) in store;
      if BatchKeyOf(id) !in store {
        return None;
      }
      assert At(tables)(BatchKeyOf(id)) == Some(store[BatchKeyOf(id)]);
      r := Some(store[BatchKeyOf(id)].batch);
    }

    method GetAllBatches() returns (results: seq<BatchSubmission>)
      requires Valid()
      ensures results == Values(tables.batches)
    {
      var keys := PrefixKeys(store, [0x04]);
      TableIterator(store, tables);
      ValuesEnds(tables.batches);
      results := [];
      for i := 0 to |keys|
        invariant results == ValuesUpTo(tables.batches, i)
      {
        BatchTurn(store, tables, keys, i);
        results := results + [store[keys[i]].batch];
      }
    }

    method SetParams(params: Params)
      requires Valid()
      modifies this
      ensures Valid() && tables == old(tables).(params := Some(params))
    {
      ghost var before, was := store, tables;
      store := store[PARAMS_KEY := ParamsV(params)];
      tables := tables.(params := Some(params));
      EncodesSet(before, At(was), PARAMS_KEY, ParamsV(params), At(tables));
    }

    method GetParams() returns (params: Params)
      requires Valid()
      ensures params == ParamsOf(tables)
    {
      assert At(tables)(PARAMS_KEY).Some? <==> PARAMS_KEY in store;
      if PARAMS_KEY !in store {
        return DEFAULT_PARAMS;
      }
      assert At(tables)(PARAMS_KEY) == Some(store[PARAMS_KEY]);
      params := store[PARAMS_KEY].params;
    }

    method IsAllowedSubmitter(address: Bytes) returns (ok: bool)
      requires Valid()
      ensures ok <==> IsAllowed(tables, address)
    {
      var params := GetParams();
      if |params.allowedSubmitters| == 0 {
        return true;
      }
      for i := 0 to |params.allowedSubmitters|
        invariant address !in params.allowedSubmitters[..i]
      {
        if params.allowedSubmitters[i] == address {
          return true;
        }
      }
      assert params.allowedSubmitters[..|params.allowedSubmitters|] == params.allowedSubmitters;
      ok := false;
    }

    // ---------- message server ----------

    method HandleSubmit(msg: Msg, ctx: Context) returns (r: Response)
      requires Valid() && msg.SubmitMsg?
      modifies this
      ensures Valid() && (tables, r) == Handle(keccak, old(tables), msg, ctx)
    {
      var allowed := IsAllowedSubmitter(msg.submitter);
      if !allowed {
        return Failed(NotAllowed);
      }
      var id := GenerateID();
      SubmitEnergyData(EnergyData(id, msg.category, msg.submitter, msg.dataHash, msg.metadata, ctx.blockHeight,
        ctx.blockTime));
      r := Submitted(id);
    }

    method HandleBatch(msg: Msg, ctx: Context) returns (r: Response)
      requires Valid() && msg.BatchMsg?
      modifies this
      ensures Valid() && (tables, r) == Handle(keccak, old(tables), msg, ctx)
    {
      var allowed := IsAllowedSubmitter(msg.submitter);
      if !allowed {
        return Failed(NotAllowed);
      }
      var params := GetParams();
      if Truncate32(|msg.items|) > params.maxBatchSize {
        return Failed(BatchTooLarge);
      }
      var verdict := VerifyMerkleRoot(keccak, msg.items, msg.merkleRoot);
      if !verdict.Accepted? {
        return Failed(MerkleFailed);
      }
      var batchID := GenerateID();
      for i := 0 to |msg.items|
        invariant Valid() && tables == AppendItems(Bumped(old(tables)), msg, ctx, i)
      {
        var id := GenerateID();
        var item := msg.items[i];
        SubmitEnergyData(EnergyData(id, msg.category, msg.submitter, item.dataHash, item.metadata, ctx.blockHeight,
          ctx.blockTime));
      }
      SubmitBatch(BatchSubmission(batchID, msg.submitter, msg.category, Truncate32(|msg.items|), msg.merkleRoot,
        ctx.blockTime));
      r := BatchSubmitted(batchID, Truncate32(|msg.items|));
    }

    // ---------- genesis ----------

    method InitGenesis(gs: GenesisState)
      requires Valid()
      modifies this
      ensures Valid() && tables == Import(old(tables), gs)
    {
      hide At, Encodes, PutData, PutBatch;
      SetParams(gs.params);
      ghost var a := tables;
      for i := 0 to |gs.dataRecords|
        invariant Valid() && tables == PutAllData(a, gs.dataRecords[..i])
      {
        assert gs.dataRecords[..i + 1][..i] == gs.dataRecords[..i];
        SubmitEnergyData(gs.dataRecords[i]);
      }
      assert gs.dataRecords[..|gs.dataRecords|] == gs.dataRecords;
      ghost var b := tables;
      for i := 0 to |gs.batches|
        invariant Valid() && tables == PutAllBatches(b, gs.batches[..i])
      {
        assert gs.batches[..i + 1][..i] == gs.batches[..i];
        SubmitBatch(gs.batches[i]);
      }
      assert gs.batches[..|gs.batches|] == gs.batches;
    }

    method ExportGenesis() returns (gs: GenesisState)
      requires Valid()
      ensures gs == Export(tables)
    {
      var params := GetParams();
      var records := GetAllData();
      var batches := GetAllBatches();
      gs := GenesisState(records, batches, params);
    }
  }
}
