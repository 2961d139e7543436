/** Genesis of the energy module: validation, import and export, and what a round trip loses. */
module EnergyGenesis {
  import opened ByteStrings
  import opened Scan
  import opened Merkle
  import opened Energy

  // ---------- validation ----------

  datatype GenesisError = BadParams | EmptyId | DuplicateId | EmptyCategory | EmptyDataHash | EmptySubmitter

  predicate Complete(d: EnergyData) {
    d.id != [] && d.category != [] && d.dataHash != [] && d.submitter != []
  }

  function RecordKey(d: EnergyData): Bytes { d.id }

  function BatchKey(b: BatchSubmission): Bytes { b.id }

  /** What genesis validation demands. It relates neither batches to records nor either to a counter. */
  ghost predicate ValidGenesis(gs: GenesisState) {
    && gs.params.maxBatchSize != 0
    && (forall i :: 0 <= i < |gs.dataRecords| ==> Complete(gs.dataRecords[i])) &&
      DistinctKeys(gs.dataRecords, RecordKey)
    && (forall i :: 0 <= i < |gs.batches| ==> gs.batches[i].id != []) && DistinctKeys(gs.batches, BatchKey)
  }

  method Validate(gs: GenesisState) returns (err: Option<GenesisError>)
    ensures err.None? <==> ValidGenesis(gs)
  {
    if gs.params.maxBatchSize == 0 {
      return Some(BadParams);
    }
    var ids: set<Bytes> := {};
    for i := 0 to |gs.dataRecords|
      invariant forall x :: x in ids <==> exists j :: 0 <= j < i && gs.dataRecords[j].id == x
      invariant forall j :: 0 <= j < i ==> Complete(gs.dataRecords[j])
      invariant DistinctKeys(gs.dataRecords[..i], RecordKey)
    {
      var d := gs.dataRecords[i];
      if d.id == [] {
        return Some(EmptyId);
      }
      if d.id in ids {
        return Some(DuplicateId);
      }
      ids := ids + {d.id};
      if d.category == [] {
        return Some(EmptyCategory);
      }
      if d.dataHash == [] {
        return Some(EmptyDataHash);
      }
      if d.submitter == [] {
        return Some(EmptySubmitter);
      }
    }
    assert gs.dataRecords[..|gs.dataRecords|] == gs.dataRecords;
    var batchIds: set<Bytes> := {};
    for i := 0 to |gs.batches|
      invariant forall x :: x in batchIds <==> exists j :: 0 <= j < i && gs.batches[j].id == x
      invariant forall j :: 0 <= j < i ==> gs.batches[j].id != []
      invariant DistinctKeys(gs.batches[..i], BatchKey)
    {
      var b := gs.batches[i];
      if b.id == [] {
        return Some(EmptyId);
      }
      if b.id in batchIds {
        return Some(DuplicateId);
      }
      batchIds := batchIds + {b.id};
    }
    assert gs.batches[..|gs.batches|] == gs.batches;
    err := None;
  }

  // ---------- import and export ----------

  function PutAllData(a: State, ds: seq<EnergyData>): State {
    if ds == [] then a else PutData(PutAllData(a, ds[..|ds| - 1]), ds[|ds| - 1])
  }

  function PutBatch(a: State, b: BatchSubmission): State {
    a.(batches := a.batches[b.id := b])
  }

  function PutAllBatches(a: State, bs: seq<BatchSubmission>): State {
    if bs == [] then a else PutBatch(PutAllBatches(a, bs[..|bs| - 1]), bs[|bs| - 1])
  }

  /** InitGenesis on a state: parameters, then records, then batches. The counter is not set. */
  function Import(a: State, gs: GenesisState): State {
    PutAllBatches(PutAllData(a.(params := Some(gs.params)), gs.dataRecords), gs.batches)
  }

  function Export(a: State): GenesisState {
    GenesisState(Values(a.records), Values(a.batches), ParamsOf(a))
  }

  ghost predicate Indexed(a: State) {
    && NulFreeIds(a.records)
    && IndexAgrees(a.records, a.byCategory, CategoryOf)
    && IndexAgrees(a.records, a.bySubmitter, SubmitterOf)
  }

  function EntryOf(nameOf: EnergyData -> Bytes): EnergyData -> Bytes {
    d => IndexEntry(nameOf(d), d.id)
  }

  /** The index after storing records one after another. */
  function IndexOf(ds: seq<EnergyData>, nameOf: EnergyData -> Bytes): map<Bytes, Bytes> {
    if ds == [] then map[] else IndexOf(ds[..|ds| - 1], nameOf)[EntryOf(nameOf)(ds[|ds| - 1]) := ds[|ds| - 1].id]
  }

  lemma {:induction false} PutAllDataIs(a: State, ds: seq<EnergyData>)
    requires a.records == map[] && a.byCategory == map[] && a.bySubmitter == map[]
    ensures PutAllData(a, ds) ==
      a.(records := Rebuild(ds, RecordKey), byCategory := IndexOf(ds, CategoryOf),
        bySubmitter := IndexOf(ds, SubmitterOf))
  {
    if ds == [] {
      assert PutAllData(a, ds) == a;
    } else {
      var d, prev := ds[|ds| - 1], ds[..|ds| - 1];
      PutAllDataIs(a, prev);
      assert EntryOf(CategoryOf)(d) == IndexEntry(CategoryOf(d), d.id) &&
        EntryOf(SubmitterOf)(d) == IndexEntry(SubmitterOf(d), d.id);
      assert IndexOf(ds, CategoryOf) == IndexOf(prev, CategoryOf)[IndexEntry(d.category, d.id) := d.id];
      assert IndexOf(ds, SubmitterOf) == IndexOf(prev, SubmitterOf)[IndexEntry(d.submitter, d.id) := d.id];
      assert Rebuild(ds, RecordKey) == Rebuild(prev, RecordKey)[d.id := d];
    }
  }

  lemma {:induction false} IndexOfHas(ds: seq<EnergyData>, nameOf: EnergyData -> Bytes)
    ensures forall i :: 0 <= i < |ds| ==> EntryOf(nameOf)(ds[i]) in IndexOf(ds, nameOf)
    ensures forall k :: k in IndexOf(ds, nameOf) ==>
      exists i :: 0 <= i < |ds| && EntryOf(nameOf)(ds[i]) == k && IndexOf(ds, nameOf)[k] == ds[i].id
  {
    hide IndexEntry;
    if ds != [] {
      var n := |ds| - 1;
      IndexOfHas(ds[..n], nameOf);
      var prev, all := IndexOf(ds[..n], nameOf), IndexOf(ds, nameOf);
      forall k | k in all
        ensures exists i :: 0 <= i < |ds| && EntryOf(nameOf)(ds[i]) == k && all[k] == ds[i].id
      {
        if k != EntryOf(nameOf)(ds[n]) {
          var i :| 0 <= i < n && EntryOf(nameOf)(ds[..n][i]) == k && prev[k] == ds[..n][i].id;
          assert ds[..n][i] == ds[i];
        }
      }
      assert forall i :: 0 <= i < n ==> ds[..n][i] == ds[i];
    }
  }

  lemma StoredRows(ds: seq<EnergyData>)
    requires DistinctKeys(ds, RecordKey)
    ensures forall i :: 0 <= i < |ds| ==>
      ds[i].id in Rebuild(ds, RecordKey) && Rebuild(ds, RecordKey)[ds[i].id] == ds[i]
    ensures forall x :: x in Rebuild(ds, RecordKey) ==> exists i :: 0 <= i < |ds| && ds[i].id == x
  {
    RebuildHasRows(ds, RecordKey);
    assert forall i :: 0 <= i < |ds| ==> RecordKey(ds[i]) == ds[i].id;
    hide Rebuild;
  }

  lemma OwnEntryHeld(ds: seq<EnergyData>, nameOf: EnergyData -> Bytes, i: nat)
    requires DistinctKeys(ds, EntryOf(nameOf)) && i < |ds|
    ensures IndexEntry(nameOf(ds[i]), ds[i].id) in IndexOf(ds, nameOf)
    ensures IndexOf(ds, nameOf)[IndexEntry(nameOf(ds[i]), ds[i].id)] == ds[i].id
  {
    IndexOfHas(ds, nameOf);
    hide IndexOf, IndexEntry;
    var k := EntryOf(nameOf)(ds[i]);
    var j :| 0 <= j < |ds| && EntryOf(nameOf)(ds[j]) == k && IndexOf(ds, nameOf)[k] == ds[j].id;
    assert i == j;
  }

  lemma OwnEntriesAgree(ds: seq<EnergyData>, nameOf: EnergyData -> Bytes)
    requires DistinctKeys(ds, RecordKey) && DistinctKeys(ds, EntryOf(nameOf))
    ensures IndexAgrees(Rebuild(ds, RecordKey), IndexOf(ds, nameOf), nameOf)
  {
    var records, index := Rebuild(ds, RecordKey), IndexOf(ds, nameOf);
    StoredRows(ds);
    IndexOfHas(ds, nameOf);
    hide Rebuild, IndexOf, IndexEntry, DistinctKeys;
    forall x | x in records
      ensures IndexEntry(nameOf(records[x]), x) in index && index[IndexEntry(nameOf(records[x]), x)] == x
    {
      var i :| 0 <= i < |ds| && ds[i].id == x;
      OwnEntryHeld(ds, nameOf, i);
    }
  }

  lemma SharedEntryDisagrees(ds: seq<EnergyData>, nameOf: EnergyData -> Bytes, i: nat, j: nat)
    requires DistinctKeys(ds, RecordKey) && i < j < |ds| && EntryOf(nameOf)(ds[i]) == EntryOf(nameOf)(ds[j])
    ensures !IndexAgrees(Rebuild(ds, RecordKey), IndexOf(ds, nameOf), nameOf)
  {
    var records, index, k := Rebuild(ds, RecordKey), IndexOf(ds, nameOf), EntryOf(nameOf)(ds[i]);
    StoredRows(ds);
    assert RecordKey(ds[i]) != RecordKey(ds[j]);
    hide Rebuild, IndexOf, IndexEntry;
    assert ds[i].id in records && ds[j].id in records;
  }

  /** An imported index is complete and free of stale entries exactly when no two records share an
      index entry. */
  lemma ImportedIndexAgreesIff(ds: seq<EnergyData>, nameOf: EnergyData -> Bytes)
    requires DistinctKeys(ds, RecordKey)
    ensures IndexAgrees(Rebuild(ds, RecordKey), IndexOf(ds, nameOf), nameOf) <==> DistinctKeys(ds, EntryOf(nameOf))
  {
    hide Rebuild, IndexOf, IndexAgrees;
    if DistinctKeys(ds, EntryOf(nameOf)) {
      OwnEntriesAgree(ds, nameOf);
    } else {
      var i, j :| 0 <= i < j < |ds| && EntryOf(nameOf)(ds[i]) == EntryOf(nameOf)(ds[j]);
      SharedEntryDisagrees(ds, nameOf, i, j);
    }
  }

  /** NUL-free ids, as all generated ones are, never share an entry. */
  lemma NulFreeIdsHaveOwnEntries(ds: seq<EnergyData>, nameOf: EnergyData -> Bytes)
    requires DistinctKeys(ds, RecordKey) && forall d :: d in ds ==> NulFree(d.id)
    ensures DistinctKeys(ds, EntryOf(nameOf))
  {
    forall i, j | 0 <= i < j < |ds|
      ensures EntryOf(nameOf)(ds[i]) != EntryOf(nameOf)(ds[j])
    {
      assert RecordKey(ds[i]) != RecordKey(ds[j]);
      if EntryOf(nameOf)(ds[i]) == EntryOf(nameOf)(ds[j]) {
        SeparatorUnique(nameOf(ds[i]), ds[i].id, nameOf(ds[j]), ds[j].id);
      }
    }
  }

  lemma {:induction false} PutAllBatchesKeeps(a: State, bs: seq<BatchSubmission>)
    requires a.batches == map[]
    ensures PutAllBatches(a, bs) == a.(batches := Rebuild(bs, BatchKey))
  {
    if bs != [] {
      PutAllBatchesKeeps(a, bs[..|bs| - 1]);
    }
  }

  lemma ImportTables(gs: GenesisState, a: State)
    requires a == Import(EMPTY, gs)
    ensures a == State(Rebuild(gs.dataRecords, RecordKey),
                       IndexOf(gs.dataRecords, CategoryOf), IndexOf(gs.dataRecords, SubmitterOf),
                       Rebuild(gs.batches, BatchKey), None, Some(gs.params))
  {
    var start := EMPTY.(params := Some(gs.params));
    hide Rebuild, PutAllData, PutAllBatches, IndexOf;
    PutAllDataIs(start, gs.dataRecords);
    PutAllBatchesKeeps(PutAllData(start, gs.dataRecords), gs.batches);
  }

  /** Any valid genesis is imported into exactly its records and batches, whatever their ids; each
      index agrees with the records exactly when no two records share an entry of it. */
  lemma ImportIsFaithful(gs: GenesisState, a: State)
    requires ValidGenesis(gs) && a == Import(EMPTY, gs)
    ensures a.counter == None && a.params == Some(gs.params)
    ensures forall x :: x in a.records <==> exists i :: 0 <= i < |gs.dataRecords| && RecordKey(gs.dataRecords[i]) == x
    ensures forall i :: 0 <= i < |gs.dataRecords| ==> a.records[RecordKey(gs.dataRecords[i])] == gs.dataRecords[i]
    ensures forall x :: x in a.batches <==> exists i :: 0 <= i < |gs.batches| && BatchKey(gs.batches[i]) == x
    ensures forall i :: 0 <= i < |gs.batches| ==> a.batches[BatchKey(gs.batches[i])] == gs.batches[i]
    ensures IndexAgrees(a.records, a.byCategory, CategoryOf) <==> DistinctKeys(gs.dataRecords, EntryOf(CategoryOf))
    ensures IndexAgrees(a.records, a.bySubmitter, SubmitterOf) <==> DistinctKeys(gs.dataRecords, EntryOf(SubmitterOf))
  {
    ImportTables(gs, a);
    RebuildHasRows(gs.dataRecords, RecordKey);
    RebuildHasRows(gs.batches, BatchKey);
    hide Rebuild, IndexOf, IndexAgrees, Import;
    ImportedIndexAgreesIff(gs.dataRecords, CategoryOf);
    ImportedIndexAgreesIff(gs.dataRecords, SubmitterOf);
  }

  /** A valid genesis whose index cannot agree: the category and the id of one record end and begin
      where those of the other do, with a NUL moved from the category to the id. */
  lemma SharedEntryDisagreesOnImport(gs: GenesisState, d1: EnergyData, d2: EnergyData, p: Bytes, a: State)
    requires ValidGenesis(gs) && gs.dataRecords == [d1, d2] && a == Import(EMPTY, gs)
    requires d1.category == d2.category + [0x00] + p && d2.id == p + [0x00] + d1.id
    ensures !IndexAgrees(a.records, a.byCategory, CategoryOf)
  {
    assert IndexEntry(d1.category, d1.id) == IndexEntry(d2.category, d2.id);
    assert EntryOf(CategoryOf)(d1) == IndexEntry(CategoryOf(d1), d1.id);
    assert EntryOf(CategoryOf)(d2) == IndexEntry(CategoryOf(d2), d2.id);
    assert gs.dataRecords[0] == d1 && gs.dataRecords[1] == d2;
    hide IndexEntry, EntryOf, IndexAgrees, Import;
    ImportIsFaithful(gs, a);
  }

  lemma ImportNulFree(gs: GenesisState, a: State)
    requires DistinctKeys(gs.dataRecords, RecordKey) && a == Import(EMPTY, gs)
    requires forall d :: d in gs.dataRecords ==> NulFree(d.id)
    ensures IndexAgrees(a.records, a.byCategory, CategoryOf) && IndexAgrees(a.records, a.bySubmitter, SubmitterOf)
  {
    ImportTables(gs, a);
    hide Rebuild, IndexOf, IndexAgrees, Import, NulFree, IndexEntry;
    NulFreeIdsHaveOwnEntries(gs.dataRecords, CategoryOf);
    NulFreeIdsHaveOwnEntries(gs.dataRecords, SubmitterOf);
    ImportedIndexAgreesIff(gs.dataRecords, CategoryOf);
    ImportedIndexAgreesIff(gs.dataRecords, SubmitterOf);
  }

  // ---------- round trip ----------

  lemma TablesRoundTrip(a: State)
    requires Indexed(a) && a.params.Some?
    requires forall x :: x in a.records ==> RecordKey(a.records[x]) == x
    requires forall x :: x in a.batches ==> BatchKey(a.batches[x]) == x
    ensures Import(EMPTY, Export(a)) == a.(counter := None)
  {
    ExportedAreStored(a);
    hide IndexAgrees, NulFree, Rebuild, Values, Import, IndexOf;
    var gs, b := Export(a), Import(EMPTY, Export(a));
    ValuesDistinct(a.records, RecordKey);
    RebuildValues(a.records, RecordKey);
    RebuildValues(a.batches, BatchKey);
    ImportTables(gs, b);
    ImportNulFree(gs, b);
    IndexUnique(a.records, b.byCategory, a.byCategory, CategoryOf);
    IndexUnique(a.records, b.bySubmitter, a.bySubmitter, SubmitterOf);
  }

  /** Export and import restore every table of a reachable state except the counter. */
  lemma RoundTripLosesCounter(keccak: Hash, a: State)
    requires Inv(keccak, a) && a.params.Some?
    ensures Import(EMPTY, Export(a)) == a.(counter := None)
  {
    WellFormedIsNulFree(a);
    hide EnergyId, IdNumber, IndexAgrees, Accepts, StoredHashes, Import;
    assert forall x :: x in a.batches ==> Reverifiable(keccak, a, x);
    TablesRoundTrip(a);
  }

  lemma ExportedAreStored(a: State)
    requires NulFreeIds(a.records) && forall x :: x in a.records ==> a.records[x].id == x
    ensures forall d :: d in Values(a.records) ==> NulFree(d.id)
  {
    hide NulFree;
    ValuesAre(a.records);
  }

  /** The next accepted submission after a round trip overwrites energy-1, if it is a record, and the
      overwritten record stays in the index under its old category. */
  lemma OverwriteLeavesStaleEntry(keccak: Hash, a: State, msg: Msg, ctx: Context, b: State)
    requires Inv(keccak, a) && EnergyId(1) in a.records && msg.SubmitMsg? && IsAllowed(a, msg.submitter)
    requires msg.category != a.records[EnergyId(1)].category && b == Handle(keccak, a.(counter := None), msg, ctx).0
    ensures EnergyId(1) in b.records && b.records[EnergyId(1)].category == msg.category
    ensures b.records[EnergyId(1)] in IndexScan(b.records, b.byCategory, a.records[EnergyId(1)].category)
  {
    EnergyIdInjective(1);
    hide EnergyId, IdNumber, IndexScan;
    var id := EnergyId(1);
    var before := a.records[id];
    assert b == AppendRecord(a.(counter := None), msg, ctx, msg.dataHash, msg.metadata);
    assert IndexEntry(before.category, id) in b.byCategory;
    assert b.byCategory[IndexEntry(before.category, id)] == id;
    ScanFinds(b.records, b.byCategory, before.category, id);
  }

  lemma ScanFinds(records: map<Bytes, EnergyData>, index: map<Bytes, Bytes>, name: Bytes, id: Bytes)
    requires id in records && IndexEntry(name, id) in index && index[IndexEntry(name, id)] == id
    ensures records[id] in IndexScan(records, index, name)
  {
    assert MapLookup(records)(id) == Some(records[id]);
    CollectContains(SortedKeys(EntriesUnder(index.Keys, name)), IndexLookup(records, index, name), id);
  }
}
