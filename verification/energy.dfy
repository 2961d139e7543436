/** The energy module as tables: records with their category and submitter index, batches,
    the identifier counter and the parameters, and the steps that the handlers take on them. */
module Energy {
  import opened ByteStrings
  import opened Scan
  import opened Merkle

  datatype EnergyData = EnergyData(
    id: Bytes, category: Bytes, submitter: Bytes, dataHash: Bytes, metadata: Bytes,
    blockHeight: int64, timestamp: int64)

  datatype BatchSubmission = BatchSubmission(
    id: Bytes, submitter: Bytes, category: Bytes, dataCount: uint32, merkleRoot: Bytes, timestamp: int64)

  datatype Params = Params(maxBatchSize: uint32, allowedSubmitters: seq<Bytes>)

  const DEFAULT_PARAMS := Params(100, [])

  datatype GenesisState = GenesisState(dataRecords: seq<EnergyData>, batches: seq<BatchSubmission>, params: Params)

  datatype Context = Context(blockHeight: int64, blockTime: int64)

  datatype Msg =
    | SubmitMsg(submitter: Bytes, category: Bytes, dataHash: Bytes, metadata: Bytes)
    | BatchMsg(submitter: Bytes, category: Bytes, items: seq<BatchItem>, merkleRoot: Bytes)

  datatype Error = NotAllowed | BatchTooLarge | MerkleFailed

  datatype Response = Submitted(id: Bytes) | BatchSubmitted(batchID: Bytes, dataCount: uint32) | Failed(error: Error)

  /** byCategory and bySubmitter map an index entry name | 0x00 | id to the id it holds. */
  datatype State = State(
    records: map<Bytes, EnergyData>,
    byCategory: map<Bytes, Bytes>,
    bySubmitter: map<Bytes, Bytes>,
    batches: map<Bytes, BatchSubmission>,
    counter: Option<uint64>,
    params: Option<Params>)

  const EMPTY := State(map[], map[], map[], map[], None, None)

  // ---------- identifiers ----------

  const ENERGY_DASH: Bytes := [101, 110, 101, 114, 103, 121, 45]

  function EnergyId(n: nat): Bytes {
    ENERGY_DASH + Decimal(n)
  }

  function IdNumber(id: Bytes): int {
    if |id| < 7 then 0 else ParseDecimal(id[7..])
  }

  /** Printing in decimal loses nothing, so distinct counter values give distinct identifiers. */
  lemma EnergyIdInjective(n: nat)
    ensures IdNumber(EnergyId(n)) == n && EnergyId(n) == [101, 110, 101, 114, 103, 121, 45] + Decimal(n)  // energy-
    ensures NulFree(EnergyId(n))
  {
    assert EnergyId(n)[7..] == Decimal(n);
    DecimalRoundTrip(n);
  }

  /** Records are listed in the byte order of their identifiers: integer order within one number of
      digits, but not across, where energy-10 comes before energy-9. */
  lemma IdOrder(m: nat, n: nat)
    ensures |Decimal(m)| == |Decimal(n)| ==> (Less(EnergyId(m), EnergyId(n)) <==> m < n)
    ensures Less(EnergyId(10), EnergyId(9))
  {
    LessPrepend(ENERGY_DASH, Decimal(m), Decimal(n));
    if |Decimal(m)| == |Decimal(n)| {
      DecimalOrder(m, n);
    }
    LessPrepend(ENERGY_DASH, Decimal(10), Decimal(9));
    assert Decimal(10)[0] == 49 && Decimal(9)[0] == 57;
  }

  function Counter(a: State): uint64 {
    if a.counter.Some? then a.counter.value else 0
  }

  /** Unsigned 64-bit increment: the largest value wraps to 0. */
  function Bumped(a: State): State {
    a.(counter := Some(if Counter(a) == TWO_64 - 1 then 0 else Counter(a) + 1))
  }

  lemma BumpedCounts(a: State)
    ensures Counter(Bumped(a)) == (Counter(a) + 1) % TWO_64
    ensures Bumped(a) == a.(counter := Bumped(a).counter)
  {}

  // ---------- records, indexes and queries ----------

  function CategoryOf(d: EnergyData): Bytes { d.category }

  function SubmitterOf(d: EnergyData): Bytes { d.submitter }

  function PutData(a: State, d: EnergyData): State {
    a.(records := a.records[d.id := d],
       byCategory := a.byCategory[IndexEntry(d.category, d.id) := d.id],
       bySubmitter := a.bySubmitter[IndexEntry(d.submitter, d.id) := d.id])
  }

  /** The record to which the index entry name | 0x00 | y leads. */
  function IndexLookup(records: map<Bytes, EnergyData>, index: map<Bytes, Bytes>,
      name: Bytes): Bytes -> Option<EnergyData> {
    y => if IndexEntry(name, y) in index then MapLookup(records)(index[IndexEntry(name, y)]) else None
  }

  /** What an index query returns: the entries under the queried name, in key order, looked up. */
  function IndexScan(records: map<Bytes, EnergyData>, index: map<Bytes, Bytes>, name: Bytes): seq<EnergyData> {
    Collect(SortedKeys(EntriesUnder(index.Keys, name)), IndexLookup(records, index, name))
  }

  function Named(nameOf: EnergyData -> Bytes, name: Bytes): EnergyData -> bool {
    d => nameOf(d) == name
  }

  /** The index holds one entry for every record, under the record's name, and nothing else. */
  ghost predicate IndexAgrees(records: map<Bytes, EnergyData>, index: map<Bytes, Bytes>, nameOf: EnergyData -> Bytes) {
    && (forall x :: x in records ==>
         IndexEntry(nameOf(records[x]), x) in index && index[IndexEntry(nameOf(records[x]), x)] == x)
    && (forall k :: k in index ==>
         index[k] in records && k == IndexEntry(nameOf(records[index[k]]), index[k]))
  }

  lemma IndexUnique(records: map<Bytes, EnergyData>, i1: map<Bytes, Bytes>, i2: map<Bytes, Bytes>,
      nameOf: EnergyData -> Bytes)
    requires IndexAgrees(records, i1, nameOf) && IndexAgrees(records, i2, nameOf)
    ensures i1 == i2
  {
    assert forall k :: k in i1 ==> k in i2 && i2[k] == i1[k];
    assert forall k :: k in i2 ==> k in i1;
  }

  ghost predicate NulFreeIds(records: map<Bytes, EnergyData>) {
    forall x :: x in records ==> NulFree(x)
  }

  lemma IndexKeepsAgreeing(records: map<Bytes, EnergyData>, index: map<Bytes, Bytes>, nameOf: EnergyData -> Bytes,
      d: EnergyData)
    requires IndexAgrees(records, index, nameOf) && NulFreeIds(records)
    requires d.id !in records && NulFree(d.id)
    ensures IndexAgrees(records[d.id := d], index[IndexEntry(nameOf(d), d.id) := d.id], nameOf)
  {
    var key := IndexEntry(nameOf(d), d.id);
    forall x | x in records
      ensures IndexEntry(nameOf(records[x]), x) != key
    {
      if IndexEntry(nameOf(records[x]), x) == key {
        SeparatorUnique(nameOf(records[x]), x, nameOf(d), d.id);
      }
    }
  }

  /** No stored name is the queried name followed by a NUL and anything. */
  ghost predicate NoNameExtends(records: map<Bytes, EnergyData>, nameOf: EnergyData -> Bytes, name: Bytes) {
    forall x :: x in records ==> !(name + [0x00] <= nameOf(records[x]))
  }

  lemma EntryOverlap(n: Bytes, x: Bytes, name: Bytes, y: Bytes)
    requires IndexEntry(n, x) == IndexEntry(name, y)
    ensures |name| < |n| ==> name + [0x00] <= n
  {
    var k := IndexEntry(name, y);
    assert k[..|name| + 1] == name + [0x00];
    assert k[..|n|] == n;
  }

  /** With NUL-free ids an entry under name | 0x00 belongs to that name unless its own name extends it. */
  lemma EntryUnderName(n: Bytes, x: Bytes, name: Bytes, y: Bytes)
    requires NulFree(x) && IndexEntry(n, x) == IndexEntry(name, y)
    requires !(name + [0x00] <= n)
    ensures n == name && x == y
  {
    EntryOverlap(n, x, name, y);
    assert IndexEntry(name, y)[|name|] == 0;
    LastNul(n, x, |name|);
    ConcatInjective(n + [0x00], x, name + [0x00], y);
    ConcatInjective(n, [0x00], name, [0x00]);
  }

  lemma SoundUnlessExtended(records: map<Bytes, EnergyData>, index: map<Bytes, Bytes>, nameOf: EnergyData -> Bytes,
      name: Bytes)
    requires IndexAgrees(records, index, nameOf) && NulFreeIds(records)
    requires NoNameExtends(records, nameOf, name)
    ensures ScanIsSound(records.Keys, MapLookup(records), EntriesUnder(index.Keys, name),
                        IndexLookup(records, index, name), Named(nameOf, name))
  {
    var lookup := IndexLookup(records, index, name);
    forall y | y in EntriesUnder(index.Keys, name) && lookup(y).Some?
      ensures y in records.Keys && MapLookup(records)(y) == lookup(y) && Named(nameOf, name)(lookup(y).value)
    {
      var x := index[IndexEntry(name, y)];
      EntryUnderName(nameOf(records[x]), x, name, y);
    }
  }

  /** The query by a name equals the filter over all records, in the same order, exactly when
      no stored name extends the queried one past a NUL. */
  lemma IndexQueryExactIff(records: map<Bytes, EnergyData>, index: map<Bytes, Bytes>, nameOf: EnergyData -> Bytes,
      name: Bytes)
    requires IndexAgrees(records, index, nameOf) && NulFreeIds(records)
    ensures IndexScan(records, index, name) == Filter(Values(records), Named(nameOf, name))
       <==> NoNameExtends(records, nameOf, name)
  {
    ScanExactIff(records.Keys, MapLookup(records), EntriesUnder(index.Keys, name),
                 IndexLookup(records, index, name), Named(nameOf, name));
    if NoNameExtends(records, nameOf, name) {
      SoundUnlessExtended(records, index, nameOf, name);
    } else {
      var x :| x in records && name + [0x00] <= nameOf(records[x]);
      ForeignEntry(records, index, nameOf, name, x);
    }
  }

  lemma ForeignEntry(records: map<Bytes, EnergyData>, index: map<Bytes, Bytes>, nameOf: EnergyData -> Bytes,
      name: Bytes, x: Bytes)
    requires IndexAgrees(records, index, nameOf)
    requires x in records && name + [0x00] <= nameOf(records[x])
    ensures !ScanIsSound(records.Keys, MapLookup(records), EntriesUnder(index.Keys, name),
                         IndexLookup(records, index, name), Named(nameOf, name))
  {
    var n := nameOf(records[x]);
    var rest := n[|name| + 1..];
    PrefixSplits(name + [0x00], n);
    var y := rest + [0x00] + x;
    assert IndexEntry(name, y) == IndexEntry(n, x);
    assert y in EntriesUnder(index.Keys, name);
    assert IndexEntry(name, y) in index && index[IndexEntry(name, y)] == x;
    assert MapLookup(records)(x) == Some(records[x]);
    assert IndexLookup(records, index, name)(y) == Some(records[x]);
    assert |n| > |name|;
  }

  // ---------- handlers ----------

  function ParamsOf(a: State): Params {
    if a.params.Some? then a.params.value else DEFAULT_PARAMS
  }

  predicate IsAllowed(a: State, address: Bytes) {
    ParamsOf(a).allowedSubmitters == [] || address in ParamsOf(a).allowedSubmitters
  }

  function RecordFor(msg: Msg, ctx: Context, id: Bytes, dataHash: Bytes, metadata: Bytes): EnergyData {
    EnergyData(id, msg.category, msg.submitter, dataHash, metadata, ctx.blockHeight, ctx.blockTime)
  }

  /** Allocating an identifier and storing one record under it. */
  function AppendRecord(a: State, msg: Msg, ctx: Context, dataHash: Bytes, metadata: Bytes): State {
    var b := Bumped(a);
    PutData(b, RecordFor(msg, ctx, EnergyId(Counter(b)), dataHash, metadata))
  }

  /** The loop of a batch after its first n items. */
  function AppendItems(a: State, msg: Msg, ctx: Context, n: nat): State
    requires msg.BatchMsg? && n <= |msg.items|
  {
    if n == 0 then a
    else AppendRecord(AppendItems(a, msg, ctx, n - 1), msg, ctx, msg.items[n - 1].dataHash, msg.items[n - 1].metadata)
  }

  function BatchFor(msg: Msg, ctx: Context, id: Bytes): BatchSubmission
    requires msg.BatchMsg?
  {
    BatchSubmission(id, msg.submitter, msg.category, Truncate32(|msg.items|), msg.merkleRoot, ctx.blockTime)
  }

  function Handle(keccak: Hash, a: State, msg: Msg, ctx: Context): (State, Response) {
    if !IsAllowed(a, msg.submitter) then (a, Failed(NotAllowed))
    else match msg
      case SubmitMsg(_, _, dataHash, metadata) =>
        (AppendRecord(a, msg, ctx, dataHash, metadata), Submitted(EnergyId(Counter(Bumped(a)))))
      case BatchMsg(_, _, items, root) =>
        if Truncate32(|items|) > ParamsOf(a).maxBatchSize then (a, Failed(BatchTooLarge))
        else if !Accepts(keccak, DataHashes(items), root) then (a, Failed(MerkleFailed))
        else
          var id := EnergyId(Counter(Bumped(a)));
          var b := AppendItems(Bumped(a), msg, ctx, |items|);
          (b.(batches := b.batches[id := BatchFor(msg, ctx, id)]), BatchSubmitted(id, Truncate32(|items|)))
  }

  datatype Step = Step(msg: Msg, ctx: Context)

  function Run(keccak: Hash, a: State, steps: seq<Step>): State
    decreases |steps|
  {
    if steps == [] then a
    else Run(keccak, Handle(keccak, a, steps[0].msg, steps[0].ctx).0, steps[1..])
  }

  // ---------- what every reachable state satisfies ----------

  ghost predicate Generated(id: Bytes, bound: uint64) {
    1 <= IdNumber(id) <= bound && id == EnergyId(IdNumber(id))
  }

  ghost predicate RecordsWellFormed(a: State) {
    && (forall x :: x in a.records ==> a.records[x].id == x && Generated(x, Counter(a)))
    && IndexAgrees(a.records, a.byCategory, CategoryOf)
    && IndexAgrees(a.records, a.bySubmitter, SubmitterOf)
  }

  function StoredHashes(records: map<Bytes, EnergyData>, first: nat, count: nat): (r: seq<Bytes>)
    ensures |r| == count
  {
    seq(count, i requires 0 <= i < count =>
      if EnergyId(first + i) in records then records[EnergyId(first + i)].dataHash else [])
  }

  /** The batch can be checked again from the stored records alone: its records are those numbered
      right after it, they carry its fields, and their hashes still give the declared root. */
  ghost predicate Reverifiable(keccak: Hash, a: State, id: Bytes)
    requires id in a.batches
  {
    var b, n := a.batches[id], IdNumber(id);
    && Generated(id, Counter(a)) && b.id == id && id !in a.records
    && 0 < b.dataCount && n + b.dataCount <= Counter(a)
    && RecordsVerify(keccak, a, b, n)
  }

  /** The records numbered right after n carry the batch's fields and hash to its root. */
  ghost predicate RecordsVerify(keccak: Hash, a: State, b: BatchSubmission, n: nat) {
    && (forall m :: n < m <= n + b.dataCount ==> EnergyId(m) in a.records && BelongsTo(a.records[EnergyId(m)], b))
    && Accepts(keccak, StoredHashes(a.records, n + 1, b.dataCount), b.merkleRoot)
  }

  predicate BelongsTo(d: EnergyData, b: BatchSubmission) {
    d.submitter == b.submitter && d.category == b.category && d.timestamp == b.timestamp
  }

  /** The identifiers that two batches occupy do not overlap. */
  predicate Disjoint(b1: BatchSubmission, b2: BatchSubmission) {
    || IdNumber(b1.id) + b1.dataCount < IdNumber(b2.id)
    || IdNumber(b2.id) + b2.dataCount < IdNumber(b1.id)
  }

  ghost predicate BatchesDisjoint(a: State) {
    forall i, j :: i in a.batches && j in a.batches && i != j ==> Disjoint(a.batches[i], a.batches[j])
  }

  ghost predicate Inv(keccak: Hash, a: State) {
    && RecordsWellFormed(a)
    && (forall id :: id in a.batches ==> Reverifiable(keccak, a, id))
    && BatchesDisjoint(a)
  }

  /** b holds every record of a, unchanged. */
  ghost predicate Extends(a: State, b: State) {
    && (forall x :: x in a.records ==> x in b.records && b.records[x] == a.records[x])
    && (forall x :: x in a.batches ==> x in b.batches && b.batches[x] == a.batches[x])
    && b.params == a.params && Counter(a) <= Counter(b)
  }

  function Cost(msg: Msg): nat {
    if msg.SubmitMsg? then 1 else 1 + |msg.items|
  }

  /** Identifiers that one step takes: none when it is refused. */
  function Taken(keccak: Hash, a: State, step: Step): nat {
    if Handle(keccak, a, step.msg, step.ctx).1.Failed? then 0 else Cost(step.msg)
  }

  /** Identifiers that a run takes. */
  function IdsTaken(keccak: Hash, a: State, steps: seq<Step>): nat
    decreases |steps|
  {
    if steps == [] then 0
    else Taken(keccak, a, steps[0]) + IdsTaken(keccak, Handle(keccak, a, steps[0].msg, steps[0].ctx).0, steps[1..])
  }

  predicate CountFits(keccak: Hash, a: State, step: Step) {
    step.msg.BatchMsg? && Handle(keccak, a, step.msg, step.ctx).1.BatchSubmitted? ==> |step.msg.items| < TWO_32
  }

  ghost predicate CountsFit(keccak: Hash, a: State, steps: seq<Step>)
    decreases |steps|
  {
    steps != [] ==>
      CountFits(keccak, a, steps[0]) && CountsFit(keccak, Handle(keccak, a, steps[0].msg, steps[0].ctx).0, steps[1..])
  }

  /** The run takes no identifier beyond 2^64 - 1, and no accepted batch has 2^32 items or more. */
  ghost predicate WithinBounds(keccak: Hash, a: State, steps: seq<Step>) {
    Counter(a) + IdsTaken(keccak, a, steps) < TWO_64 && CountsFit(keccak, a, steps)
  }

  lemma WellFormedIsNulFree(a: State)
    requires RecordsWellFormed(a)
    ensures NulFreeIds(a.records)
  {
    forall x | x in a.records
      ensures NulFree(x)
    {
      EnergyIdInjective(IdNumber(x));
    }
  }

  lemma FreshId(a: State)
    requires RecordsWellFormed(a)
    ensures EnergyId(Counter(a) + 1) !in a.records
  {
    EnergyIdInjective(Counter(a) + 1);
  }

  /** A new record gets an identifier that was never used, and disturbs nothing. */
  lemma AppendRecordKeeps(a: State, msg: Msg, ctx: Context, dataHash: Bytes, metadata: Bytes, id: Bytes, b: State)
    requires RecordsWellFormed(a) && Counter(a) + 1 < TWO_64
    requires id == EnergyId(Counter(a) + 1) && b == AppendRecord(a, msg, ctx, dataHash, metadata)
    ensures RecordsWellFormed(b) && Extends(a, b) && b.batches == a.batches
    ensures Counter(b) == Counter(a) + 1 && id !in a.records
    ensures b.records ==
      a.records[id := EnergyData(id, msg.category, msg.submitter, dataHash, metadata, ctx.blockHeight, ctx.blockTime)]
  {
    hide EnergyId, IdNumber, NulFree, IndexAgrees;
    var d := RecordFor(msg, ctx, id, dataHash, metadata);
    assert b == PutData(Bumped(a), d);
    FreshId(a);
    EnergyIdInjective(Counter(a) + 1);
    WellFormedIsNulFree(a);
    IndexKeepsAgreeing(a.records, a.byCategory, CategoryOf, d);
    IndexKeepsAgreeing(a.records, a.bySubmitter, SubmitterOf, d);
  }

  /** Item number m - c of a batch is record number m, for every m in (c, c + n], with the fields of
      the batch's message, the item and the block. */
  ghost predicate ItemsStored(b: State, msg: Msg, ctx: Context, c: nat, n: nat)
    requires msg.BatchMsg? && n <= |msg.items|
  {
    forall m :: c < m <= c + n ==>
      var item := msg.items[m - c - 1];
      EnergyId(m) in b.records &&
      b.records[EnergyId(m)] == EnergyData(EnergyId(m), msg.category, msg.submitter, item.dataHash, item.metadata,
                                           ctx.blockHeight, ctx.blockTime)
  }

  /** The items of a batch become the next records, in order. */
  lemma {:induction false} AppendItemsKeeps(a: State, msg: Msg, ctx: Context, n: nat, b: State)
    requires RecordsWellFormed(a) && msg.BatchMsg? && n <= |msg.items| && Counter(a) + n < TWO_64
    requires b == AppendItems(a, msg, ctx, n)
    ensures RecordsWellFormed(b) && Extends(a, b) && b.batches == a.batches && Counter(b) == Counter(a) + n
    ensures forall x :: x in b.records && x !in a.records ==> Counter(a) < IdNumber(x)
    ensures ItemsStored(b, msg, ctx, Counter(a), n)
  {
    hide EnergyId, IdNumber, NulFree, IndexAgrees, AppendRecord;
    if n > 0 {
      var prev := AppendItems(a, msg, ctx, n - 1);
      AppendItemsKeeps(a, msg, ctx, n - 1, prev);
      var c := Counter(a);
      EnergyIdInjective(c + n);
      AppendRecordKeeps(prev, msg, ctx, msg.items[n - 1].dataHash, msg.items[n - 1].metadata, EnergyId(c + n), b);
    }
  }

  /** Re-verification reads only the batch's own records. */
  lemma VerifyStays(keccak: Hash, a: State, b: State, batch: BatchSubmission, n: nat)
    requires RecordsVerify(keccak, a, batch, n)
    requires forall m :: n < m <= n + batch.dataCount ==>
      EnergyId(m) in b.records && b.records[EnergyId(m)] == a.records[EnergyId(m)]
    ensures RecordsVerify(keccak, b, batch, n)
  {
    hide EnergyId, Accepts;
    assert StoredHashes(b.records, n + 1, batch.dataCount) == StoredHashes(a.records, n + 1, batch.dataCount);
  }

  lemma ReverifiableStays(keccak: Hash, a: State, b: State, id: Bytes)
    requires id in a.batches && Reverifiable(keccak, a, id)
    requires Extends(a, b) && id !in b.records
    ensures Reverifiable(keccak, b, id)
  {
    hide EnergyId, IdNumber, Accepts, StoredHashes;
    VerifyStays(keccak, a, b, a.batches[id], IdNumber(id));
  }

  lemma OldBatchesStay(keccak: Hash, a: State, b: State)
    requires Inv(keccak, a) && Extends(a, b)
    requires forall x :: x in b.records && x !in a.records ==> Counter(a) < IdNumber(x)
    ensures forall id :: id in a.batches ==> id in b.batches && Reverifiable(keccak, b, id)
  {
    hide EnergyId, IdNumber, Accepts, StoredHashes;
    forall id | id in a.batches
      ensures id in b.batches && Reverifiable(keccak, b, id)
    {
      assert Reverifiable(keccak, a, id);
      assert Generated(id, Counter(a));
      ReverifiableStays(keccak, a, b, id);
    }
  }

  lemma SubmitKeeps(keccak: Hash, a: State, msg: Msg, ctx: Context, b: State)
    requires Inv(keccak, a) && msg.SubmitMsg? && Counter(a) + 1 < TWO_64
    requires b == AppendRecord(a, msg, ctx, msg.dataHash, msg.metadata)
    ensures Inv(keccak, b) && Extends(a, b) && Counter(b) == Counter(a) + 1
  {
    hide EnergyId, IdNumber, AppendRecord, IndexAgrees, Reverifiable;
    EnergyIdInjective(Counter(a) + 1);
    AppendRecordKeeps(a, msg, ctx, msg.dataHash, msg.metadata, EnergyId(Counter(a) + 1), b);
    OldBatchesStay(keccak, a, b);
  }

  lemma BumpedKeeps(a: State)
    requires RecordsWellFormed(a) && Counter(a) + 1 < TWO_64
    ensures RecordsWellFormed(Bumped(a)) && Extends(a, Bumped(a)) && Counter(Bumped(a)) == Counter(a) + 1
  {
    hide EnergyId, IdNumber, IndexAgrees;
  }

  /** The stored records of a batch carry the hashes that were declared with it. */
  lemma StoredHashesAreDeclared(b: State, msg: Msg, ctx: Context, c: nat)
    requires msg.BatchMsg? && ItemsStored(b, msg, ctx, c, |msg.items|)
    ensures StoredHashes(b.records, c + 1, |msg.items|) == DataHashes(msg.items)
  {
    hide EnergyId;
    var l, r := StoredHashes(b.records, c + 1, |msg.items|), DataHashes(msg.items);
    forall i | 0 <= i < |l|
      ensures l[i] == r[i]
    {
      var m := c + 1 + i;
      assert EnergyId(m) in b.records && b.records[EnergyId(m)].dataHash == msg.items[m - c - 1].dataHash;
    }
  }

  /** The batch that a message appends can be verified again from what the message stored. */
  lemma NewBatchReverifiable(keccak: Hash, b0: State, msg: Msg, ctx: Context, id: Bytes, c: nat, b: State)
    requires msg.BatchMsg? && 0 < |msg.items| < TWO_32 && Accepts(keccak, DataHashes(msg.items), msg.merkleRoot)
    requires 1 <= c && id == EnergyId(c) && Counter(b0) == c + |msg.items| && id !in b0.records
    requires ItemsStored(b0, msg, ctx, c, |msg.items|)
    requires b == b0.(batches := b0.batches[id := BatchFor(msg, ctx, id)])
    ensures Reverifiable(keccak, b, id)
  {
    EnergyIdInjective(c);
    StoredHashesAreDeclared(b0, msg, ctx, c);
    hide EnergyId, IdNumber, Accepts, StoredHashes, DataHashes;
    forall m | c < m <= c + |msg.items|
      ensures EnergyId(m) in b.records && BelongsTo(b.records[EnergyId(m)], b.batches[id])
    {
      assert EnergyId(m) in b0.records;
    }
  }

  lemma AddedBatchKeeps(keccak: Hash, a: State, b0: State, id: Bytes, batch: BatchSubmission, b: State)
    requires Inv(keccak, a) && Extends(a, b0) && b0.batches == a.batches && RecordsWellFormed(b0)
    requires forall x :: x in b0.records && x !in a.records ==> Counter(a) < IdNumber(x)
    requires b == b0.(batches := b0.batches[id := batch]) && batch.id == id && IdNumber(id) > Counter(a)
    requires Reverifiable(keccak, b, id)
    ensures Inv(keccak, b) && Extends(a, b)
  {
    hide EnergyId, IdNumber, Accepts, StoredHashes, IndexAgrees;
    assert id !in a.batches;
    assert Extends(a, b);
    OldBatchesStay(keccak, a, b);
    forall i, j | i in b.batches && j in b.batches && i != j
      ensures Disjoint(b.batches[i], b.batches[j])
    {
      assert i in a.batches ==> Reverifiable(keccak, a, i);
      assert j in a.batches ==> Reverifiable(keccak, a, j);
    }
  }

  lemma AcceptedIsNonEmpty(keccak: Hash, items: seq<BatchItem>, root: Bytes)
    requires Accepts(keccak, DataHashes(items), root)
    ensures items != []
  {}

  /** The batch takes the next identifier and its items the identifiers right after it. */
  lemma ItemsFollowBatch(a: State, msg: Msg, ctx: Context, b0: State)
    requires RecordsWellFormed(a) && msg.BatchMsg? && Counter(a) + 1 + |msg.items| < TWO_64
    requires b0 == AppendItems(Bumped(a), msg, ctx, |msg.items|)
    ensures RecordsWellFormed(b0) && Extends(a, b0) && b0.batches == a.batches
    ensures Counter(b0) == Counter(a) + 1 + |msg.items|
    ensures forall x :: x in b0.records && x !in a.records ==> Counter(a) + 1 < IdNumber(x)
    ensures ItemsStored(b0, msg, ctx, Counter(a) + 1, |msg.items|)
    ensures EnergyId(Counter(a) + 1) !in b0.records
  {
    hide EnergyId, IdNumber, IndexAgrees, AppendItems, ItemsStored;
    BumpedKeeps(a);
    AppendItemsKeeps(Bumped(a), msg, ctx, |msg.items|, b0);
    EnergyIdInjective(Counter(a) + 1);
    FreshId(a);
  }

  lemma BatchKeeps(keccak: Hash, a: State, msg: Msg, ctx: Context, id: Bytes, b0: State, b: State)
    requires Inv(keccak, a) && msg.BatchMsg? && Counter(a) + 1 + |msg.items| < TWO_64 && |msg.items| < TWO_32
    requires Accepts(keccak, DataHashes(msg.items), msg.merkleRoot)
    requires id == EnergyId(Counter(a) + 1) && b0 == AppendItems(Bumped(a), msg, ctx, |msg.items|)
    requires b == b0.(batches := b0.batches[id := BatchFor(msg, ctx, id)])
    ensures Inv(keccak, b) && Extends(a, b) && Counter(b) == Counter(a) + 1 + |msg.items|
  {
    AcceptedIsNonEmpty(keccak, msg.items, msg.merkleRoot);
    EnergyIdInjective(Counter(a) + 1);
    ItemsFollowBatch(a, msg, ctx, b0);
    hide EnergyId, IdNumber, Accepts, StoredHashes, IndexAgrees, AppendItems, Reverifiable, ItemsStored;
    NewBatchReverifiable(keccak, b0, msg, ctx, id, Counter(a) + 1, b);
    AddedBatchKeeps(keccak, a, b0, id, BatchFor(msg, ctx, id), b);
  }
}
