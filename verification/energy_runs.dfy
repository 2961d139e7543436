/** Theorems about every run of the energy module: re-verifiable batches, append-only tables and exact
    index queries. */
module EnergyRuns {
  import opened ByteStrings
  import opened Scan
  import opened Merkle
  import opened Energy

  // ---------- one message ----------

  /** The record tells who submitted what, in which category and when. */
  predicate Carries(d: EnergyData, msg: Msg, ctx: Context)
    requires msg.SubmitMsg?
  {
    && d.submitter == msg.submitter && d.category == msg.category && d.timestamp == ctx.blockTime
    && d.dataHash == msg.dataHash && d.metadata == msg.metadata && d.blockHeight == ctx.blockHeight
  }

  /** The batch tells who declared which root, in which category and when. */
  predicate Declares(b: BatchSubmission, msg: Msg, ctx: Context)
    requires msg.BatchMsg?
  {
    && b.submitter == msg.submitter && b.category == msg.category && b.timestamp == ctx.blockTime
    && b.merkleRoot == msg.merkleRoot && b.dataCount == |msg.items|
  }

  /** Every message keeps the invariant, writes only under new identifiers, and a refused message
      changes nothing. */
  lemma HandleKeeps(keccak: Hash, a: State, msg: Msg, ctx: Context, b: State, r: Response)
    requires Inv(keccak, a) && (b, r) == Handle(keccak, a, msg, ctx)
    requires Counter(a) + Taken(keccak, a, Step(msg, ctx)) < TWO_64 && CountFits(keccak, a, Step(msg, ctx))
    ensures Inv(keccak, b) && Extends(a, b) && Counter(b) == Counter(a) + Taken(keccak, a, Step(msg, ctx))
    ensures r.Failed? ==> b == a
    ensures r.Submitted? ==>
      msg.SubmitMsg? && r.id !in a.records && r.id in b.records && Carries(b.records[r.id], msg, ctx)
    ensures r.BatchSubmitted? ==>
      msg.BatchMsg? && r.batchID !in a.batches && r.batchID in b.batches && Declares(b.batches[r.batchID], msg, ctx)
  {
    hide EnergyId, IdNumber, Accepts, AppendItems, AppendRecord, Inv;
    if r.Submitted? {
      SubmittedIsNew(keccak, a, msg, ctx);
      SubmitKeeps(keccak, a, msg, ctx, b);
    } else if r.BatchSubmitted? {
      BatchIsNew(keccak, a);
      var id, b0 := EnergyId(Counter(a) + 1), AppendItems(Bumped(a), msg, ctx, |msg.items|);
      BatchKeeps(keccak, a, msg, ctx, id, b0, b);
    }
  }

  lemma SubmittedIsNew(keccak: Hash, a: State, msg: Msg, ctx: Context)
    requires Inv(keccak, a) && msg.SubmitMsg? && Counter(a) + 1 < TWO_64
    ensures EnergyId(Counter(a) + 1) !in a.records
    ensures var id, b := EnergyId(Counter(a) + 1), AppendRecord(a, msg, ctx, msg.dataHash, msg.metadata);
      id in b.records && Carries(b.records[id], msg, ctx)
  {
    FreshId(a);
  }

  lemma BatchIsNew(keccak: Hash, a: State)
    requires Inv(keccak, a)
    ensures EnergyId(Counter(a) + 1) !in a.batches
  {
    EnergyIdInjective(Counter(a) + 1);
    hide EnergyId, IdNumber, Accepts, RecordsWellFormed;
    var id := EnergyId(Counter(a) + 1);
    assert id in a.batches ==> Reverifiable(keccak, a, id);
  }

  /** A submission is accepted exactly from a listed submitter, or from anyone without a list. */
  lemma SubmissionAcceptedIff(keccak: Hash, a: State, msg: Msg, ctx: Context)
    requires msg.SubmitMsg?
    ensures var r := Handle(keccak, a, msg, ctx).1;
      && (r.Submitted? <==>
           || a.params == None || a.params.value.allowedSubmitters == []
           || msg.submitter in a.params.value.allowedSubmitters)
      && (!r.Submitted? ==> r == Failed(NotAllowed))
  {
    hide AppendRecord, EnergyId;
  }

  /** A batch below 2^32 items is accepted exactly from an allowed submitter, with at least one and at
      most the permitted number of items (100 without parameters), and the root of its data hashes in
      hexadecimal, bare or after 0x or 0X, in any letter case. */
  lemma BatchAcceptedIff(keccak: Hash, a: State, msg: Msg, ctx: Context)
    requires msg.BatchMsg? && |msg.items| < TWO_32
    ensures Handle(keccak, a, msg, ctx).1.BatchSubmitted? <==>
      && (|| a.params == None || a.params.value.allowedSubmitters == []
          || msg.submitter in a.params.value.allowedSubmitters)
      && 0 < |msg.items| <= (if a.params == None then 100 else a.params.value.maxBatchSize)
      && var declared, hex := msg.merkleRoot, Hex(RootOf(keccak, DataHashes(msg.items)));
         || (|declared| == |hex| &&
             forall i :: 0 <= i < |hex| ==>
               declared[i] == hex[i] || (97 <= hex[i] <= 102 && declared[i] == hex[i] - 32))
         || (|declared| == |hex| + 2 && declared[0] == 48 && declared[1] in {88, 120} &&
             forall i :: 0 <= i < |hex| ==>
               declared[i + 2] == hex[i] || (97 <= hex[i] <= 102 && declared[i + 2] == hex[i] - 32))
  {
    if msg.items != [] {
      AcceptedSpellings(keccak, DataHashes(msg.items), msg.merkleRoot);
    }
    hide Hex, RootOf, AppendItems, EnergyId, Accepts;
    assert Accepts(keccak, DataHashes(msg.items), msg.merkleRoot) ==> msg.items != [] by {
      AcceptedHasItems(keccak, msg.items, msg.merkleRoot);
    }
  }

  lemma AcceptedHasItems(keccak: Hash, items: seq<BatchItem>, root: Bytes)
    ensures Accepts(keccak, DataHashes(items), root) ==> items != []
  {}

  /** An accepted batch takes the next number, and its items the numbers after it, with all their fields. */
  lemma BatchStoresItems(keccak: Hash, a: State, msg: Msg, ctx: Context, b: State, r: Response)
    requires Inv(keccak, a) && msg.BatchMsg? && (b, r) == Handle(keccak, a, msg, ctx) && r.BatchSubmitted?
    requires Counter(a) + 1 + |msg.items| < TWO_64 && |msg.items| < TWO_32
    ensures r.batchID == EnergyId(Counter(a) + 1) && r.dataCount == |msg.items|
    ensures forall i :: 0 <= i < |msg.items| ==>
      var id, item := EnergyId(Counter(a) + 2 + i), msg.items[i];
      id in b.records &&
      b.records[id] == EnergyData(id, msg.category, msg.submitter, item.dataHash, item.metadata,
                                  ctx.blockHeight, ctx.blockTime)
  {
    hide EnergyId, IdNumber, Accepts, AppendItems, IndexAgrees, RecordsWellFormed, Reverifiable;
    var b0 := AppendItems(Bumped(a), msg, ctx, |msg.items|);
    ItemsFollowBatch(a, msg, ctx, b0);
    assert b.records == b0.records;
    hide Handle, Inv, Extends;
    forall i | 0 <= i < |msg.items|
      ensures EnergyId(Counter(a) + 2 + i) in b.records &&
        b.records[EnergyId(Counter(a) + 2 + i)] ==
          EnergyData(EnergyId(Counter(a) + 2 + i), msg.category, msg.submitter, msg.items[i].dataHash,
                     msg.items[i].metadata, ctx.blockHeight, ctx.blockTime)
    {
      var m := Counter(a) + 2 + i;
      assert Counter(a) + 1 < m <= Counter(a) + 1 + |msg.items| && m - (Counter(a) + 1) - 1 == i;
    }
  }

  /** Why a message is refused, in the order of the checks. */
  lemma RefusalReasons(keccak: Hash, a: State, msg: Msg, ctx: Context)
    requires msg.BatchMsg? && |msg.items| < TWO_32
    ensures var r := Handle(keccak, a, msg, ctx).1;
      && (r == Failed(NotAllowed) <==>
           && a.params.Some? && a.params.value.allowedSubmitters != []
           && msg.submitter !in a.params.value.allowedSubmitters)
      && (r == Failed(BatchTooLarge) ==> |msg.items| > (if a.params == None then 100 else a.params.value.maxBatchSize))
      && (r == Failed(MerkleFailed) ==> |msg.items| <= (if a.params == None then 100 else a.params.value.maxBatchSize))
      && (r == Failed(MerkleFailed) ==> !Accepts(keccak, DataHashes(msg.items), msg.merkleRoot))
  {
    hide Accepts, AppendItems, EnergyId;
  }

  /** The stored count is a 32-bit conversion: it is the number of items exactly below 2^32, and a
      batch whose count wraps to 0 cannot be verified again. */
  lemma CountIsExactIff(keccak: Hash, a: State, msg: Msg, ctx: Context, b: State, id: Bytes, count: uint32)
    requires msg.BatchMsg? && (b, BatchSubmitted(id, count)) == Handle(keccak, a, msg, ctx)
    ensures id in b.batches && b.batches[id].dataCount == count
    ensures count == |msg.items| <==> |msg.items| < TWO_32
    ensures |msg.items| % TWO_32 == 0 ==> !Reverifiable(keccak, b, id)
  {
    hide EnergyId, IdNumber, Accepts, AppendItems;
  }

  // ---------- all runs ----------

  lemma ExtendsTransitive(a: State, b: State, c: State)
    requires Extends(a, b) && Extends(b, c)
    ensures Extends(a, c)
  {}

  /** Append-only and re-verifiable: whatever the messages, every record and batch stored so far
      stays as it is, and every batch can be verified again from the stored records. */
  lemma {:induction false} RunKeeps(keccak: Hash, a: State, steps: seq<Step>)
    requires Inv(keccak, a) && WithinBounds(keccak, a, steps)
    ensures Inv(keccak, Run(keccak, a, steps)) && Extends(a, Run(keccak, a, steps))
    decreases |steps|
  {
    hide Accepts, Handle, Inv, Taken, CountFits;
    if steps != [] {
      var (b, r) := Handle(keccak, a, steps[0].msg, steps[0].ctx);
      HandleKeeps(keccak, a, steps[0].msg, steps[0].ctx, b, r);
      RunKeeps(keccak, b, steps[1..]);
      ExtendsTransitive(a, b, Run(keccak, b, steps[1..]));
    }
  }

  lemma {:induction false} RunConcat(keccak: Hash, a: State, s: seq<Step>, t: seq<Step>)
    ensures Run(keccak, a, s + t) == Run(keccak, Run(keccak, a, s), t)
    decreases |s|
  {
    hide Handle;
    if s == [] {
      assert s + t == t;
    } else {
      assert (s + t)[1..] == s[1..] + t;
      RunConcat(keccak, Handle(keccak, a, s[0].msg, s[0].ctx).0, s[1..], t);
    }
  }

  /** The state after a genesis that holds only parameters. */
  function Genesis(params: Params): State {
    EMPTY.(params := Some(params))
  }

  lemma GenesisInv(keccak: Hash, params: Params)
    ensures Inv(keccak, Genesis(params))
  {}

  /** In every state reachable from an empty genesis, for every stored batch number b with n items:
      records b+1 to b+n exist with its submitter, category and time, their hashes still give
      its root, and no other batch uses those numbers. */
  lemma BatchesStayVerifiable(keccak: Hash, params: Params, steps: seq<Step>, id: Bytes)
    requires WithinBounds(keccak, Genesis(params), steps)
    requires id in Run(keccak, Genesis(params), steps).batches
    ensures var a := Run(keccak, Genesis(params), steps); var b, n := a.batches[id], IdNumber(id);
      && n >= 1 && id == EnergyId(n) && 0 < b.dataCount
      && (forall m :: n < m <= n + b.dataCount ==> EnergyId(m) in a.records && BelongsTo(a.records[EnergyId(m)], b))
      && Accepts(keccak, StoredHashes(a.records, n + 1, b.dataCount), b.merkleRoot)
      && (forall other :: other in a.batches && other != id ==> Disjoint(b, a.batches[other]))
  {
    hide Accepts, StoredHashes, EnergyId, IdNumber;
    GenesisInv(keccak, params);
    RunKeeps(keccak, Genesis(params), steps);
    assert Reverifiable(keccak, Run(keccak, Genesis(params), steps), id);
  }

  /** A record read at any point of a run reads the same at every later point. */
  lemma RecordsNeverChange(keccak: Hash, params: Params, before: seq<Step>, after: seq<Step>, id: Bytes)
    requires WithinBounds(keccak, Genesis(params), before + after)
    requires id in Run(keccak, Genesis(params), before).records
    ensures id in Run(keccak, Genesis(params), before + after).records
    ensures Run(keccak, Genesis(params), before + after).records[id] == Run(keccak, Genesis(params), before).records[id]
  {
    var a := Genesis(params);
    WithinBoundsSplits(keccak, a, before, after);
    GenesisInv(keccak, params);
    RunConcat(keccak, a, before, after);
    RunKeeps(keccak, a, before);
    RunKeeps(keccak, Run(keccak, a, before), after);
  }

  /** The counter counts exactly the identifiers taken. */
  lemma {:induction false} RunCounter(keccak: Hash, a: State, steps: seq<Step>)
    requires Inv(keccak, a) && WithinBounds(keccak, a, steps)
    ensures Counter(Run(keccak, a, steps)) == Counter(a) + IdsTaken(keccak, a, steps)
    decreases |steps|
  {
    hide Accepts, Handle, Inv, Taken, CountFits;
    if steps != [] {
      var (b, r) := Handle(keccak, a, steps[0].msg, steps[0].ctx);
      HandleKeeps(keccak, a, steps[0].msg, steps[0].ctx, b, r);
      RunCounter(keccak, b, steps[1..]);
    }
  }

  lemma {:induction false} BoundsConcat(keccak: Hash, a: State, s: seq<Step>, t: seq<Step>)
    ensures IdsTaken(keccak, a, s + t) == IdsTaken(keccak, a, s) + IdsTaken(keccak, Run(keccak, a, s), t)
    ensures CountsFit(keccak, a, s + t) <==> CountsFit(keccak, a, s) && CountsFit(keccak, Run(keccak, a, s), t)
    decreases |s|
  {
    hide Handle, Taken, CountFits;
    if s == [] {
      assert s + t == t;
    } else {
      assert (s + t)[1..] == s[1..] + t;
      BoundsConcat(keccak, Handle(keccak, a, s[0].msg, s[0].ctx).0, s[1..], t);
    }
  }

  lemma WithinBoundsSplits(keccak: Hash, a: State, s: seq<Step>, t: seq<Step>)
    requires Inv(keccak, a) && WithinBounds(keccak, a, s + t)
    ensures WithinBounds(keccak, a, s) && WithinBounds(keccak, Run(keccak, a, s), t)
  {
    hide Inv, Run, IdsTaken, CountsFit;
    BoundsConcat(keccak, a, s, t);
    RunCounter(keccak, a, s);
  }

  // ---------- who is in the tables ----------

  /** Every stored record and batch comes from a listed submitter. */
  ghost predicate FromListed(a: State, list: seq<Bytes>) {
    && (forall x :: x in a.records ==> a.records[x].submitter in list)
    && (forall x :: x in a.batches ==> a.batches[x].submitter in list)
  }

  lemma {:induction false} ItemsFromListed(a: State, msg: Msg, ctx: Context, n: nat, list: seq<Bytes>)
    requires msg.BatchMsg? && n <= |msg.items| && FromListed(a, list) && msg.submitter in list
    ensures FromListed(AppendItems(a, msg, ctx, n), list) && AppendItems(a, msg, ctx, n).params == a.params
  {
    hide EnergyId;
    if n > 0 {
      ItemsFromListed(a, msg, ctx, n - 1, list);
    }
  }

  lemma HandleFromListed(keccak: Hash, a: State, msg: Msg, ctx: Context, list: seq<Bytes>, b: State)
    requires FromListed(a, list) && list != [] && a.params.Some? && a.params.value.allowedSubmitters == list
    requires b == Handle(keccak, a, msg, ctx).0
    ensures FromListed(b, list) && b.params == a.params
  {
    hide EnergyId, Accepts, AppendItems;
    if msg.BatchMsg? && msg.submitter in list {
      assert FromListed(Bumped(a), list);
      ItemsFromListed(Bumped(a), msg, ctx, |msg.items|, list);
    }
  }

  lemma {:induction false} RunFromListed(keccak: Hash, a: State, steps: seq<Step>, list: seq<Bytes>)
    requires FromListed(a, list) && list != [] && a.params.Some? && a.params.value.allowedSubmitters == list
    ensures FromListed(Run(keccak, a, steps), list)
    decreases |steps|
  {
    hide Handle, FromListed;
    if steps != [] {
      var b := Handle(keccak, a, steps[0].msg, steps[0].ctx).0;
      HandleFromListed(keccak, a, steps[0].msg, steps[0].ctx, list, b);
      RunFromListed(keccak, b, steps[1..], list);
    }
  }

  /** In every state reachable from a genesis whose parameters list submitters, however long the run,
      every stored record and batch has a submitter of that list. */
  lemma OnlyListedSubmitters(keccak: Hash, params: Params, steps: seq<Step>, a: State)
    requires params.allowedSubmitters != [] && a == Run(keccak, Genesis(params), steps)
    ensures forall x :: x in a.records ==> a.records[x].submitter in params.allowedSubmitters
    ensures forall x :: x in a.batches ==> a.batches[x].submitter in params.allowedSubmitters
  {
    RunFromListed(keccak, Genesis(params), steps, params.allowedSubmitters);
  }

  // ---------- queries in reachable states ----------

  /** In every reachable state the category query is the filter over all records, in key order,
      exactly when no stored category extends the queried one past a NUL. */
  lemma CategoryQueryExactIff(keccak: Hash, a: State, category: Bytes)
    requires Inv(keccak, a)
    ensures IndexScan(a.records, a.byCategory, category) == Filter(Values(a.records), Named(CategoryOf, category))
       <==> NoNameExtends(a.records, CategoryOf, category)
  {
    WellFormedIsNulFree(a);
    IndexQueryExactIff(a.records, a.byCategory, CategoryOf, category);
  }

  /** The submitter query is exact for every queried string when submitters are NUL-free. */
  lemma SubmitterQueryExact(keccak: Hash, a: State, submitter: Bytes)
    requires Inv(keccak, a)
    requires forall x :: x in a.records ==> NulFree(a.records[x].submitter)
    ensures IndexScan(a.records, a.bySubmitter, submitter) == Filter(Values(a.records), Named(SubmitterOf, submitter))
  {
    WellFormedIsNulFree(a);
    IndexQueryExactIff(a.records, a.bySubmitter, SubmitterOf, submitter);
    forall x | x in a.records
      ensures !(submitter + [0x00] <= a.records[x].submitter)
    {
      var p := submitter + [0x00];
      assert p[|submitter|] == 0;
    }
  }

  /** A category with an inner NUL: one submission under "a\0b" is returned by the query for "a". */
  lemma NulCategoryLeaks(keccak: Hash, a: State, msg: Msg, ctx: Context, b: State)
    requires Inv(keccak, a) && Counter(a) + 1 < TWO_64 && IsAllowed(a, msg.submitter)
    requires msg.SubmitMsg? && msg.category == [97, 0, 98] && b == Handle(keccak, a, msg, ctx).0
    ensures IndexScan(b.records, b.byCategory, [97]) != Filter(Values(b.records), Named(CategoryOf, [97]))
  {
    hide EnergyId, IdNumber, AppendRecord, IndexAgrees, Reverifiable, IndexScan, Values;
    var id := EnergyId(Counter(a) + 1);
    AppendRecordKeeps(a, msg, ctx, msg.dataHash, msg.metadata, id, b);
    SubmitKeeps(keccak, a, msg, ctx, b);
    CategoryQueryExactIff(keccak, b, [97]);
    assert [97] + [0x00] <= b.records[id].category;
  }
}
