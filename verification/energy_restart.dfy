/** The energy module after an export and an import: numbering starts over, and these are the exact
    conditions under which later runs leave the imported records and batches as they are. */
module EnergyRestart {
  import opened ByteStrings
  import opened Scan
  import opened Merkle
  import opened Energy
  import opened EnergyGenesis
  import opened EnergyRuns

  /** x is one of the identifiers numbered lo + 1 to hi. */
  predicate Numbered(x: Bytes, lo: nat, hi: int) {
    lo < IdNumber(x) <= hi && x == EnergyId(IdNumber(x))
  }

  // ---------- what a run writes, from any tables ----------

  /** From lo to hi the counter moved; records outside these numbers stayed, and batches outside
      these numbers or at the last one. */
  ghost predicate Writes(a: State, b: State) {
    && Counter(a) <= Counter(b) && b.params == a.params
    && (forall x :: x in a.records && !Numbered(x, Counter(a), Counter(b)) ==>
        x in b.records && b.records[x] == a.records[x])
    && (forall x :: x in a.batches && !Numbered(x, Counter(a), Counter(b) - 1) ==>
        x in b.batches && b.batches[x] == a.batches[x])
  }

  lemma WritesTransitive(a: State, b: State, c: State)
    requires Writes(a, b) && Writes(b, c)
    ensures Writes(a, c)
  {
    hide EnergyId, IdNumber;
  }

  lemma AppendWrites(a: State, msg: Msg, ctx: Context, h: Bytes, d: Bytes, b: State)
    requires Counter(a) + 1 < TWO_64 && b == AppendRecord(a, msg, ctx, h, d)
    ensures Writes(a, b) && b.batches == a.batches && Counter(b) == Counter(a) + 1
    ensures var id := EnergyId(Counter(a) + 1); id in b.records && b.records[id] == RecordFor(msg, ctx, id, h, d)
  {
    EnergyIdInjective(Counter(a) + 1);
    hide EnergyId, IdNumber;
  }

  lemma {:induction false} ItemsWrite(a: State, msg: Msg, ctx: Context, n: nat, b: State)
    requires msg.BatchMsg? && n <= |msg.items| && Counter(a) + n < TWO_64 && b == AppendItems(a, msg, ctx, n)
    ensures Writes(a, b) && b.batches == a.batches && Counter(b) == Counter(a) + n
  {
    hide AppendRecord, Writes;
    if n > 0 {
      var prev := AppendItems(a, msg, ctx, n - 1);
      ItemsWrite(a, msg, ctx, n - 1, prev);
      AppendWrites(prev, msg, ctx, msg.items[n - 1].dataHash, msg.items[n - 1].metadata, b);
      WritesTransitive(a, prev, b);
    } else {
      WritesNothing(a);
    }
  }

  lemma WritesNothing(a: State)
    ensures Writes(a, a)
  {}

  lemma BumpWrites(a: State, b0: State)
    requires Counter(a) + 1 < TWO_64 && Writes(Bumped(a), b0)
    ensures Writes(a, b0) && Counter(Bumped(a)) == Counter(a) + 1
  {
    hide EnergyId, IdNumber;
  }

  lemma PutBatchWrites(a: State, b0: State, batch: BatchSubmission, b: State)
    requires Writes(a, b0) && Counter(a) + 1 < Counter(b0) &&
      b == b0.(batches := b0.batches[EnergyId(Counter(a) + 1) := batch])
    ensures Writes(a, b)
  {
    EnergyIdInjective(Counter(a) + 1);
    hide EnergyId, IdNumber;
  }

  lemma BatchWrites(a: State, msg: Msg, ctx: Context, batch: BatchSubmission, b0: State, b: State)
    requires msg.BatchMsg? && 0 < |msg.items| && Counter(a) + 1 + |msg.items| < TWO_64
    requires b0 == AppendItems(Bumped(a), msg, ctx, |msg.items|)
    requires b == b0.(batches := b0.batches[EnergyId(Counter(a) + 1) := batch])
    ensures Writes(a, b) && Counter(b) == Counter(a) + 1 + |msg.items|
  {
    hide EnergyId, AppendItems, Writes;
    ItemsWrite(Bumped(a), msg, ctx, |msg.items|, b0);
    BumpWrites(a, b0);
    PutBatchWrites(a, b0, batch, b);
  }

  lemma HandleWrites(keccak: Hash, a: State, step: Step, b: State)
    requires b == Handle(keccak, a, step.msg, step.ctx).0 && Counter(a) + Taken(keccak, a, step) < TWO_64
    ensures Writes(a, b) && Counter(b) == Counter(a) + Taken(keccak, a, step)
  {
    var msg, ctx := step.msg, step.ctx;
    var r := Handle(keccak, a, msg, ctx).1;
    WritesNothing(a);
    if r.Submitted? {
      AppendWrites(a, msg, ctx, msg.dataHash, msg.metadata, b);
    } else if r.BatchSubmitted? {
      AcceptedIsNonEmpty(keccak, msg.items, msg.merkleRoot);
      hide AppendItems, Accepts, EnergyId, Writes;
      BatchWrites(a, msg, ctx, BatchFor(msg, ctx, EnergyId(Counter(a) + 1)),
        AppendItems(Bumped(a), msg, ctx, |msg.items|), b);
    }
  }

  lemma {:induction false} RunWrites(keccak: Hash, a: State, steps: seq<Step>)
    requires Counter(a) + IdsTaken(keccak, a, steps) < TWO_64
    ensures Writes(a, Run(keccak, a, steps)) && Counter(Run(keccak, a, steps)) ==
      Counter(a) + IdsTaken(keccak, a, steps)
    decreases |steps|
  {
    hide Handle, Taken, Writes;
    if steps == [] {
      WritesNothing(a);
    } else {
      var b := Handle(keccak, a, steps[0].msg, steps[0].ctx).0;
      HandleWrites(keccak, a, steps[0], b);
      RunWrites(keccak, b, steps[1..]);
      WritesTransitive(a, b, Run(keccak, b, steps[1..]));
    }
  }

  // ---------- a run of accepted submissions ----------

  /** Some submitter that the parameters allow. */
  function AllowedSubmitter(a: State): (r: Bytes)
    ensures IsAllowed(a, r)
  {
    if ParamsOf(a).allowedSubmitters == [] then [97] else ParamsOf(a).allowedSubmitters[0]
  }

  lemma SubmissionAccepted(keccak: Hash, a: State, step: Step, b: State)
    requires step.msg.SubmitMsg? && IsAllowed(a, step.msg.submitter) && Counter(a) + 1 < TWO_64
    requires b == Handle(keccak, a, step.msg, step.ctx).0
    ensures Taken(keccak, a, step) == 1 && Counter(b) == Counter(a) + 1 && IsAllowed(b, step.msg.submitter)
    ensures var id := EnergyId(Counter(b));
      id in b.records &&
      b.records[id] == RecordFor(step.msg, step.ctx, id, step.msg.dataHash, step.msg.metadata)
  {
    hide EnergyId;
  }

  lemma FirstOfRun(keccak: Hash, a: State, step: Step, rest: seq<Step>, b: State)
    requires b == Handle(keccak, a, step.msg, step.ctx).0
    ensures Run(keccak, a, [step] + rest) == Run(keccak, b, rest)
    ensures IdsTaken(keccak, a, [step] + rest) == Taken(keccak, a, step) + IdsTaken(keccak, b, rest)
  {
    hide Handle, Taken;
    assert ([step] + rest)[1..] == rest;
  }

  /** k submissions of an allowed submitter are all accepted; the last is stored as number c + k. */
  lemma {:induction false} RepeatedSubmission(keccak: Hash, a: State, step: Step, k: nat)
    requires step.msg.SubmitMsg? && IsAllowed(a, step.msg.submitter) && 0 < k && Counter(a) + k < TWO_64
    ensures IdsTaken(keccak, a, Repeat(step, k)) == k
    ensures var b, id := Run(keccak, a, Repeat(step, k)), EnergyId(Counter(a) + k);
      id in b.records && b.records[id] == RecordFor(step.msg, step.ctx, id, step.msg.dataHash, step.msg.metadata)
    decreases k
  {
    hide EnergyId, Handle, Taken, IsAllowed, RecordFor, Counter;
    var b := Handle(keccak, a, step.msg, step.ctx).0;
    SubmissionAccepted(keccak, a, step, b);
    FirstOfRun(keccak, a, step, Repeat(step, k - 1), b);
    if k > 1 {
      RepeatedSubmission(keccak, b, step, k - 1);
    }
  }

  // ---------- records ----------

  /** No record is called energy-1 to energy-n. */
  ghost predicate FirstIdsFree(a: State, n: nat) {
    forall m :: 1 <= m <= n ==> EnergyId(m) !in a.records
  }

  /** With the first n numbers free of records, the first n - 1 are free of batches. */
  lemma FreeOfBatches(keccak: Hash, a: State, n: nat, id: Bytes)
    requires Inv(keccak, a) && FirstIdsFree(a, n) && id in a.batches
    ensures n <= IdNumber(id)
  {
    hide EnergyId, IdNumber, Accepts, StoredHashes;
    assert Reverifiable(keccak, a, id);
    assert EnergyId(IdNumber(id) + 1) in a.records;
  }

  lemma NumbersFree(a: State, n: nat, k: nat)
    requires FirstIdsFree(a, n) && k <= n
    ensures forall x :: x in a.records ==> !Numbered(x, 0, k)
  {
    hide EnergyId, IdNumber;
  }

  lemma FreeIdsExtend(keccak: Hash, a: State, b: State, c: State, n: nat)
    requires Inv(keccak, a) && b == a.(counter := None) && FirstIdsFree(a, n)
    requires Writes(b, c) && Counter(c) <= n
    ensures Extends(b, c)
  {
    NumbersFree(a, n, Counter(c));
    hide EnergyId, IdNumber, Inv, FirstIdsFree;
    forall id | id in b.batches
      ensures !Numbered(id, 0, Counter(c) - 1)
    {
      FreeOfBatches(keccak, a, n, id);
    }
  }

  /** A run that submits another hash under a number that a record has. */
  lemma TakenIdIsOverwritten(keccak: Hash, b: State, m: nat) returns (steps: seq<Step>)
    requires b.counter == None && 0 < m < TWO_64 && EnergyId(m) in b.records
    ensures IdsTaken(keccak, b, steps) == m && !Extends(b, Run(keccak, b, steps))
  {
    var h := b.records[EnergyId(m)].dataHash + [97];
    var step := Step(SubmitMsg(AllowedSubmitter(b), [97], h, []), Context(0, 0));
    hide EnergyId, Run, IdsTaken;
    steps := Repeat(step, m);
    RepeatedSubmission(keccak, b, step, m);
    assert |h| > |b.records[EnergyId(m)].dataHash|;
    assert Run(keccak, b, steps).records[EnergyId(m)].dataHash == h;
  }

  lemma RestartAppendOnlyIff(keccak: Hash, a: State, b: State, n: nat)
    requires Inv(keccak, a) && b == a.(counter := None) && n < TWO_64
    ensures (forall steps: seq<Step> :: IdsTaken(keccak, b, steps) <= n ==> Extends(b, Run(keccak, b, steps)))
       <==> FirstIdsFree(a, n)
  {
    hide EnergyId, Extends, Run, IdsTaken, Inv, Writes;
    if FirstIdsFree(a, n) {
      forall steps: seq<Step> | IdsTaken(keccak, b, steps) <= n
        ensures Extends(b, Run(keccak, b, steps))
      {
        RunWrites(keccak, b, steps);
        FreeIdsExtend(keccak, a, b, Run(keccak, b, steps), n);
      }
    } else {
      var m :| 1 <= m <= n && EnergyId(m) in a.records;
      var steps := TakenIdIsOverwritten(keccak, b, m);
    }
  }

  /** After a round trip numbering starts over at energy-1. Every later run that takes at most n
      identifiers, by submissions and batches in any order, leaves all records and batches as they
      are exactly when no record is called energy-1 to energy-n. */
  lemma AppendOnlyAfterImportIff(keccak: Hash, a: State, b: State, n: nat)
    requires Inv(keccak, a) && a.params.Some? && b == Import(EMPTY, Export(a)) && n < TWO_64
    ensures (forall steps: seq<Step> :: IdsTaken(keccak, b, steps) <= n ==> Extends(b, Run(keccak, b, steps)))
       <==> FirstIdsFree(a, n)
  {
    hide *;
    RoundTripLosesCounter(keccak, a);
    RestartAppendOnlyIff(keccak, a, b, n);
  }

  lemma AllFreeIffEmpty(keccak: Hash, a: State)
    requires Inv(keccak, a)
    ensures FirstIdsFree(a, TWO_64 - 1) <==> a.records == map[]
  {
    hide EnergyId, IdNumber, IndexAgrees, Reverifiable;
    if x :| x in a.records {
      assert !FirstIdsFree(a, TWO_64 - 1);
    } else {
      assert a.records == map[];
    }
  }

  /** Every later run is append-only, up to the wrap of the counter, only after an export without records. */
  lemma SafeForeverIff(keccak: Hash, a: State, b: State)
    requires Inv(keccak, a) && a.params.Some? && b == Import(EMPTY, Export(a))
    ensures (forall steps: seq<Step> :: IdsTaken(keccak, b, steps) < TWO_64 ==> Extends(b, Run(keccak, b, steps)))
       <==> a.records == map[]
  {
    AllFreeIffEmpty(keccak, a);
    hide *;
    AppendOnlyAfterImportIff(keccak, a, b, TWO_64 - 1);
  }

  // ---------- any genesis ----------

  /** No batch is called energy-1 to energy-(n-1). */
  ghost predicate FirstBatchesFree(a: State, n: nat) {
    forall m :: 1 <= m < n ==> EnergyId(m) !in a.batches
  }

  lemma FreeNumbersExtend(b: State, c: State, n: nat)
    requires b.counter == None && FirstIdsFree(b, n) && FirstBatchesFree(b, n)
    requires Writes(b, c) && Counter(c) <= n
    ensures Extends(b, c)
  {
    NumbersFree(b, n, Counter(c));
    hide EnergyId, IdNumber, FirstIdsFree;
  }

  /** A batch of one item from an allowed submitter, with the right root. */
  function OneItemBatch(keccak: Hash, submitter: Bytes, t: int64): Step {
    Step(BatchMsg(submitter, [97], [BatchItem([97], [])], Hex(RootOf(keccak, [[97]]))), Context(0, t))
  }

  lemma OneItemBatchAccepted(keccak: Hash, a: State, submitter: Bytes, t: int64)
    requires IsAllowed(a, submitter) && ParamsOf(a).maxBatchSize > 0
    ensures var step := OneItemBatch(keccak, submitter, t); Handle(keccak, a, step.msg, step.ctx).1.BatchSubmitted?
  {
    var step := OneItemBatch(keccak, submitter, t);
    assert DataHashes(step.msg.items) == [[97]];
    hide Hex, RootOf, Handle, DataHashes;
    BatchAcceptedIff(keccak, a, step.msg, step.ctx);
  }

  lemma OneItemBatchWrites(keccak: Hash, a: State, submitter: Bytes, t: int64, b: State)
    requires IsAllowed(a, submitter) && ParamsOf(a).maxBatchSize > 0 && Counter(a) + 1 < TWO_64
    requires var step := OneItemBatch(keccak, submitter, t); b == Handle(keccak, a, step.msg, step.ctx).0
    ensures Taken(keccak, a, OneItemBatch(keccak, submitter, t)) == 2
    ensures EnergyId(Counter(a) + 1) in b.batches && b.batches[EnergyId(Counter(a) + 1)].timestamp == t
  {
    OneItemBatchAccepted(keccak, a, submitter, t);
    hide EnergyId, Hex, RootOf, AppendItems, Accepts, IsAllowed;
  }

  lemma RepeatedTaken(keccak: Hash, a: State, step: Step, k: nat)
    requires step.msg.SubmitMsg? && IsAllowed(a, step.msg.submitter) && Counter(a) + k < TWO_64
    ensures var b := Run(keccak, a, Repeat(step, k));
      IdsTaken(keccak, a, Repeat(step, k)) == k && Counter(b) == Counter(a) + k && b.params == a.params
  {
    hide EnergyId, Handle, Taken, IsAllowed;
    if k > 0 {
      RepeatedSubmission(keccak, a, step, k);
      RunWrites(keccak, a, Repeat(step, k));
    }
  }

  lemma OneStepRun(keccak: Hash, a: State, step: Step)
    ensures Run(keccak, a, [step]) == Handle(keccak, a, step.msg, step.ctx).0
    ensures IdsTaken(keccak, a, [step]) == Taken(keccak, a, step)
  {
    FirstOfRun(keccak, a, step, [], Handle(keccak, a, step.msg, step.ctx).0);
    assert [step] + [] == [step];
    hide Handle, Taken;
  }

  /** A run that submits another batch under the number of a batch. */
  lemma TakenBatchIsOverwritten(keccak: Hash, b: State, m: nat) returns (steps: seq<Step>)
    requires b.counter == None && ParamsOf(b).maxBatchSize > 0 && 0 < m && m + 1 < TWO_64 && EnergyId(m) in b.batches
    ensures IdsTaken(keccak, b, steps) == m + 1 && !Extends(b, Run(keccak, b, steps))
  {
    hide EnergyId, Run, IdsTaken, Handle, Taken, OneItemBatch, IsAllowed;
    var submitter, t := AllowedSubmitter(b), if b.batches[EnergyId(m)].timestamp == 0 then 1 else 0;
    var filler := Step(SubmitMsg(submitter, [97], [97], []), Context(0, 0));
    var before := Repeat(filler, m - 1);
    RepeatedTaken(keccak, b, filler, m - 1);
    var c, last := Run(keccak, b, before), OneItemBatch(keccak, submitter, t);
    AllowedStays(b, c, submitter);
    OneItemBatchWrites(keccak, c, submitter, t, Handle(keccak, c, last.msg, last.ctx).0);
    OneStepRun(keccak, c, last);
    steps := before + [last];
    RunConcat(keccak, b, before, [last]);
    BoundsConcat(keccak, b, before, [last]);
  }

  lemma AllowedStays(b: State, c: State, submitter: Bytes)
    requires IsAllowed(b, submitter) && b.params == c.params
    ensures IsAllowed(c, submitter) && ParamsOf(c) == ParamsOf(b)
  {}

  /** For any tables without a counter: all runs that take at most n identifiers are append-only
      exactly when no record is called energy-1 to energy-n and no batch energy-1 to energy-(n-1). */
  lemma AppendOnlyWithoutCounterIff(keccak: Hash, b: State, n: nat)
    requires b.counter == None && ParamsOf(b).maxBatchSize > 0 && n < TWO_64
    ensures (forall steps: seq<Step> :: IdsTaken(keccak, b, steps) <= n ==> Extends(b, Run(keccak, b, steps)))
       <==> FirstIdsFree(b, n) && FirstBatchesFree(b, n)
  {
    hide EnergyId, Extends, Run, IdsTaken, Writes;
    if FirstIdsFree(b, n) && FirstBatchesFree(b, n) {
      forall steps: seq<Step> | IdsTaken(keccak, b, steps) <= n
        ensures Extends(b, Run(keccak, b, steps))
      {
        RunWrites(keccak, b, steps);
        FreeNumbersExtend(b, Run(keccak, b, steps), n);
      }
    } else if !FirstIdsFree(b, n) {
      var m :| 1 <= m <= n && EnergyId(m) in b.records;
      var steps := TakenIdIsOverwritten(keccak, b, m);
    } else {
      var m :| 1 <= m < n && EnergyId(m) in b.batches;
      var steps := TakenBatchIsOverwritten(keccak, b, m);
    }
  }

  /** The same for every valid genesis, exported by a run or written by hand. */
  lemma AppendOnlyAfterGenesisIff(keccak: Hash, gs: GenesisState, b: State, n: nat)
    requires ValidGenesis(gs) && b == Import(EMPTY, gs) && n < TWO_64
    ensures (forall steps: seq<Step> :: IdsTaken(keccak, b, steps) <= n ==> Extends(b, Run(keccak, b, steps)))
       <==> FirstIdsFree(b, n) && FirstBatchesFree(b, n)
  {
    ImportIsFaithful(gs, b);
    hide Import, Run, IdsTaken, Extends, FirstIdsFree, FirstBatchesFree;
    AppendOnlyWithoutCounterIff(keccak, b, n);
  }

  // ---------- batches ----------

  /** The batch is still the same and still verifies from the stored records. */
  ghost predicate StillVerifies(keccak: Hash, b: State, c: State, id: Bytes)
    requires id in b.batches && IdNumber(id) >= 0
  {
    id in c.batches && c.batches[id] == b.batches[id] && RecordsVerify(keccak, c, b.batches[id], IdNumber(id))
  }

  lemma UnreachedBatchVerifies(keccak: Hash, a: State, b: State, c: State, id: Bytes)
    requires id in a.batches && Reverifiable(keccak, a, id) && b == a.(counter := None)
    requires Writes(b, c) && Counter(c) <= IdNumber(id)
    ensures StillVerifies(keccak, b, c, id)
  {
    var q, batch := IdNumber(id), a.batches[id];
    hide EnergyId, IdNumber, Accepts, StoredHashes, BelongsTo;
    forall m | q < m <= q + batch.dataCount
      ensures EnergyId(m) in c.records && c.records[EnergyId(m)] == a.records[EnergyId(m)]
    {
      EnergyIdInjective(m);
      assert EnergyId(m) in a.records;
    }
    VerifyStays(keccak, a, c, batch, q);
  }

  lemma WrongTimeFails(keccak: Hash, b: State, c: State, id: Bytes, q: nat)
    requires id in b.batches && IdNumber(id) == q && b.batches[id].dataCount > 0
    requires EnergyId(q + 1) in c.records && c.records[EnergyId(q + 1)].timestamp != b.batches[id].timestamp
    ensures !StillVerifies(keccak, b, c, id)
  {
    hide EnergyId, IdNumber, Accepts, StoredHashes;
  }

  lemma ReachedBatchFails(keccak: Hash, b: State, id: Bytes) returns (steps: seq<Step>)
    requires b.counter == None && id in b.batches && b.batches[id].dataCount > 0 && 0 <= IdNumber(id) &&
      IdNumber(id) + 1 < TWO_64
    ensures IdsTaken(keccak, b, steps) == IdNumber(id) + 1
    ensures !StillVerifies(keccak, b, Run(keccak, b, steps), id)
  {
    hide EnergyId, IdNumber, Run, IdsTaken, StillVerifies;
    var q, t := IdNumber(id), if b.batches[id].timestamp == 0 then 1 else 0;
    var step := Step(SubmitMsg(AllowedSubmitter(b), [97], [97], []), Context(0, t));
    steps := Repeat(step, q + 1);
    RepeatedSubmission(keccak, b, step, q + 1);
    WrongTimeFails(keccak, b, Run(keccak, b, steps), id, q);
  }

  /** After a round trip, a batch numbered q stays as it is and verifiable from the stored records
      in every later run that takes at most n identifiers, exactly when n <= q. */
  lemma BatchSurvivesImportIff(keccak: Hash, a: State, b: State, n: nat, id: Bytes)
    requires Inv(keccak, a) && a.params.Some? && b == Import(EMPTY, Export(a)) && n < TWO_64
    requires id in a.batches
    ensures id in b.batches && IdNumber(id) >= 1
    ensures (forall steps: seq<Step> :: IdsTaken(keccak, b, steps) <= n ==>
      StillVerifies(keccak, b, Run(keccak, b, steps), id))
       <==> n <= IdNumber(id)
  {
    RoundTripLosesCounter(keccak, a);
    assert Reverifiable(keccak, a, id);
    hide EnergyId, IdNumber, Accepts, StillVerifies, Run, IdsTaken, Import, Export, RecordsVerify, RecordsWellFormed,
      Writes;
    if n <= IdNumber(id) {
      forall steps: seq<Step> | IdsTaken(keccak, b, steps) <= n
        ensures StillVerifies(keccak, b, Run(keccak, b, steps), id)
      {
        RunWrites(keccak, b, steps);
        UnreachedBatchVerifies(keccak, a, b, Run(keccak, b, steps), id);
      }
    } else {
      var steps := ReachedBatchFails(keccak, b, id);
    }
  }
}
