/** The historical sync followed by polling, over the tables: what serial polling leaves, and when it
    is the same as processing all blocks once. */
module Indexing {
  import opened Scan
  import opened HistoricalSync
  import P = Polling
  import SyncExact

  datatype Indexer = Indexer(poll: P.State, data: State)

  /** The tick whose processing finishes with this action has stored its range. A failed tick stores
      nothing here: only serial runs are considered, in which it had processed nothing. */
  function StepTables(x: Indexer, chain: Chain, a: P.Action): Indexer {
    var data :=
      if a.Finish? && a.id in x.poll.ticks && InChain(chain, x.poll.ticks[a.id])
      then Process(x.data, LogsIn(chain, x.poll.ticks[a.id].from, x.poll.ticks[a.id].to))
      else x.data;
    Indexer(P.Step(x.poll, a), data)
  }

  predicate InChain(chain: Chain, t: P.Tick) {
    t.Processing? && t.from <= t.to < |chain|
  }

  function RunTables(x: Indexer, chain: Chain, acts: seq<P.Action>): Indexer
    decreases |acts|
  {
    if acts == [] then x else RunTables(StepTables(x, chain, acts[0]), chain, acts[1..])
  }

  /** Only blocks of the chain are reported as heads. */
  ghost predicate Reported(chain: Chain, acts: seq<P.Action>) {
    forall a :: a in acts && a.Reply? ==> a.current < |chain|
  }

  // ---------- serial polling ----------

  /** From each of these first heads on, pairs are quiet before their creation. */
  ghost predicate QuietFrom(tracked: set<Address>, chain: Chain, heads: set<nat>) {
    forall h, m: nat, to: nat :: h in heads && h <= m < to < |chain| ==> QuietAround(tracked, chain, h, m, to)
  }

  /** The tables are those of one range from a first head h to the last processed block, and exactly
      these blocks were processed, once each. */
  ghost predicate FromHead(st: State, chain: Chain, data: State, processed: multiset<nat>, h: nat, last: nat) {
    0 < h <= last < |chain| && data == Process(st, LogsIn(chain, h, last)) && processed == P.Blocks(h, last)
  }

  ghost predicate Stored(st: State, chain: Chain, heads: set<nat>, data: State, processed: multiset<nat>, last: nat) {
    if last == 0 then data == st && processed == multiset{}
    else exists h :: h in heads && FromHead(st, chain, data, processed, h, last)
  }

  ghost predicate Inv(st: State, chain: Chain, heads: set<nat>, x: Indexer) {
    && Stored(st, chain, heads, x.data, x.poll.processed, x.poll.lastProcessed)
    && forall id :: id in x.poll.ticks && x.poll.ticks[id].Processing? ==>
         RangeFits(chain, heads, x.poll.lastProcessed, x.poll.ticks[id])
  }

  /** An open range begins after the last processed block, or is a first head alone. */
  predicate RangeFits(chain: Chain, heads: set<nat>, last: nat, t: P.Tick) {
    InChain(chain, t) && 0 < t.from && if last == 0 then t.from == t.to && t.to in heads else t.from == last + 1
  }

  lemma NextRangeJoins(st: State, chain: Chain, heads: set<nat>, h: nat, last: nat, to: nat)
    requires QuietFrom(st.tracked, chain, heads) && h in heads && h <= last < to < |chain|
    ensures Process(Process(st, LogsIn(chain, h, last)), LogsIn(chain, last + 1, to)) ==
      Process(st, LogsIn(chain, h, to))
  {
    hide Process, LogsIn, QuietBefore;
    assert QuietAround(st.tracked, chain, h, last, to);
    ProcessJoin(st, LogsIn(chain, h, last), LogsIn(chain, last + 1, to));
    LogsSplit(chain, h, last, to);
  }

  lemma FinishIs(x: Indexer, chain: Chain, id: nat, y: Indexer)
    requires id in x.poll.ticks && InChain(chain, x.poll.ticks[id]) && y == StepTables(x, chain, P.Finish(id))
    ensures var t := x.poll.ticks[id];
      && y.data == Process(x.data, LogsIn(chain, t.from, t.to))
      && y.poll.lastProcessed == t.to && y.poll.processed == x.poll.processed + P.Blocks(t.from, t.to)
      && y.poll.ticks == x.poll.ticks[id := P.Saving(t.to)]
  {
    hide Process, LogsIn, P.Blocks;
  }

  lemma RangeStored(st: State, chain: Chain, heads: set<nat>, data: State, processed: multiset<nat>, last: nat,
      t: P.Tick)
    requires Stored(st, chain, heads, data, processed, last) && QuietFrom(st.tracked, chain, heads)
    requires RangeFits(chain, heads, last, t)
    ensures Stored(st, chain, heads, Process(data, LogsIn(chain, t.from, t.to)), processed + P.Blocks(t.from, t.to),
      t.to)
  {
    hide Process, LogsIn, QuietFrom, P.Blocks;
    if last == 0 {
      assert processed + P.Blocks(t.to, t.to) == P.Blocks(t.to, t.to);
      assert FromHead(st, chain, Process(data, LogsIn(chain, t.to, t.to)), P.Blocks(t.to, t.to), t.to, t.to);
    } else {
      var h :| h in heads && FromHead(st, chain, data, processed, h, last);
      NextRangeJoins(st, chain, heads, h, last, t.to);
      P.JoinBlocks(h, last, t.to);
      var more := processed + P.Blocks(t.from, t.to);
      assert FromHead(st, chain, Process(data, LogsIn(chain, t.from, t.to)), more, h, t.to);
    }
  }

  lemma FinishStores(st: State, chain: Chain, heads: set<nat>, x: Indexer, id: nat)
    requires Inv(st, chain, heads, x) && P.SerialInv(x.poll) && QuietFrom(st.tracked, chain, heads)
    requires id in x.poll.ticks && x.poll.ticks[id].Processing?
    ensures Inv(st, chain, heads, StepTables(x, chain, P.Finish(id)))
  {
    assert RangeFits(chain, heads, x.poll.lastProcessed, x.poll.ticks[id]);
    var y := StepTables(x, chain, P.Finish(id));
    OnlyOneOpen(x.poll, id);
    hide P.SerialInv, Stored, StepTables, QuietFrom;
    RangeStored(st, chain, heads, x.data, x.poll.processed, x.poll.lastProcessed, x.poll.ticks[id]);
    FinishIs(x, chain, id, y);
  }

  lemma OnlyOneOpen(s: P.State, id: nat)
    requires P.SerialInv(s) && id in s.ticks && s.ticks[id].Processing?
    ensures forall other :: other in s.ticks && s.ticks[other].Processing? ==> other == id
  {}

  lemma OtherStores(st: State, chain: Chain, heads: set<nat>, x: Indexer, a: P.Action)
    requires Inv(st, chain, heads, x) && !a.Finish? && P.SerialStep(x.poll, a)
    requires a.Reply? ==> a.current < |chain|
    requires P.OpensRange(x.poll, a) && x.poll.lastProcessed == 0 ==> a.current in heads
    ensures Inv(st, chain, heads, StepTables(x, chain, a))
  {
    hide Stored, Process, LogsIn, P.Blocks;
    assert StepTables(x, chain, a).data == x.data;
    if a.Fail? && a.id in x.poll.ticks && x.poll.ticks[a.id].Processing? {
      assert x.poll.processed + multiset{} == x.poll.processed;
    }
  }

  lemma StepStores(st: State, chain: Chain, heads: set<nat>, x: Indexer, a: P.Action)
    requires Inv(st, chain, heads, x) && P.SerialInv(x.poll) && QuietFrom(st.tracked, chain, heads)
    requires P.SerialStep(x.poll, a)
    requires a.Reply? ==> a.current < |chain|
    requires P.OpensRange(x.poll, a) && x.poll.lastProcessed == 0 ==> a.current in heads
    ensures Inv(st, chain, heads, StepTables(x, chain, a))
  {
    if !a.Finish? {
      OtherStores(st, chain, heads, x, a);
    } else if a.id in x.poll.ticks && x.poll.ticks[a.id].Processing? {
      FinishStores(st, chain, heads, x, a.id);
    }
  }

  lemma {:induction false} RunStores(st: State, chain: Chain, heads: set<nat>, x: Indexer, acts: seq<P.Action>)
    requires Inv(st, chain, heads, x) && P.SerialInv(x.poll) && QuietFrom(st.tracked, chain, heads)
    requires P.Serial(x.poll, acts) && P.HeadsIn(x.poll, acts, heads) && Reported(chain, acts)
    ensures Inv(st, chain, heads, RunTables(x, chain, acts))
    ensures RunTables(x, chain, acts).poll == P.Run(x.poll, acts)
    decreases |acts|
  {
    hide Inv, QuietFrom, P.SerialInv, P.SerialStep, P.Step;
    if acts != [] {
      assert acts[0] in acts && Reported(chain, acts[1..]);
      StepStores(st, chain, heads, x, acts[0]);
      P.StepSerial(x.poll, acts[0]);
      RunStores(st, chain, heads, StepTables(x, chain, acts[0]), acts[1..]);
    }
  }

  /** Serial polling leaves the tables of one range, from its first head to the last processed block. */
  lemma SerialPollingIs(st: State, chain: Chain, heads: set<nat>, acts: seq<P.Action>, x: Indexer) returns (h: nat)
    requires QuietFrom(st.tracked, chain, heads) && P.Serial(P.START, acts)
    requires P.HeadsIn(P.START, acts, heads) && Reported(chain, acts)
    requires x == RunTables(Indexer(P.START, st), chain, acts)
    ensures x.poll == P.Run(P.START, acts)
    ensures x.poll.lastProcessed == 0 ==> x.data == st
    ensures x.poll.lastProcessed > 0 ==>
      h in heads && FromHead(st, chain, x.data, x.poll.processed, h, x.poll.lastProcessed)
  {
    P.StartIsSerial();
    assert Inv(st, chain, heads, Indexer(P.START, st));
    hide Process, LogsIn, P.SerialInv, P.Serial, P.HeadsIn, Reported, QuietFrom, FromHead, RunTables, P.Run;
    RunStores(st, chain, heads, Indexer(P.START, st), acts);
    h := 0;
    if x.poll.lastProcessed > 0 {
      h :| h in heads && FromHead(st, chain, x.data, x.poll.processed, h, x.poll.lastProcessed);
    }
  }

  // ---------- after the sync ----------

  /** Quiet chains stay quiet for polls that start at the last synced block or the one after it. */
  lemma QuietAfterSync(tracked: set<Address>, chain: Chain, from: nat, synced: nat, heads: set<nat>)
    requires from <= synced < |chain| && Quiet(tracked, chain, from, |chain| - 1)
    requires forall h :: h in heads ==> from <= h <= synced + 1
    ensures QuietFrom(tracked + Created(LogsIn(chain, from, synced)), chain, heads)
  {
    hide LogsIn, Created;
    forall h, m: nat, to: nat | h in heads && h <= m < to < |chain|
      ensures QuietAround(tracked + Created(LogsIn(chain, from, synced)), chain, h, m, to)
    {
      QuietPart(tracked, chain, from, synced, h, m, to);
    }
  }

  lemma QuietPart(tracked: set<Address>, chain: Chain, from: nat, synced: nat, h: nat, m: nat, to: nat)
    requires from <= synced < |chain| && Quiet(tracked, chain, from, |chain| - 1)
    requires from <= h <= synced + 1 && h <= m < to < |chain|
    ensures QuietAround(tracked + Created(LogsIn(chain, from, synced)), chain, h, m, to)
  {
    assert QuietAround(tracked, chain, from, m, |chain| - 1);
    hide LogsIn, Created, Quiet;
    LogsSplit(chain, from, h - 1, m);
    LogsSplit(chain, from, h - 1, synced);
    LogsSplit(chain, m + 1, to, |chain| - 1);
    CreatedConcat(LogsIn(chain, from, h - 1), LogsIn(chain, h, m));
    CreatedConcat(LogsIn(chain, from, h - 1), LogsIn(chain, h, synced));
    CreatedConcat(LogsIn(chain, m + 1, to), LogsIn(chain, to + 1, |chain| - 1));
  }

  /** Storing logs a second time only repeats their rows. */
  lemma ProcessAgain(st: State, a: seq<Event>, s: seq<Event>, st1: State)
    requires st1 == Process(st, a + s)
    ensures Process(st1, s) == st1.(rows := st1.rows + RowsOf(s, st1.tracked))
  {
    CreatedConcat(a, s);
    hide RowsOf, Created;
    var l := Process(st1, s);
    assert l.tracked == st1.tracked;
    forall p
      ensures p in l.pairs <==> p in st1.pairs
      ensures p in l.pairs ==> l.pairs[p] == st1.pairs[p]
    {
      if p in st1.tracked {
        LastSyncConcat(a, s, p, Reserves(st.pairs, p));
        SyncExact.LastSyncEither(s, p, LastSync(a, p, Reserves(st.pairs, p)),
          LastSync(a + s, p, Reserves(st.pairs, p)));
      }
    }
    SameMap(l.pairs, st1.pairs);
  }

  lemma MoreRows(st: State, extra: multiset<Event>, logs: seq<Event>)
    ensures Process(st.(rows := st.rows + extra), logs) ==
      Process(st, logs).(rows := Process(st, logs).rows + extra)
  {}

  lemma OtherLastBlock(st: State, last: Option<nat>, logs: seq<Event>)
    ensures Process(st.(lastBlock := last), logs) == Process(st, logs).(lastBlock := last)
  {}

  /** The tables of all blocks, and those with the rows of the last synced block stored twice. */
  lemma RepollIs(st: State, chain: Chain, from: nat, synced: nat, last: nat)
    requires from <= synced <= last < |chain| && Quiet(st.tracked, chain, from, |chain| - 1)
    ensures var st1, all := Process(st, LogsIn(chain, from, synced)), Process(st, LogsIn(chain, from, last));
      && Process(st1, LogsIn(chain, synced + 1, last)) == all
      && Process(st1, LogsIn(chain, synced, last)) ==
           all.(rows := all.rows + RowsOf(LogsIn(chain, synced, synced), st1.tracked))
  {
    hide *;
    var st1 := Process(st, LogsIn(chain, from, synced));
    JoinAfter(st, chain, from, synced, last);
    JoinAgain(st, chain, from, synced, last);
    LogsSplit(chain, from, synced - 1, synced);
    ProcessAgain(st, LogsIn(chain, from, synced - 1), LogsIn(chain, synced, synced), st1);
    MoreRows(st1, RowsOf(LogsIn(chain, synced, synced), st1.tracked), LogsIn(chain, synced + 1, last));
  }

  lemma JoinAfter(st: State, chain: Chain, from: nat, synced: nat, last: nat)
    requires from <= synced <= last < |chain| && Quiet(st.tracked, chain, from, |chain| - 1)
    ensures Process(Process(st, LogsIn(chain, from, synced)), LogsIn(chain, synced + 1, last)) ==
      Process(st, LogsIn(chain, from, last))
  {
    hide Process, LogsIn;
    LogsSplit(chain, from, synced, last);
    if synced < last {
      QuietPart(st.tracked, chain, from, synced, from, synced, last);
      QuietBetween(st.tracked, chain, from, synced, last);
    } else {
      NoneQuiet(st.tracked, chain, from, synced);
    }
    ProcessJoin(st, LogsIn(chain, from, synced), LogsIn(chain, synced + 1, last));
  }

  lemma NoneQuiet(tracked: set<Address>, chain: Chain, from: nat, synced: nat)
    requires from <= synced < |chain|
    ensures QuietBefore(tracked, LogsIn(chain, from, synced), LogsIn(chain, synced + 1, synced))
  {
    assert LogsIn(chain, synced + 1, synced) == [];
  }

  lemma QuietBetween(tracked: set<Address>, chain: Chain, from: nat, m: nat, to: nat)
    requires from <= m < to < |chain| && Quiet(tracked, chain, from, |chain| - 1)
    ensures QuietBefore(tracked, LogsIn(chain, from, m), LogsIn(chain, m + 1, to))
  {
    assert QuietAround(tracked, chain, from, m, |chain| - 1);
    hide LogsIn, Created, Quiet;
    LogsSplit(chain, m + 1, to, |chain| - 1);
    CreatedConcat(LogsIn(chain, m + 1, to), LogsIn(chain, to + 1, |chain| - 1));
  }

  lemma JoinAgain(st: State, chain: Chain, from: nat, synced: nat, last: nat)
    requires from <= synced <= last < |chain| && Quiet(st.tracked, chain, from, |chain| - 1)
    ensures var st1 := Process(st, LogsIn(chain, from, synced));
      Process(Process(st1, LogsIn(chain, synced, synced)), LogsIn(chain, synced + 1, last)) ==
        Process(st1, LogsIn(chain, synced, last))
  {
    var st1 := Process(st, LogsIn(chain, from, synced));
    ProcessTracked(st, LogsIn(chain, from, synced));
    hide Process, LogsIn, QuietBefore, Created;
    LogsSplit(chain, synced, synced, last);
    if synced < last {
      QuietPart(st.tracked, chain, from, synced, synced, synced, last);
    } else {
      NoneQuiet(st1.tracked, chain, synced, synced);
    }
    ProcessJoin(st1, LogsIn(chain, synced, synced), LogsIn(chain, synced + 1, last));
  }

  lemma SyncedIs(st: State, chain: Chain, startBlock: nat, synced: nat, batch: nat)
    requires batch > 0 && FromBlock(st, startBlock) < synced < |chain|
    requires Quiet(st.tracked, chain, FromBlock(st, startBlock), |chain| - 1)
    ensures SyncHistorical(st, chain, startBlock, synced, batch) ==
      Process(st, LogsIn(chain, FromBlock(st, startBlock), synced)).(lastBlock := Some(synced))
  {
    var from := FromBlock(st, startBlock);
    hide Process, LogsIn, QuietBefore, SyncBatches, FromBlock;
    forall m: nat | from <= m < synced
      ensures QuietAround(st.tracked, chain, from, m, synced)
    {
      QuietBetween(st.tracked, chain, from, m, synced);
    }
    BatchSizeIrrelevant(st, chain, from, synced, batch);
  }

  /** The tables of processing every block from the sync's first one to the last processed one, once. */
  function AllOnce(st: State, chain: Chain, startBlock: nat, synced: nat, last: nat): State
    requires FromBlock(st, startBlock) <= last < |chain|
  {
    Process(st, LogsIn(chain, FromBlock(st, startBlock), last)).(lastBlock := Some(synced))
  }

  /** The rows of one block, for the pairs known after the sync. */
  function BlockRows(st: State, chain: Chain, startBlock: nat, synced: nat): multiset<Event>
    requires FromBlock(st, startBlock) <= synced < |chain|
  {
    RowsOf(LogsIn(chain, synced, synced), st.tracked + Created(LogsIn(chain, FromBlock(st, startBlock), synced)))
  }

  /** What the polls leave, starting from the last synced block or the next. */
  lemma PolledAfterSync(st: State, chain: Chain, startBlock: nat, synced: nat, h: nat, last: nat, data: State)
    requires FromBlock(st, startBlock) < synced <= h <= synced + 1 && h <= last < |chain|
    requires Quiet(st.tracked, chain, FromBlock(st, startBlock), |chain| - 1)
    requires data == Process(
      Process(st, LogsIn(chain, FromBlock(st, startBlock), synced)).(lastBlock := Some(synced)),
      LogsIn(chain, h, last))
    ensures var all := AllOnce(st, chain, startBlock, synced, last);
      data == if h == synced + 1 then all else all.(rows := all.rows + BlockRows(st, chain, startBlock, synced))
  {
    hide *;
    var from := FromBlock(st, startBlock);
    OtherLastBlock(Process(st, LogsIn(chain, from, synced)), Some(synced), LogsIn(chain, h, last));
    RepollIs(st, chain, from, synced, last);
    ProcessTracked(st, LogsIn(chain, from, synced));
    AllOnceIs(st, chain, startBlock, synced, last);
  }

  lemma AfterSync(st: State, chain: Chain, startBlock: nat, synced: nat, batch: nat, acts: seq<P.Action>, x: Indexer)
    returns (h: nat)
    requires batch > 0 && FromBlock(st, startBlock) < synced < |chain|
    requires Quiet(st.tracked, chain, FromBlock(st, startBlock), |chain| - 1)
    requires P.Serial(P.START, acts) && P.HeadsIn(P.START, acts, {synced, synced + 1}) && Reported(chain, acts)
    requires x == RunTables(Indexer(P.START, SyncHistorical(st, chain, startBlock, synced, batch)), chain, acts)
    requires x.poll.lastProcessed > 0
    ensures synced <= h <= synced + 1 && h <= x.poll.lastProcessed < |chain| &&
      x.poll.processed == P.Blocks(h, x.poll.lastProcessed)
    ensures x.data == Process(Process(st, LogsIn(chain, FromBlock(st, startBlock), synced)).(lastBlock := Some(synced)),
                              LogsIn(chain, h, x.poll.lastProcessed))
  {
    hide *;
    var from, heads := FromBlock(st, startBlock), {synced, synced + 1};
    var st2 := Process(st, LogsIn(chain, from, synced)).(lastBlock := Some(synced));
    SyncedIs(st, chain, startBlock, synced, batch);
    ProcessTracked(st, LogsIn(chain, from, synced));
    QuietAfterSync(st.tracked, chain, from, synced, heads);
    h := SerialPollingIs(st2, chain, heads, acts, x);
    HeadIs(st2, chain, x.data, x.poll.processed, h, x.poll.lastProcessed);
  }

  lemma AllOnceIs(st: State, chain: Chain, startBlock: nat, synced: nat, last: nat)
    requires FromBlock(st, startBlock) <= synced <= last < |chain|
    ensures var from := FromBlock(st, startBlock);
      && AllOnce(st, chain, startBlock, synced, last) ==
        Process(st, LogsIn(chain, from, last)).(lastBlock := Some(synced))
      && BlockRows(st, chain, startBlock, synced) ==
           RowsOf(LogsIn(chain, synced, synced), st.tracked + Created(LogsIn(chain, from, synced)))
  {}

  lemma HeadIs(st: State, chain: Chain, data: State, processed: multiset<nat>, h: nat, last: nat)
    requires FromHead(st, chain, data, processed, h, last)
    ensures 0 < h <= last < |chain| && data == Process(st, LogsIn(chain, h, last)) && processed == P.Blocks(h, last)
  {}

  /** On quiet chains, for every batch size: after the sync and serial polling whose first head is the
      last synced block or the next, the tables are those of processing all blocks once, exactly when
      the polls did not process the last synced block again or it holds no row of a known pair.
      Otherwise just those rows are stored twice. */
  lemma SyncThenPollIff(st: State, chain: Chain, startBlock: nat, synced: nat, batch: nat, acts: seq<P.Action>,
      x: Indexer)
    requires batch > 0 && FromBlock(st, startBlock) < synced < |chain|
    requires Quiet(st.tracked, chain, FromBlock(st, startBlock), |chain| - 1)
    requires P.Serial(P.START, acts) && P.HeadsIn(P.START, acts, {synced, synced + 1}) && Reported(chain, acts)
    requires x == RunTables(Indexer(P.START, SyncHistorical(st, chain, startBlock, synced, batch)), chain, acts)
    requires x.poll.lastProcessed > 0
    ensures synced <= x.poll.lastProcessed < |chain|
    ensures var all := AllOnce(st, chain, startBlock, synced, x.poll.lastProcessed);
      && (x.data == all <==> synced !in x.poll.processed || BlockRows(st, chain, startBlock, synced) == multiset{})
      && (synced in x.poll.processed ==> x.data == all.(rows := all.rows + BlockRows(st, chain, startBlock, synced)))
  {
    var h := AfterSync(st, chain, startBlock, synced, batch, acts, x);
    assert P.Blocks(h, x.poll.lastProcessed)[synced] == if h == synced then 1 else 0;
    hide *;
    PolledAfterSync(st, chain, startBlock, synced, h, x.poll.lastProcessed, x.data);
    MoreRowsDiffer(AllOnce(st, chain, startBlock, synced, x.poll.lastProcessed),
      BlockRows(st, chain, startBlock, synced));
  }

  lemma MoreRowsDiffer(all: State, extra: multiset<Event>)
    ensures all == all.(rows := all.rows + extra) <==> extra == multiset{}
  {
    if extra != multiset{} {
      var e :| e in extra;
      assert (all.rows + extra)[e] > all.rows[e];
    }
  }
}
