/** Syncs and polling in succession: a sync that resumes from a checkpoint stores every later block
    once, whether the checkpoint was saved by a sync or by polling. */
module Resumption {
  import opened Scan
  import opened HistoricalSync
  import opened Indexing
  import P = Polling
  import C = Checkpoints
  import SyncExact

  // ---------- two syncs ----------

  lemma QuietFirst(tracked: set<Address>, chain: Chain, from: nat, mid: nat, to: nat)
    requires from <= mid <= to < |chain| && Quiet(tracked, chain, from, to)
    ensures Quiet(tracked, chain, from, mid)
  {
    hide LogsIn, Created;
    forall m: nat | from <= m < mid
      ensures QuietAround(tracked, chain, from, m, mid)
    {
      assert QuietAround(tracked, chain, from, m, to);
      LogsSplit(chain, m + 1, mid, to);
      CreatedConcat(LogsIn(chain, m + 1, mid), LogsIn(chain, mid + 1, to));
    }
  }

  lemma FirstSync(st: State, chain: Chain, startBlock: nat, c: nat, batch: nat)
    requires st.lastBlock == None && startBlock < c < |chain| && batch > 0 && Quiet(st.tracked, chain, startBlock, c)
    ensures SyncHistorical(st, chain, startBlock, c, batch) ==
      Process(st, LogsIn(chain, startBlock, c)).(lastBlock := Some(c))
  {
    hide *;
    StartsAt(st, startBlock);
    SyncExact.WholeSyncIs(st, chain, startBlock, c, batch);
    BatchSizeIrrelevant(st, chain, startBlock, c, batch);
  }

  lemma StartsAt(st: State, startBlock: nat)
    requires st.lastBlock == None
    ensures FromBlock(st, startBlock) == startBlock
  {}

  lemma ResumesAfter(st: State, startBlock: nat, saved: nat)
    requires st.lastBlock == Some(saved)
    ensures FromBlock(st, startBlock) == saved + 1
  {}

  /** With a checkpoint, the sync takes up at the block after it. */
  lemma SyncFromCheckpoint(st: State, chain: Chain, startBlock: nat, saved: nat, c: nat, batch: nat)
    requires st.lastBlock == Some(saved) && saved + 1 < c < |chain| && batch > 0
    requires Quiet(st.tracked, chain, saved + 1, c)
    ensures SyncHistorical(st, chain, startBlock, c, batch) ==
      Process(st, LogsIn(chain, saved + 1, c)).(lastBlock := Some(c))
  {
    hide *;
    ResumesAfter(st, startBlock, saved);
    SyncExact.WholeSyncIs(st, chain, startBlock, c, batch);
    BatchSizeIrrelevant(st, chain, saved + 1, c, batch);
  }

  lemma JoinedRanges(st: State, chain: Chain, from: nat, mid: nat, to: nat)
    requires from <= mid < to < |chain| && Quiet(st.tracked, chain, from, to)
    ensures Process(Process(st, LogsIn(chain, from, mid)), LogsIn(chain, mid + 1, to)) ==
      Process(st, LogsIn(chain, from, to))
    ensures Quiet(Process(st, LogsIn(chain, from, mid)).tracked, chain, mid + 1, to)
  {
    ProcessTracked(st, LogsIn(chain, from, mid));
    QuietRest(st.tracked, chain, from, mid, to);
    QuietAt(st.tracked, chain, from, mid, to);
    LogsSplit(chain, from, mid, to);
    hide Process, LogsIn, Quiet;
    ProcessJoin(st, LogsIn(chain, from, mid), LogsIn(chain, mid + 1, to));
  }

  /** On quiet chains, for all batch sizes: a sync up to c1 and later one up to c2, more than one block
      on, are together one sync up to c2, and store every block from the start block to c2 once. */
  lemma SyncResumes(st: State, chain: Chain, startBlock: nat, c1: nat, c2: nat, b1: nat, b2: nat, b: nat, second: State)
    requires st.lastBlock == None && startBlock < c1 && c1 + 1 < c2 < |chain| && b1 > 0 && b2 > 0 && b > 0
    requires Quiet(st.tracked, chain, startBlock, c2)
    requires second == SyncHistorical(SyncHistorical(st, chain, startBlock, c1, b1), chain, startBlock, c2, b2)
    ensures second == SyncHistorical(st, chain, startBlock, c2, b)
    ensures second == Process(st, LogsIn(chain, startBlock, c2)).(lastBlock := Some(c2))
  {
    hide *;
    QuietFirst(st.tracked, chain, startBlock, c1, c2);
    FirstSync(st, chain, startBlock, c1, b1);
    FirstSync(st, chain, startBlock, c2, b);
    JoinedRanges(st, chain, startBlock, c1, c2);
    var first := Process(st, LogsIn(chain, startBlock, c1));
    SyncFromCheckpoint(first.(lastBlock := Some(c1)), chain, startBlock, c1, c2, b2);
    OtherLastBlock(first, Some(c1), LogsIn(chain, c1 + 1, c2));
  }

  /** At the next block, or with no new one, the second sync changes nothing. */
  lemma NothingToResume(st: State, chain: Chain, startBlock: nat, c1: nat, c2: nat, b1: nat, b2: nat)
    requires st.lastBlock == None && startBlock < c1 < |chain| && c2 <= c1 + 1 && c2 < |chain| && b1 > 0 && b2 > 0
    ensures var first := SyncHistorical(st, chain, startBlock, c1, b1);
      first.lastBlock == Some(c1) && SyncHistorical(first, chain, startBlock, c2, b2) == first
  {
    hide SyncBatches;
  }

  // ---------- a restart after polling ----------

  /** What a restart finds: the tables, the checkpoint that polling saved, and every pair row tracked. */
  function Restarted(x: Indexer): State {
    x.data.(tracked := x.data.pairs.Keys, lastBlock := x.poll.checkpoint)
  }

  lemma ProcessTracksRows(st: State, logs: seq<Event>)
    requires st.tracked == st.pairs.Keys
    ensures Process(st, logs).tracked == Process(st, logs).pairs.Keys
  {}

  lemma ResumedIs(st: State, chain: Chain, startBlock: nat, synced: nat, last: nat, head: nat)
    requires FromBlock(st, startBlock) <= synced <= last < head < |chain|
    requires Quiet(st.tracked, chain, FromBlock(st, startBlock), |chain| - 1)
    ensures var before := AllOnce(st, chain, startBlock, synced, last);
      && Process(before, LogsIn(chain, last + 1, head)).(lastBlock := Some(synced)) ==
           AllOnce(st, chain, startBlock, synced, head)
      && Quiet(before.tracked, chain, last + 1, head)
  {
    hide *;
    var from := FromBlock(st, startBlock);
    AllOnceIs(st, chain, startBlock, synced, last);
    AllOnceIs(st, chain, startBlock, synced, head);
    QuietFirst(st.tracked, chain, from, head, |chain| - 1);
    JoinedRanges(st, chain, from, last, head);
    OtherLastBlock(Process(st, LogsIn(chain, from, last)), Some(synced), LogsIn(chain, last + 1, head));
  }

  lemma RestartedIs(st: State, chain: Chain, startBlock: nat, synced: nat, x: Indexer, extra: multiset<Event>)
    requires FromBlock(st, startBlock) <= synced <= x.poll.lastProcessed < |chain| && st.tracked == st.pairs.Keys
    requires var all := AllOnce(st, chain, startBlock, synced, x.poll.lastProcessed);
      x.data == all.(rows := all.rows + extra)
    ensures Restarted(x) == x.data.(lastBlock := x.poll.checkpoint)
  {
    ProcessTracksRows(st, LogsIn(chain, FromBlock(st, startBlock), x.poll.lastProcessed));
    hide Process, LogsIn;
  }

  lemma WithNoRows(all: State, extra: multiset<Event>)
    ensures extra == multiset{} ==> all.(rows := all.rows + extra) == all
  {}

  /** The rows that polling stored twice: those of the last synced block, if it was polled again. */
  function TwiceStored(st: State, chain: Chain, startBlock: nat, synced: nat, x: Indexer): multiset<Event>
    requires FromBlock(st, startBlock) <= synced < |chain|
  {
    if synced in x.poll.processed then BlockRows(st, chain, startBlock, synced) else multiset{}
  }

  lemma PolledTables(st: State, chain: Chain, startBlock: nat, synced: nat, batch: nat, acts: seq<P.Action>, x: Indexer)
    requires batch > 0 && FromBlock(st, startBlock) < synced < |chain|
    requires Quiet(st.tracked, chain, FromBlock(st, startBlock), |chain| - 1)
    requires P.Serial(P.START, acts) && P.HeadsIn(P.START, acts, {synced, synced + 1}) && Reported(chain, acts)
    requires x == RunTables(Indexer(P.START, SyncHistorical(st, chain, startBlock, synced, batch)), chain, acts)
    requires x.poll.lastProcessed > 0
    ensures synced <= x.poll.lastProcessed < |chain|
    ensures var all := AllOnce(st, chain, startBlock, synced, x.poll.lastProcessed);
      x.data == all.(rows := all.rows + TwiceStored(st, chain, startBlock, synced, x))
  {
    hide P.Serial, P.HeadsIn, Reported, RunTables, SyncHistorical, Quiet, AllOnce, BlockRows, FromBlock;
    SyncThenPollIff(st, chain, startBlock, synced, batch, acts, x);
    WithNoRows(AllOnce(st, chain, startBlock, synced, x.poll.lastProcessed), multiset{});
  }

  lemma ResumeOnto(all: State, extra: multiset<Event>, checkpoint: nat, synced: nat, head: nat, logs: seq<Event>,
                   whole: State)
    requires Process(all, logs).(lastBlock := Some(synced)) == whole
    ensures Process(all.(rows := all.rows + extra).(lastBlock := Some(checkpoint)), logs).(lastBlock := Some(head)) ==
      whole.(rows := whole.rows + extra, lastBlock := Some(head))
  {
    hide Process;
    OtherLastBlock(all.(rows := all.rows + extra), Some(checkpoint), logs);
    MoreRows(all, extra, logs);
  }

  /** The sync, serial polling whose checkpoint is the last processed block, a restart, and a sync that is
      more than one block behind the head: all blocks are stored as by one pass, every block after the
      last processed one exactly once; only what polling had stored twice stays so. */
  lemma RestartResumes(st: State, chain: Chain, startBlock: nat, synced: nat, b1: nat, acts: seq<P.Action>,
                       x: Indexer, head: nat, b2: nat)
    requires b1 > 0 && b2 > 0 && FromBlock(st, startBlock) < synced < |chain| && st.tracked == st.pairs.Keys
    requires Quiet(st.tracked, chain, FromBlock(st, startBlock), |chain| - 1)
    requires P.Serial(P.START, acts) && P.HeadsIn(P.START, acts, {synced, synced + 1}) && Reported(chain, acts)
    requires x == RunTables(Indexer(P.START, SyncHistorical(st, chain, startBlock, synced, b1)), chain, acts)
    requires x.poll.lastProcessed > 0 && x.poll.checkpoint == Some(x.poll.lastProcessed)
    requires x.poll.lastProcessed + 1 < head < |chain|
    ensures synced <= x.poll.lastProcessed
    ensures var all := AllOnce(st, chain, startBlock, synced, head);
      SyncHistorical(Restarted(x), chain, startBlock, head, b2) ==
        all.(rows := all.rows + TwiceStored(st, chain, startBlock, synced, x), lastBlock := Some(head))
  {
    hide *;
    var last := x.poll.lastProcessed;
    PolledTables(st, chain, startBlock, synced, b1, acts, x);
    var extra := TwiceStored(st, chain, startBlock, synced, x);
    var all, logs := AllOnce(st, chain, startBlock, synced, last), LogsIn(chain, last + 1, head);
    RestartedIs(st, chain, startBlock, synced, x, extra);
    ResumedIs(st, chain, startBlock, synced, last, head);
    SyncFromCheckpoint(Restarted(x), chain, startBlock, last, head, b2);
    ResumeOnto(all, extra, last, synced, head, logs, AllOnce(st, chain, startBlock, synced, head));
  }

  lemma {:induction false} PollIsRun(x: Indexer, chain: Chain, acts: seq<P.Action>)
    ensures RunTables(x, chain, acts).poll == P.Run(x.poll, acts)
    decreases |acts|
  {
    hide Process, LogsIn, P.Step;
    if acts != [] {
      PollIsRun(StepTables(x, chain, acts[0]), chain, acts[1..]);
    }
  }

  lemma NothingTwice(st: State, chain: Chain, startBlock: nat, synced: nat, x: Indexer)
    requires FromBlock(st, startBlock) <= synced < |chain| && synced !in x.poll.processed
    ensures TwiceStored(st, chain, startBlock, synced, x) == multiset{}
  {}

  lemma SameWithNone(all: State, extra: multiset<Event>, head: nat)
    requires extra == multiset{}
    ensures all.(rows := all.rows + extra, lastBlock := Some(head)) == all.(lastBlock := Some(head))
  {}

  /** If no range finishes beside an open save, all saves are done and the last synced block was not
      polled again, the sync after the restart leaves every block from the start to the head stored
      exactly once. */
  lemma SettledRunResumes(st: State, chain: Chain, startBlock: nat, synced: nat, b1: nat, acts: seq<P.Action>,
                          x: Indexer, head: nat, b2: nat)
    requires b1 > 0 && b2 > 0 && FromBlock(st, startBlock) < synced < |chain| && st.tracked == st.pairs.Keys
    requires Quiet(st.tracked, chain, FromBlock(st, startBlock), |chain| - 1)
    requires P.Serial(P.START, acts) && P.HeadsIn(P.START, acts, {synced, synced + 1}) && Reported(chain, acts)
    requires C.SavesSucceed(P.START, acts) && C.SavesApart(P.START, acts) && C.Settled(P.Run(P.START, acts))
    requires x == RunTables(Indexer(P.START, SyncHistorical(st, chain, startBlock, synced, b1)), chain, acts)
    requires 0 < x.poll.lastProcessed && x.poll.lastProcessed + 1 < head < |chain| && synced !in x.poll.processed
    ensures synced <= x.poll.lastProcessed
    ensures SyncHistorical(Restarted(x), chain, startBlock, head, b2) ==
      Process(st, LogsIn(chain, FromBlock(st, startBlock), head)).(lastBlock := Some(head))
  {
    hide *;
    PollIsRun(Indexer(P.START, SyncHistorical(st, chain, startBlock, synced, b1)), chain, acts);
    C.CheckpointIsLast(acts);
    RestartResumes(st, chain, startBlock, synced, b1, acts, x, head, b2);
    NothingTwice(st, chain, startBlock, synced, x);
    SameWithNone(AllOnce(st, chain, startBlock, synced, head), TwiceStored(st, chain, startBlock, synced, x), head);
    AllOnceIs(st, chain, startBlock, synced, head);
  }
}
