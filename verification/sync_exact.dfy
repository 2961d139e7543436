/** When the whole result of the historical sync, reserves included, does not depend on the batch size. */
module SyncExact {
  import opened Scan
  import opened HistoricalSync

  // ---------- what the batches leave in each table ----------

  lemma ProcessPair(st: State, logs: seq<Event>, p: Address)
    ensures p in st.tracked + Created(logs) ==>
      p in Process(st, logs).pairs && Process(st, logs).pairs[p] == LastSync(logs, p, Reserves(st.pairs, p))
    ensures p !in st.tracked + Created(logs) ==>
      Reserves(Process(st, logs).pairs, p) == Reserves(st.pairs, p) &&
      (p in Process(st, logs).pairs <==> p in st.pairs)
  {}

  /** The batches track the same pairs as one range, and do not touch pairs that stay untracked. */
  lemma {:induction false} BatchFrame(st: State, chain: Chain, start: nat, current: nat, batch: nat, p: Address)
    requires batch > 0 && start <= current < |chain|
    ensures var r := SyncBatches(st, chain, start, current, batch);
      && r.tracked == st.tracked + Created(LogsIn(chain, start, current)) && r.lastBlock == st.lastBlock
      && (p !in r.tracked ==> Reserves(r.pairs, p) == Reserves(st.pairs, p) && (p in r.pairs <==> p in st.pairs))
    decreases current - start
  {
    hide *;
    BatchTurn(st, chain, start, current, batch);
    var end := if start + batch - 1 < current then start + batch - 1 else current;
    var first := LogsIn(chain, start, end);
    ProcessTracked(st, first);
    ProcessLastBlock(st, first);
    ProcessPair(st, first, p);
    if end < current {
      BatchFrame(Process(st, first), chain, end + 1, current, batch, p);
      LogsSplit(chain, start, end, current);
      CreatedConcat(first, LogsIn(chain, end + 1, current));
    }
  }

  lemma ProcessLastBlock(st: State, logs: seq<Event>)
    ensures Process(st, logs).lastBlock == st.lastBlock
  {}

  /** A pair's reserves come from the sync events since the start s of the batch that first knew it. */
  lemma {:induction false} BatchReserves(st: State, chain: Chain, start: nat, current: nat, batch: nat, p: Address)
    returns (s: nat)
    requires batch > 0 && start <= current < |chain|
    requires p in st.tracked + Created(LogsIn(chain, start, current))
    ensures start <= s <= current && (s > start ==> p !in st.tracked + Created(LogsIn(chain, start, s - 1)))
    ensures p in SyncBatches(st, chain, start, current, batch).pairs
    ensures SyncBatches(st, chain, start, current, batch).pairs[p] ==
      LastSync(LogsIn(chain, s, current), p, Reserves(st.pairs, p))
    decreases current - start
  {
    hide *;
    BatchTurn(st, chain, start, current, batch);
    var end := if start + batch - 1 < current then start + batch - 1 else current;
    var first := LogsIn(chain, start, end);
    ProcessTracked(st, first);
    ProcessPair(st, first, p);
    s := start;
    if end < current {
      var mid, rest := Process(st, first), LogsIn(chain, end + 1, current);
      LogsSplit(chain, start, end, current);
      CreatedConcat(first, rest);
      s := BatchReserves(mid, chain, end + 1, current, batch, p);
      if p in mid.tracked {
        LastSyncConcat(first, rest, p, Reserves(st.pairs, p));
        assert s == end + 1;
        ReservesOf(mid.pairs, p);
        s := start;
      } else if s > end + 1 {
        LogsSplit(chain, start, end, s - 1);
        CreatedConcat(first, LogsIn(chain, end + 1, s - 1));
      }
    }
  }

  lemma ReservesOf(pairs: map<Address, ReservePair>, p: Address)
    ensures p in pairs ==> Reserves(pairs, p) == pairs[p]
  {}

  // ---------- the condition ----------

  /** Block c is the first of the range that creates p, and p was not tracked before. */
  predicate FirstCreated(tracked: set<Address>, chain: Chain, start: nat, c: nat, p: Address)
    requires start <= c < |chain|
  {
    p !in tracked && p in Created(LogsIn(chain, c, c)) && p !in Created(LogsIn(chain, start, c - 1))
  }

  /** Every pair first created after the first block of the range either syncs again from that block
      on, or its last earlier sync event gave the reserves it already has: the events from its
      creation on and those of the whole range leave it the same reserves. */
  ghost predicate SyncsSettle(st: State, chain: Chain, start: nat, current: nat)
    requires start <= current < |chain|
  {
    forall p, c: nat :: start < c <= current && FirstCreated(st.tracked, chain, start, c, p) ==>
      Settles(st, chain, start, c, current, p)
  }

  predicate Settles(st: State, chain: Chain, start: nat, c: nat, current: nat, p: Address)
    requires start <= c <= current < |chain|
  {
    LastSync(LogsIn(chain, c, current), p, Reserves(st.pairs, p)) ==
    LastSync(LogsIn(chain, start, current), p, Reserves(st.pairs, p))
  }

  lemma {:induction false} LastSyncEither(b: seq<Event>, p: Address, x: ReservePair, y: ReservePair)
    ensures LastSync(b, p, x) == LastSync(b, p, y) || (LastSync(b, p, x) == x && LastSync(b, p, y) == y)
  {
    if b != [] {
      LastSyncEither(b[..|b| - 1], p, x, y);
    }
  }

  /** Between the whole range and the events from the creation on there is nothing new. */
  lemma SettledBetween(a: seq<Event>, m: seq<Event>, c: seq<Event>, p: Address, r: ReservePair)
    requires LastSync(c, p, r) == LastSync(a + (m + c), p, r)
    ensures LastSync(m + c, p, r) == LastSync(a + (m + c), p, r)
  {
    LastSyncConcat(a, m + c, p, r);
    var x := LastSync(a, p, r);
    LastSyncConcat(m, c, p, x);
    LastSyncConcat(m, c, p, r);
    LastSyncEither(m, p, x, r);
  }

  lemma {:induction false} FirstCreation(chain: Chain, start: nat, current: nat, p: Address) returns (c: nat)
    requires start <= current < |chain| && p in Created(LogsIn(chain, start, current))
    ensures start <= c <= current && p in Created(LogsIn(chain, c, c)) && p !in Created(LogsIn(chain, start, c - 1))
    decreases current - start
  {
    hide *;
    NoLogsBefore(chain, start);
    c := start;
    if p !in Created(LogsIn(chain, start, start)) {
      LogsSplit(chain, start, start, current);
      CreatedConcat(LogsIn(chain, start, start), LogsIn(chain, start + 1, current));
      c := FirstCreation(chain, start + 1, current, p);
      LogsSplit(chain, start, start, c - 1);
      CreatedConcat(LogsIn(chain, start, start), LogsIn(chain, start + 1, c - 1));
    }
  }

  lemma NoLogsBefore(chain: Chain, start: nat)
    requires start < |chain|
    ensures LogsIn(chain, start, start - 1) == [] && Created([]) == {}
    ensures start == |chain| - 1 ==> LogsIn(chain, start + 1, start) == []
  {}

  lemma CreatedWithin(chain: Chain, start: nat, c: nat, to: nat, p: Address)
    requires start <= c <= to < |chain| && p in Created(LogsIn(chain, c, c))
    ensures p in Created(LogsIn(chain, start, to))
  {
    hide *;
    LogsSplit(chain, c, c, to);
    CreatedConcat(LogsIn(chain, c, c), LogsIn(chain, c + 1, to));
    LogsSplit(chain, start, c - 1, to);
    CreatedConcat(LogsIn(chain, start, c - 1), LogsIn(chain, c, to));
  }

  // ---------- sufficient ----------

  lemma SettledReserves(st: State, chain: Chain, start: nat, current: nat, batch: nat, p: Address)
    requires batch > 0 && start <= current < |chain| && SyncsSettle(st, chain, start, current)
    requires p in st.tracked + Created(LogsIn(chain, start, current))
    ensures p in SyncBatches(st, chain, start, current, batch).pairs
    ensures SyncBatches(st, chain, start, current, batch).pairs[p] ==
      LastSync(LogsIn(chain, start, current), p, Reserves(st.pairs, p))
  {
    hide SyncBatches, LogsIn, Created, LastSync, Reserves;
    var s := BatchReserves(st, chain, start, current, batch, p);
    if s > start {
      var c := FirstCreation(chain, start, current, p);
      if c < s {
        CreatedWithin(chain, start, c, s - 1, p);
      }
      assert FirstCreated(st.tracked, chain, start, c, p) && Settles(st, chain, start, c, current, p);
      LogsSplit(chain, start, s - 1, current);
      LogsSplit(chain, s, c - 1, current);
      SettledBetween(LogsIn(chain, start, s - 1), LogsIn(chain, s, c - 1), LogsIn(chain, c, current), p,
        Reserves(st.pairs, p));
    }
  }

  lemma SettledBatches(st: State, chain: Chain, start: nat, current: nat, batch: nat)
    requires batch > 0 && start <= current < |chain|
    requires RowsQuiet(st.tracked, chain, start, current) && SyncsSettle(st, chain, start, current)
    ensures SyncBatches(st, chain, start, current, batch) == Process(st, LogsIn(chain, start, current))
  {
    hide *;
    var logs := LogsIn(chain, start, current);
    var l, r := SyncBatches(st, chain, start, current, batch), Process(st, logs);
    QuietRowsStored(st, chain, start, current, batch);
    BatchFrame(st, chain, start, current, batch, 0);
    ProcessTracked(st, logs);
    ProcessLastBlock(st, logs);
    forall p: Address
      ensures p in l.pairs <==> p in r.pairs
      ensures p in l.pairs ==> l.pairs[p] == r.pairs[p]
    {
      BatchFrame(st, chain, start, current, batch, p);
      ProcessPair(st, logs, p);
      ReservesOf(l.pairs, p);
      ReservesOf(r.pairs, p);
      if p in r.tracked {
        SettledReserves(st, chain, start, current, batch, p);
      }
    }
    SameMap(l.pairs, r.pairs);
  }

  // ---------- necessary ----------

  lemma BatchesFromBlock(st: State, chain: Chain, c: nat, current: nat, batch: nat, p: Address)
    requires batch > 0 && c <= current < |chain| && p !in st.tracked && p in Created(LogsIn(chain, c, c))
    ensures var r := SyncBatches(st, chain, c, current, batch);
      p in r.pairs && r.pairs[p] == LastSync(LogsIn(chain, c, current), p, Reserves(st.pairs, p))
  {
    hide *;
    CreatedWithin(chain, c, c, current, p);
    var s := BatchReserves(st, chain, c, current, batch, p);
    if s > c {
      CreatedWithin(chain, c, c, s - 1, p);
    }
  }

  /** Batches that begin at the creating block keep only the sync events from there on. */
  lemma BatchesFromCreation(st: State, chain: Chain, start: nat, c: nat, current: nat, p: Address)
    requires start < c <= current < |chain| && p !in st.tracked
    requires p in Created(LogsIn(chain, c, c)) && p !in Created(LogsIn(chain, start, c - 1))
    ensures var r := SyncBatches(st, chain, start, current, c - start);
      p in r.pairs && r.pairs[p] == LastSync(LogsIn(chain, c, current), p, Reserves(st.pairs, p))
  {
    hide *;
    BatchTurn(st, chain, start, current, c - start);
    var first := LogsIn(chain, start, c - 1);
    ProcessTracked(st, first);
    ProcessPair(st, first, p);
    BatchesFromBlock(Process(st, first), chain, c, current, c - start, p);
  }

  /** Every batch size leaves the state of one joint range. */
  ghost predicate BatchesAgree(st: State, chain: Chain, start: nat, current: nat)
    requires start <= current < |chain|
  {
    forall batch: nat :: batch > 0 ==>
      SyncBatches(st, chain, start, current, batch) == Process(st, LogsIn(chain, start, current))
  }

  lemma AgreeingRows(st: State, chain: Chain, start: nat, current: nat)
    requires start <= current < |chain| && BatchesAgree(st, chain, start, current)
    ensures RowsQuiet(st.tracked, chain, start, current)
  {
    hide SyncBatches, Process, LogsIn, RowsQuiet;
    forall batch: nat | batch > 0
      ensures SyncBatches(st, chain, start, current, batch).rows == Process(st, LogsIn(chain, start, current)).rows
    {
      assert SyncBatches(st, chain, start, current, batch) == Process(st, LogsIn(chain, start, current));
    }
    RowsIndependentIff(st, chain, start, current);
  }

  lemma IndependentSettles(st: State, chain: Chain, start: nat, current: nat)
    requires start <= current < |chain|
    requires BatchesAgree(st, chain, start, current)
    ensures SyncsSettle(st, chain, start, current)
  {
    hide SyncBatches, Process, LogsIn, LastSync, Created;
    forall p, c: nat | start < c <= current && FirstCreated(st.tracked, chain, start, c, p)
      ensures Settles(st, chain, start, c, current, p)
    {
      BatchesFromCreation(st, chain, start, c, current, p);
      CreatedSomewhere(st, chain, start, c, current, p);
      ProcessPair(st, LogsIn(chain, start, current), p);
      var batch: nat := c - start;
      assert SyncBatches(st, chain, start, current, batch) == Process(st, LogsIn(chain, start, current));
    }
  }

  lemma CreatedSomewhere(st: State, chain: Chain, start: nat, c: nat, current: nat, p: Address)
    requires start <= c <= current < |chain| && FirstCreated(st.tracked, chain, start, c, p)
    ensures p in Created(LogsIn(chain, start, current))
  {
    CreatedWithin(chain, start, c, current, p);
  }

  // ---------- the whole state ----------

  /** Every batch size leaves the state of one joint range (tracked pairs, rows, reserves) exactly when
      no row event comes in a block before the block that creates its pair, and the sync events of
      every pair settle. */
  lemma StateIndependentIff(st: State, chain: Chain, start: nat, current: nat)
    requires start <= current < |chain|
    ensures BatchesAgree(st, chain, start, current)
       <==> RowsQuiet(st.tracked, chain, start, current) && SyncsSettle(st, chain, start, current)
  {
    hide SyncBatches, Process, LogsIn, RowsQuiet, SyncsSettle;
    if RowsQuiet(st.tracked, chain, start, current) && SyncsSettle(st, chain, start, current) {
      forall batch: nat | batch > 0
        ensures SyncBatches(st, chain, start, current, batch) == Process(st, LogsIn(chain, start, current))
      {
        SettledBatches(st, chain, start, current, batch);
      }
    }
    if BatchesAgree(st, chain, start, current) {
      AgreeingRows(st, chain, start, current);
      IndependentSettles(st, chain, start, current);
    }
  }

  lemma OneBatch(st: State, chain: Chain, start: nat, current: nat)
    requires start <= current < |chain|
    ensures SyncBatches(st, chain, start, current, current - start + 1) == Process(st, LogsIn(chain, start, current))
  {
    BatchTurn(st, chain, start, current, current - start + 1);
  }

  /** Any two batch sizes give the whole sync the same result exactly under that condition, whenever
      there is more than the head block to do. */
  lemma SyncIndependentIff(st: State, chain: Chain, startBlock: nat, current: nat)
    requires FromBlock(st, startBlock) < current < |chain|
    ensures (forall b1: nat, b2: nat :: b1 > 0 && b2 > 0 ==>
               SyncHistorical(st, chain, startBlock, current, b1) == SyncHistorical(st, chain, startBlock, current, b2))
       <==> RowsQuiet(st.tracked, chain, FromBlock(st, startBlock), current) &&
            SyncsSettle(st, chain, FromBlock(st, startBlock), current)
  {
    var from := FromBlock(st, startBlock);
    hide SyncBatches, Process, LogsIn, RowsQuiet, SyncsSettle, FromBlock;
    StateIndependentIff(st, chain, from, current);
    var one := current - from + 1;
    OneBatch(st, chain, from, current);
    forall batch: nat | batch > 0
      ensures
        SyncHistorical(st, chain, startBlock, current, batch) == SyncHistorical(st, chain, startBlock, current, one)
        <==> SyncBatches(st, chain, from, current, batch) == Process(st, LogsIn(chain, from, current))
    {
      WholeSyncAgrees(st, chain, startBlock, current, batch);
    }
    hide SyncHistorical;
    var agree := forall batch: nat :: batch > 0 ==>
      SyncHistorical(st, chain, startBlock, current, batch) == SyncHistorical(st, chain, startBlock, current, one);
    assert agree <==> BatchesAgree(st, chain, from, current);
  }

  lemma WholeSyncAgrees(st: State, chain: Chain, startBlock: nat, current: nat, batch: nat)
    requires batch > 0 && FromBlock(st, startBlock) < current < |chain|
    ensures var from := FromBlock(st, startBlock);
      SyncHistorical(st, chain, startBlock, current, batch) ==
        SyncHistorical(st, chain, startBlock, current, current - from + 1)
      <==> SyncBatches(st, chain, from, current, batch) == Process(st, LogsIn(chain, from, current))
  {
    hide *;
    var from := FromBlock(st, startBlock);
    OneBatch(st, chain, from, current);
    BatchFrame(st, chain, from, current, batch, 0);
    ProcessLastBlock(st, LogsIn(chain, from, current));
    WholeSyncIs(st, chain, startBlock, current, batch);
    WholeSyncIs(st, chain, startBlock, current, current - from + 1);
    SameButLastBlock(SyncBatches(st, chain, from, current, batch), Process(st, LogsIn(chain, from, current)), current);
  }

  lemma WholeSyncIs(st: State, chain: Chain, startBlock: nat, current: nat, batch: nat)
    requires batch > 0 && FromBlock(st, startBlock) < current < |chain|
    ensures SyncHistorical(st, chain, startBlock, current, batch) ==
      SyncBatches(st, chain, FromBlock(st, startBlock), current, batch).(lastBlock := Some(current))
  {
    hide SyncBatches, FromBlock;
  }

  lemma SameButLastBlock(a: State, b: State, current: nat)
    requires a.lastBlock == b.lastBlock
    ensures a.(lastBlock := Some(current)) == b.(lastBlock := Some(current)) <==> a == b
  {}

  /** Without events of a pair before its creation the condition holds. */
  lemma QuietSettles(st: State, chain: Chain, start: nat, current: nat)
    requires start <= current < |chain| && Quiet(st.tracked, chain, start, current)
    ensures RowsQuiet(st.tracked, chain, start, current) && SyncsSettle(st, chain, start, current)
  {
    hide SyncBatches, Process, LogsIn, RowsQuiet, SyncsSettle, Quiet;
    forall batch: nat | batch > 0
      ensures SyncBatches(st, chain, start, current, batch) == Process(st, LogsIn(chain, start, current))
    {
      BatchSizeIrrelevant(st, chain, start, current, batch);
    }
    StateIndependentIff(st, chain, start, current);
  }

  /** A pair that syncs only before its creation: one block at a time its reserves stay 0, one joint
      range sets them, although the rows do not depend on the batch size. */
  lemma EarlySyncDepends(p: Address, r: ReservePair)
    requires r != NO_RESERVES
    ensures var st, chain := State({}, map[], multiset{}, None), [[Sync(p, r)], [PairCreated(p)]];
      && RowsQuiet(st.tracked, chain, 0, 1)
      && SyncBatches(st, chain, 0, 1, 1) != SyncBatches(st, chain, 0, 1, 2)
  {
    var st, chain := State({}, map[], multiset{}, None), [[Sync(p, r)], [PairCreated(p)]];
    EarlySyncLogs(p, r, chain);
    NoLogsBefore(chain, 0);
    OneBatch(st, chain, 0, 1);
    ProcessPair(st, [Sync(p, r), PairCreated(p)], p);
    assert FirstCreated(st.tracked, chain, 0, 1, p);
    BatchesFromCreation(st, chain, 0, 1, 1, p);
    EarlySyncReserves(p, r);
    hide *;
  }

  lemma EarlySyncReserves(p: Address, r: ReservePair)
    ensures LastSync([PairCreated(p)], p, NO_RESERVES) == NO_RESERVES
    ensures LastSync([Sync(p, r), PairCreated(p)], p, NO_RESERVES) == r
  {
    assert [PairCreated(p)][..0] == [] && [Sync(p, r), PairCreated(p)][..1] == [Sync(p, r)];
  }

  lemma EarlySyncLogs(p: Address, r: ReservePair, chain: Chain)
    requires chain == [[Sync(p, r)], [PairCreated(p)]]
    ensures LogsIn(chain, 0, 0) == [Sync(p, r)] && LogsIn(chain, 1, 1) == [PairCreated(p)]
    ensures LogsIn(chain, 0, 1) == [Sync(p, r), PairCreated(p)]
  {
    assert chain[0..1] == [[Sync(p, r)]] && chain[1..2] == [[PairCreated(p)]] && chain[0..2] == chain;
    assert chain[1..] == [[PairCreated(p)]] && chain[1..][1..] == [] && chain[0..1][1..] == [];
    assert Flatten(chain[1..]) == [PairCreated(p)];
  }
}
