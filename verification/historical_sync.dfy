/** Historical indexing of a chain given as the event list of each block: processing one block range,
    the loop over batches, and when its result does not depend on the batch size. */
module HistoricalSync {
  import opened Scan

  type Address = int

  datatype ReservePair = ReservePair(reserve0: int, reserve1: int)

  datatype Kind = SwapLog | MintLog | BurnLog

  datatype Event =
    | PairCreated(pair: Address)
    | Row(pair: Address, kind: Kind, data: int)
    | Sync(pair: Address, reserves: ReservePair)

  type Chain = seq<seq<Event>>

  /** tracked is the in-memory set; pairs holds the reserves of every pair row; rows is what the
      swap, mint and burn tables hold; lastBlock is the saved checkpoint. */
  datatype State = State(tracked: set<Address>, pairs: map<Address, ReservePair>, rows: multiset<Event>,
    lastBlock: Option<nat>)

  const NO_RESERVES := ReservePair(0, 0)

  // ---------- logs of a range ----------

  function Flatten(blocks: Chain): seq<Event> {
    if blocks == [] then [] else blocks[0] + Flatten(blocks[1..])
  }

  lemma {:induction false} FlattenConcat(a: Chain, b: Chain)
    ensures Flatten(a + b) == Flatten(a) + Flatten(b)
  {
    if a == [] {
      assert a + b == b;
    } else {
      assert (a + b)[1..] == a[1..] + b;
      FlattenConcat(a[1..], b);
    }
  }

  /** The events of blocks from to to, both included. */
  function LogsIn(chain: Chain, from: nat, to: int): seq<Event>
    requires from <= to + 1 <= |chain|
  {
    Flatten(chain[from..to + 1])
  }

  lemma LogsSplit(chain: Chain, from: nat, mid: int, to: int)
    requires from <= mid + 1 <= to + 1 <= |chain|
    ensures LogsIn(chain, from, to) == LogsIn(chain, from, mid) + LogsIn(chain, mid + 1, to)
  {
    assert chain[from..to + 1] == chain[from..mid + 1] + chain[mid + 1..to + 1];
    FlattenConcat(chain[from..mid + 1], chain[mid + 1..to + 1]);
  }

  function Created(logs: seq<Event>): (r: set<Address>)
    ensures forall p :: p in r <==> PairCreated(p) in logs
  {
    set e | e in logs && e.PairCreated? :: e.pair
  }

  // ---------- what one range does ----------

  function RowOf(tracked: set<Address>): Event -> bool {
    (e: Event) => e.Row? && e.pair in tracked
  }

  function RowsOf(logs: seq<Event>, tracked: set<Address>): multiset<Event> {
    multiset(Filter(logs, RowOf(tracked)))
  }

  /** The reserves after the sync events of a pair: the last one wins. */
  function LastSync(logs: seq<Event>, p: Address, before: ReservePair): ReservePair {
    if logs == [] then before
    else
      var e := logs[|logs| - 1];
      if e.Sync? && e.pair == p then e.reserves else LastSync(logs[..|logs| - 1], p, before)
  }

  function Reserves(pairs: map<Address, ReservePair>, p: Address): ReservePair {
    if p in pairs then pairs[p] else NO_RESERVES
  }

  /** Creations first, then every tracked pair's events of the range. */
  function Process(st: State, logs: seq<Event>): State {
    var tracked := st.tracked + Created(logs);
    st.(tracked := tracked,
        pairs := map p | p in st.pairs.Keys + tracked ::
          if p in tracked then LastSync(logs, p, Reserves(st.pairs, p)) else st.pairs[p],
        rows := st.rows + RowsOf(logs, tracked))
  }

  /** What processing a range stores: every swap, mint and burn event of the pairs known before or created
      in the range, as often as it occurs, and nothing else. */
  lemma {:induction false} RowsStored(logs: seq<Event>, tracked: set<Address>, e: Event)
    ensures RowsOf(logs, tracked)[e] == if e.Row? && e.pair in tracked then multiset(logs)[e] else 0
  {
    if logs != [] {
      var n := |logs| - 1;
      assert logs == logs[..n] + [logs[n]];
      RowsStored(logs[..n], tracked, e);
    }
  }

  /** The reserves are those of the last sync event of the pair, or the earlier ones without any. */
  lemma {:induction false} LastSyncMeans(logs: seq<Event>, p: Address, before: ReservePair)
    ensures
      || (LastSync(logs, p, before) == before && forall i :: 0 <= i < |logs| ==> !(logs[i].Sync? && logs[i].pair == p))
      || exists i :: 0 <= i < |logs| && logs[i] == Sync(p, LastSync(logs, p, before)) &&
           forall j :: i < j < |logs| ==> !(logs[j].Sync? && logs[j].pair == p)
  {
    if logs != [] {
      var n := |logs| - 1;
      LastSyncMeans(logs[..n], p, before);
      assert forall i :: 0 <= i < n ==> logs[..n][i] == logs[i];
      if logs[n].Sync? && logs[n].pair == p {
        assert logs[n] == Sync(p, LastSync(logs, p, before));
      } else if i :|
          0 <= i < n && logs[..n][i] == Sync(p, LastSync(logs[..n], p, before)) &&
          forall j :: i < j < n ==> !(logs[..n][j].Sync? && logs[..n][j].pair == p) {
        assert logs[i] == Sync(p, LastSync(logs, p, before));
      }
    }
  }

  /** One range: the pairs created in it become known, the tables gain those rows, a known pair's reserves
      follow its sync events from reserves of 0 for a new pair, and other pairs keep theirs. */
  lemma ProcessMeans(st: State, logs: seq<Event>, p: Address, e: Event)
    ensures var r := Process(st, logs);
      && (p in r.tracked <==> p in st.tracked || PairCreated(p) in logs)
      && r.rows[e] == st.rows[e] + (if e.Row? && e.pair in r.tracked then multiset(logs)[e] else 0)
      && (p in r.tracked ==>
           p in r.pairs &&
           r.pairs[p] == LastSync(logs, p, if p in st.pairs then st.pairs[p] else ReservePair(0, 0)))
      && (p !in r.tracked ==> (p in r.pairs <==> p in st.pairs) && (p in st.pairs ==> r.pairs[p] == st.pairs[p]))
      && r.lastBlock == st.lastBlock
  {
    RowsStored(logs, st.tracked + Created(logs), e);
    hide LastSync, RowsOf;
  }

  function SyncBatches(st: State, chain: Chain, start: nat, current: nat, batch: nat): State
    requires batch > 0 && current < |chain| && start <= current + batch
    decreases current + batch - start
  {
    if start > current then st
    else
      var end := if start + batch - 1 < current then start + batch - 1 else current;
      SyncBatches(Process(st, LogsIn(chain, start, end)), chain, start + batch, current, batch)
  }

  /** The historical sync: nothing is done, not even a checkpoint, unless the first block is below the head. */
  function SyncHistorical(st: State, chain: Chain, startBlock: nat, current: nat, batch: nat): State
    requires batch > 0 && current < |chain|
  {
    var from := FromBlock(st, startBlock);
    if from >= current then st
    else SyncBatches(st, chain, from, current, batch).(lastBlock := Some(current))
  }

  function FromBlock(st: State, startBlock: nat): nat {
    if st.lastBlock.Some? then st.lastBlock.value + 1 else startBlock
  }

  // ---------- joining two ranges ----------

  predicate OfPair(e: Event) {
    e.Row? || e.Sync?
  }

  /** No event of the earlier logs belongs to a pair that is created only in the later logs. */
  ghost predicate QuietBefore(tracked: set<Address>, earlier: seq<Event>, later: seq<Event>) {
    forall e :: e in earlier && OfPair(e) && e.pair in Created(later) ==> e.pair in tracked + Created(earlier)
  }

  lemma {:induction false} FilterConcat(a: seq<Event>, b: seq<Event>, p: Event -> bool)
    ensures Filter(a + b, p) == Filter(a, p) + Filter(b, p)
  {
    if b == [] {
      assert a + b == a;
    } else {
      var n := |b| - 1;
      assert (a + b)[..|a + b| - 1] == a + b[..n];
      FilterConcat(a, b[..n], p);
    }
  }

  lemma {:induction false} FilterAgrees(a: seq<Event>, p: Event -> bool, q: Event -> bool)
    requires forall e :: e in a ==> (p(e) <==> q(e))
    ensures Filter(a, p) == Filter(a, q)
  {
    if a != [] {
      assert a == a[..|a| - 1] + [a[|a| - 1]];
      FilterAgrees(a[..|a| - 1], p, q);
    }
  }

  lemma {:induction false} LastSyncConcat(a: seq<Event>, b: seq<Event>, p: Address, before: ReservePair)
    ensures LastSync(a + b, p, before) == LastSync(b, p, LastSync(a, p, before))
  {
    if b == [] {
      assert a + b == a;
    } else {
      var n := |b| - 1;
      assert (a + b)[..|a + b| - 1] == a + b[..n];
      LastSyncConcat(a, b[..n], p, before);
    }
  }

  lemma {:induction false} LastSyncNone(a: seq<Event>, p: Address, before: ReservePair)
    requires forall e :: e in a && e.Sync? ==> e.pair != p
    ensures LastSync(a, p, before) == before
  {
    if a != [] {
      assert a == a[..|a| - 1] + [a[|a| - 1]];
      LastSyncNone(a[..|a| - 1], p, before);
    }
  }

  lemma CreatedConcat(a: seq<Event>, b: seq<Event>)
    ensures Created(a + b) == Created(a) + Created(b)
  {}

  lemma RowsJoin(tracked: set<Address>, a: seq<Event>, b: seq<Event>)
    requires QuietBefore(tracked, a, b)
    ensures RowsOf(a, tracked + Created(a)) + RowsOf(b, tracked + Created(a) + Created(b))
         == RowsOf(a + b, tracked + Created(a) + Created(b))
  {
    var t1, t2 := tracked + Created(a), tracked + Created(a) + Created(b);
    FilterConcat(a, b, RowOf(t2));
    FilterAgrees(a, RowOf(t1), RowOf(t2));
  }

  lemma {:induction false} ReservesJoin(st: State, a: seq<Event>, b: seq<Event>, p: Address)
    requires QuietBefore(st.tracked, a, b) && p in st.tracked + Created(a + b)
    ensures LastSync(b, p, Reserves(Process(st, a).pairs, p)) == LastSync(a + b, p, Reserves(st.pairs, p))
  {
    CreatedConcat(a, b);
    LastSyncConcat(a, b, p, Reserves(st.pairs, p));
    if p !in st.tracked + Created(a) {
      LastSyncNone(a, p, Reserves(st.pairs, p));
    }
  }

  lemma TrackedJoin(st: State, a: seq<Event>, b: seq<Event>)
    ensures Process(Process(st, a), b).tracked == Process(st, a + b).tracked == st.tracked + Created(a) + Created(b)
  {
    CreatedConcat(a, b);
    hide Created, LastSync, RowsOf;
  }

  lemma PairsJoin(st: State, a: seq<Event>, b: seq<Event>)
    requires QuietBefore(st.tracked, a, b)
    ensures Process(Process(st, a), b).pairs == Process(st, a + b).pairs
  {
    TrackedJoin(st, a, b);
    CreatedConcat(a, b);
    hide LastSync, RowsOf, Created, QuietBefore;
    var l, r := Process(Process(st, a), b), Process(st, a + b);
    forall p
      ensures p in l.pairs <==> p in r.pairs
      ensures p in l.pairs ==> l.pairs[p] == r.pairs[p]
    {
      if p in r.tracked {
        ReservesJoin(st, a, b, p);
      }
    }
    SameMap(l.pairs, r.pairs);
  }

  /** Processing two quiet ranges one after the other is processing them as one. */
  lemma ProcessJoin(st: State, a: seq<Event>, b: seq<Event>)
    requires QuietBefore(st.tracked, a, b)
    ensures Process(Process(st, a), b) == Process(st, a + b)
  {
    PairsJoin(st, a, b);
    TrackedJoin(st, a, b);
    RowsJoin(st.tracked, a, b);
    hide LastSync, RowsOf, Created, QuietBefore;
  }

  // ---------- independence of the batch size ----------

  /** No pair emits anything in a block before the one that creates it, within [from, to]. */
  ghost predicate Quiet(tracked: set<Address>, chain: Chain, from: nat, to: nat)
    requires to < |chain|
  {
    forall m: nat :: from <= m < to ==> QuietAround(tracked, chain, from, m, to)
  }

  /** Nothing up to block m belongs to a pair created only after block m. */
  ghost predicate QuietAround(tracked: set<Address>, chain: Chain, from: nat, m: nat, to: nat)
    requires from <= m <= to < |chain|
  {
    QuietBefore(tracked, LogsIn(chain, from, m), LogsIn(chain, m + 1, to))
  }

  lemma QuietRest(tracked: set<Address>, chain: Chain, from: nat, mid: nat, to: nat)
    requires from <= mid < to < |chain| && Quiet(tracked, chain, from, to)
    ensures Quiet(tracked + Created(LogsIn(chain, from, mid)), chain, mid + 1, to)
  {
    var first := LogsIn(chain, from, mid);
    hide LogsIn;
    var next := mid + 1;
    forall m: nat | next <= m < to
      ensures QuietAround(tracked + Created(first), chain, next, m, to)
    {
      LogsSplit(chain, from, mid, m);
      assert QuietAround(tracked, chain, from, m, to);
    }
  }

  /** The tracked pairs, the table rows and the reserves after the batched sync are those of one range
      over all blocks, for every batch size, when pairs are quiet before their creation. */
  lemma {:induction false} BatchSizeIrrelevant(st: State, chain: Chain, start: nat, current: nat, batch: nat)
    requires batch > 0 && start <= current < |chain| && Quiet(st.tracked, chain, start, current)
    ensures SyncBatches(st, chain, start, current, batch) == Process(st, LogsIn(chain, start, current))
    decreases current - start
  {
    hide Process, LogsIn, Quiet;
    if start + batch - 1 < current {
      var end := start + batch - 1;
      var first, rest := LogsIn(chain, start, end), LogsIn(chain, end + 1, current);
      var mid := Process(st, first);
      ProcessTracked(st, first);
      QuietRest(st.tracked, chain, start, end, current);
      BatchSizeIrrelevant(mid, chain, end + 1, current, batch);
      QuietAt(st.tracked, chain, start, end, current);
      ProcessJoin(st, first, rest);
      LogsSplit(chain, start, end, current);
    }
  }

  lemma ProcessTracked(st: State, logs: seq<Event>)
    ensures Process(st, logs).tracked == st.tracked + Created(logs)
  {}

  lemma QuietAt(tracked: set<Address>, chain: Chain, from: nat, m: nat, to: nat)
    requires from <= m < to < |chain| && Quiet(tracked, chain, from, to)
    ensures QuietBefore(tracked, LogsIn(chain, from, m), LogsIn(chain, m + 1, to))
  {
    assert QuietAround(tracked, chain, from, m, to);
  }

  /** The same for the whole sync: any two batch sizes give the same state. */
  lemma SyncIndependentOfBatch(st: State, chain: Chain, startBlock: nat, current: nat, b1: nat, b2: nat)
    requires b1 > 0 && b2 > 0 && current < |chain|
    requires FromBlock(st, startBlock) <= current ==> Quiet(st.tracked, chain, FromBlock(st, startBlock), current)
    ensures SyncHistorical(st, chain, startBlock, current, b1) == SyncHistorical(st, chain, startBlock, current, b2)
  {
    var from := FromBlock(st, startBlock);
    if from < current {
      BatchSizeIrrelevant(st, chain, from, current, b1);
      BatchSizeIrrelevant(st, chain, from, current, b2);
    }
  }

  // ---------- the condition is exact for the table rows ----------

  /** Quiet for the row events only. */
  ghost predicate RowsQuiet(tracked: set<Address>, chain: Chain, from: nat, to: nat)
    requires to < |chain|
  {
    forall m: nat :: from <= m < to ==> RowsQuietAround(tracked, chain, from, m, to)
  }

  ghost predicate RowsQuietAround(tracked: set<Address>, chain: Chain, from: nat, m: nat, to: nat)
    requires from <= m <= to < |chain|
  {
    RowsQuietBefore(tracked, LogsIn(chain, from, m), LogsIn(chain, m + 1, to))
  }

  ghost predicate RowsQuietBefore(tracked: set<Address>, earlier: seq<Event>, later: seq<Event>) {
    forall e :: e in earlier && e.Row? && e.pair in Created(later) ==> e.pair in tracked + Created(earlier)
  }

  lemma {:induction false} FilterFewer(a: seq<Event>, p: Event -> bool, q: Event -> bool)
    requires forall e :: p(e) ==> q(e)
    ensures multiset(Filter(a, p)) <= multiset(Filter(a, q))
  {
    if a != [] {
      FilterFewer(a[..|a| - 1], p, q);
    }
  }

  lemma RowsFewer(a: seq<Event>, t1: set<Address>, t2: set<Address>)
    requires t1 <= t2
    ensures RowsOf(a, t1) <= RowsOf(a, t2)
  {
    FilterFewer(a, RowOf(t1), RowOf(t2));
  }

  lemma BatchTurn(st: State, chain: Chain, start: nat, current: nat, batch: nat)
    requires batch > 0 && start <= current < |chain|
    ensures start + batch - 1 >= current ==>
      SyncBatches(st, chain, start, current, batch) == Process(st, LogsIn(chain, start, current))
    ensures start + batch - 1 < current ==>
      SyncBatches(st, chain, start, current, batch) ==
      SyncBatches(Process(st, LogsIn(chain, start, start + batch - 1)), chain, start + batch, current, batch)
  {
    hide Process, LogsIn;
  }

  /** One turn of the batch loop, and its end. */
  lemma SyncTurn(st: State, chain: Chain, start: nat, current: nat, batch: nat)
    requires batch > 0 && current < |chain| && start <= current + batch
    ensures start > current ==> SyncBatches(st, chain, start, current, batch) == st
    ensures start <= current ==>
      var end := if start + batch - 1 < current then start + batch - 1 else current;
      SyncBatches(st, chain, start, current, batch) ==
      SyncBatches(Process(st, LogsIn(chain, start, end)), chain, start + batch, current, batch)
  {
    hide Process, LogsIn;
  }

  /** A batched sync never stores more rows than one range over all blocks. */
  lemma {:induction false} BatchesStoreNoMore(st: State, chain: Chain, start: nat, current: nat, batch: nat, e: Event)
    requires batch > 0 && start <= current < |chain|
    ensures SyncBatches(st, chain, start, current, batch).rows[e] <= Process(st, LogsIn(chain, start, current)).rows[e]
    decreases current - start
  {
    hide *;
    BatchTurn(st, chain, start, current, batch);
    if start + batch - 1 < current {
      var end := start + batch - 1;
      var a, b := LogsIn(chain, start, end), LogsIn(chain, end + 1, current);
      BatchesStoreNoMore(Process(st, a), chain, end + 1, current, batch, e);
      LogsSplit(chain, start, end, current);
      JoinStoresNoLess(st, a, b, e);
    }
  }

  lemma RowsConcat(a: seq<Event>, b: seq<Event>, t: set<Address>)
    ensures RowsOf(a + b, t) == RowsOf(a, t) + RowsOf(b, t)
  {
    FilterConcat(a, b, RowOf(t));
  }

  lemma JoinStoresNoLess(st: State, a: seq<Event>, b: seq<Event>, e: Event)
    ensures Process(Process(st, a), b).rows[e] <= Process(st, a + b).rows[e]
  {
    CreatedConcat(a, b);
    var t := st.tracked + Created(a) + Created(b);
    assert t == st.tracked + Created(a + b);
    RowsConcat(a, b, t);
    RowsFewer(a, st.tracked + Created(a), t);
    hide RowsOf, Created, LastSync;
  }

  lemma MissedRow(st: State, a: seq<Event>, b: seq<Event>, e: Event)
    requires e in a && e.Row? && e.pair in Created(b) && e.pair !in st.tracked + Created(a)
    ensures Process(Process(st, a), b).rows[e] < Process(st, a + b).rows[e]
  {
    CreatedConcat(a, b);
    var t1, t := st.tracked + Created(a), st.tracked + Created(a) + Created(b);
    assert t == st.tracked + Created(a + b);
    RowsConcat(a, b, t);
    assert e !in Filter(a, RowOf(t1)) && e in Filter(a, RowOf(t));
    assert RowsOf(a, t1)[e] == 0 && RowsOf(a, t)[e] > 0;
  }

  /** The rows stored are independent of the batch size exactly when no row event comes in a block
      before the block that creates its pair. */
  lemma RowsIndependentIff(st: State, chain: Chain, start: nat, current: nat)
    requires start <= current < |chain|
    ensures (forall batch: nat :: batch > 0 ==>
               SyncBatches(st, chain, start, current, batch).rows == Process(st, LogsIn(chain, start, current)).rows)
       <==> RowsQuiet(st.tracked, chain, start, current)
  {
    hide SyncBatches, Process, LogsIn, RowsQuietAround;
    if RowsQuiet(st.tracked, chain, start, current) {
      forall batch: nat | batch > 0
        ensures SyncBatches(st, chain, start, current, batch).rows == Process(st, LogsIn(chain, start, current)).rows
      {
        QuietRowsStored(st, chain, start, current, batch);
      }
    } else {
      var m: nat :| start <= m < current && !RowsQuietAround(st.tracked, chain, start, m, current);
      NoisyBatch(st, chain, start, m, current);
    }
  }

  lemma NoisyBatch(st: State, chain: Chain, start: nat, m: nat, current: nat)
    requires start <= m < current < |chain| && !RowsQuietAround(st.tracked, chain, start, m, current)
    ensures SyncBatches(st, chain, start, current, m - start + 1).rows !=
      Process(st, LogsIn(chain, start, current)).rows
  {
    hide SyncBatches, Process, LogsIn, Created;
    var e :| e in LogsIn(chain, start, m) && e.Row?
      && e.pair in Created(LogsIn(chain, m + 1, current)) && e.pair !in st.tracked + Created(LogsIn(chain, start, m));
    BatchEndingAt(st, chain, start, m, current, e);
  }

  lemma FirstBatchThenRest(st: State, chain: Chain, start: nat, m: nat, current: nat, e: Event)
    requires start <= m < current < |chain|
    ensures SyncBatches(st, chain, start, current, m - start + 1).rows[e]
         <= Process(Process(st, LogsIn(chain, start, m)), LogsIn(chain, m + 1, current)).rows[e]
  {
    hide *;
    BatchTurn(st, chain, start, current, m - start + 1);
    BatchesStoreNoMore(Process(st, LogsIn(chain, start, m)), chain, m + 1, current, m - start + 1, e);
  }

  lemma BatchEndingAt(st: State, chain: Chain, start: nat, m: nat, current: nat, e: Event)
    requires start <= m < current < |chain| && e in LogsIn(chain, start, m) && e.Row?
    requires e.pair in Created(LogsIn(chain, m + 1, current)) &&
      e.pair !in st.tracked + Created(LogsIn(chain, start, m))
    ensures SyncBatches(st, chain, start, current, m - start + 1).rows[e] <
      Process(st, LogsIn(chain, start, current)).rows[e]
  {
    hide *;
    var a, b := LogsIn(chain, start, m), LogsIn(chain, m + 1, current);
    MissedRow(st, a, b, e);
    LogsSplit(chain, start, m, current);
    FirstBatchThenRest(st, chain, start, m, current, e);
  }

  lemma QuietRowsJoin(st: State, a: seq<Event>, b: seq<Event>)
    requires RowsQuietBefore(st.tracked, a, b)
    ensures Process(Process(st, a), b).rows == Process(st, a + b).rows
  {
    CreatedConcat(a, b);
    var t1, t := st.tracked + Created(a), st.tracked + Created(a) + Created(b);
    assert t == st.tracked + Created(a + b);
    RowsConcat(a, b, t);
    FilterAgrees(a, RowOf(t1), RowOf(t));
    hide Created, LastSync;
  }

  lemma RowsQuietRest(tracked: set<Address>, chain: Chain, from: nat, mid: nat, to: nat)
    requires from <= mid < to < |chain| && RowsQuiet(tracked, chain, from, to)
    ensures RowsQuiet(tracked + Created(LogsIn(chain, from, mid)), chain, mid + 1, to)
  {
    hide LogsIn;
    var next, seen := mid + 1, tracked + Created(LogsIn(chain, from, mid));
    forall m: nat | next <= m < to
      ensures RowsQuietAround(seen, chain, next, m, to)
    {
      LogsSplit(chain, from, mid, m);
      assert RowsQuietAround(tracked, chain, from, m, to);
    }
  }

  lemma {:induction false} QuietRowsStored(st: State, chain: Chain, start: nat, current: nat, batch: nat)
    requires batch > 0 && start <= current < |chain| && RowsQuiet(st.tracked, chain, start, current)
    ensures SyncBatches(st, chain, start, current, batch).rows == Process(st, LogsIn(chain, start, current)).rows
    decreases current - start
  {
    hide *;
    BatchTurn(st, chain, start, current, batch);
    if start + batch - 1 < current {
      var end := start + batch - 1;
      var a, b := LogsIn(chain, start, end), LogsIn(chain, end + 1, current);
      RowsQuietAt(st.tracked, chain, start, end, current);
      ProcessTracked(st, a);
      RowsQuietRest(st.tracked, chain, start, end, current);
      QuietRowsStored(Process(st, a), chain, end + 1, current, batch);
      LogsSplit(chain, start, end, current);
      QuietRowsJoin(st, a, b);
    }
  }

  lemma RowsQuietAt(tracked: set<Address>, chain: Chain, from: nat, m: nat, to: nat)
    requires from <= m < to < |chain| && RowsQuiet(tracked, chain, from, to)
    ensures RowsQuietBefore(tracked, LogsIn(chain, from, m), LogsIn(chain, m + 1, to))
  {
    assert RowsQuietAround(tracked, chain, from, m, to);
  }

  /** The sync covers its whole range exactly when the first block is not the head itself: with one
      single block to do, that block is left out and no checkpoint is saved. */
  lemma SingleBlockIsSkipped(st: State, chain: Chain, startBlock: nat, current: nat, batch: nat)
    requires batch > 0 && current < |chain| && FromBlock(st, startBlock) <= current
    requires Quiet(st.tracked, chain, FromBlock(st, startBlock), current) && st.lastBlock != Some(current)
    ensures SyncHistorical(st, chain, startBlock, current, batch)
         == Process(st, LogsIn(chain, FromBlock(st, startBlock), current)).(lastBlock := Some(current))
       <==> FromBlock(st, startBlock) != current
  {
    BatchSizeIrrelevant(st, chain, FromBlock(st, startBlock), current, batch);
  }
}
