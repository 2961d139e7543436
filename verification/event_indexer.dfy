/** The indexer object: the tracked pairs and the database tables it writes, proved to take the steps
    of the historical sync. */
module EventIndexer {
  import opened Scan
  import opened HistoricalSync

  /** The batch size that the indexer uses; every result holds for any positive size. */
  const BATCH_SIZE: nat := 500

  function KindOf(pair: Address, kind: Kind): HistoricalSync.Event -> bool {
    (e: HistoricalSync.Event) => e.Row? && e.pair == pair && e.kind == kind
  }

  function SyncOf(pair: Address): HistoricalSync.Event -> bool {
    (e: HistoricalSync.Event) => e.Sync? && e.pair == pair
  }

  /** The three event kinds together are all rows of the pair. */
  lemma {:induction false} KindsAreRows(logs: seq<HistoricalSync.Event>, pair: Address)
    ensures RowsOf(logs, {pair}) ==
      multiset(Filter(logs, KindOf(pair, SwapLog))) + multiset(Filter(logs, KindOf(pair, MintLog))) +
        multiset(Filter(logs, KindOf(pair, BurnLog)))
  {
    if logs != [] {
      KindsAreRows(logs[..|logs| - 1], pair);
    }
  }

  lemma {:induction false} LastSyncIsLast(logs: seq<HistoricalSync.Event>, pair: Address, before: ReservePair)
    ensures Filter(logs, SyncOf(pair)) == [] ==> LastSync(logs, pair, before) == before
    ensures Filter(logs, SyncOf(pair)) != [] ==>
      var last := Filter(logs, SyncOf(pair))[|Filter(logs, SyncOf(pair))| - 1];
      last.Sync? && LastSync(logs, pair, before) == last.reserves
  {
    if logs != [] {
      LastSyncIsLast(logs[..|logs| - 1], pair, before);
    }
  }

  lemma {:induction false} RowsOfOneMore(logs: seq<HistoricalSync.Event>, done: set<Address>, p: Address)
    requires p !in done
    ensures RowsOf(logs, done + {p}) == RowsOf(logs, done) + RowsOf(logs, {p})
  {
    if logs != [] {
      RowsOfOneMore(logs[..|logs| - 1], done, p);
    }
  }

  lemma {:induction false} NoRowsOfNone(logs: seq<HistoricalSync.Event>)
    ensures RowsOf(logs, {}) == multiset{}
  {
    if logs != [] {
      NoRowsOfNone(logs[..|logs| - 1]);
    }
  }

  lemma CreatedSnoc(logs: seq<HistoricalSync.Event>, i: nat)
    requires i < |logs|
    ensures Created(logs[..i + 1]) ==
      if logs[i].PairCreated? then Created(logs[..i]) + {logs[i].pair} else Created(logs[..i])
  {
    assert logs[..i + 1] == logs[..i] + [logs[i]];
  }

  class Indexer {
    var trackedPairs: set<Address>
    var pairs: map<Address, ReservePair>
    var rows: multiset<HistoricalSync.Event>
    var lastBlock: Option<nat>

    ghost function Current(): State
      reads this
    {
      State(trackedPairs, pairs, rows, lastBlock)
    }

    /** Every tracked pair has a row. */
    ghost predicate Valid()
      reads this
    {
      trackedPairs <= pairs.Keys
    }

    constructor (pairs: map<Address, ReservePair>, rows: multiset<HistoricalSync.Event>, lastBlock: Option<nat>)
      ensures Valid() && Current() == State({}, pairs, rows, lastBlock)
    {
      this.trackedPairs := {};
      this.pairs := pairs;
      this.rows := rows;
      this.lastBlock := lastBlock;
    }

    method LoadExistingPairs()
      requires Valid()
      modifies this`trackedPairs
      ensures Valid() && trackedPairs == pairs.Keys
    {
      var todo := pairs.Keys;
      while todo != {}
        invariant todo <= pairs.Keys && trackedPairs <= pairs.Keys && pairs.Keys - todo <= trackedPairs
        decreases todo
      {
        HasMember(todo);
        var p: Address :| p in todo;
        trackedPairs := trackedPairs + {p};
        todo := todo - {p};
      }
    }

    method HandlePairCreated(pair: Address)
      requires Valid()
      modifies this`trackedPairs, this`pairs
      ensures Valid() && trackedPairs == old(trackedPairs) + {pair}
      ensures pairs == if pair in old(pairs) then old(pairs) else old(pairs)[pair := NO_RESERVES]
    {
      if pair in trackedPairs {
        return;
      }
      if pair !in pairs {
        pairs := pairs[pair := NO_RESERVES];
      }
      trackedPairs := trackedPairs + {pair};
    }

    method InsertRows(logs: seq<HistoricalSync.Event>, pair: Address, kind: Kind)
      modifies this`rows
      ensures rows == old(rows) + multiset(Filter(logs, KindOf(pair, kind)))
    {
      for i := 0 to |logs|
        invariant rows == old(rows) + multiset(Filter(logs[..i], KindOf(pair, kind)))
      {
        assert logs[..i + 1][..i] == logs[..i];
        if logs[i].Row? && logs[i].pair == pair && logs[i].kind == kind {
          rows := rows + multiset{logs[i]};
        }
      }
      assert logs[..|logs|] == logs;
    }

    method IndexPairEvents(pair: Address, logs: seq<HistoricalSync.Event>)
      requires Valid() && pair in pairs
      modifies this`rows, this`pairs
      ensures Valid() && rows == old(rows) + RowsOf(logs, {pair})
      ensures pairs == old(pairs)[pair := LastSync(logs, pair, old(pairs)[pair])]
    {
      InsertRows(logs, pair, SwapLog);
      InsertRows(logs, pair, MintLog);
      InsertRows(logs, pair, BurnLog);
      KindsAreRows(logs, pair);
      var syncLogs := Filter(logs, SyncOf(pair));
      LastSyncIsLast(logs, pair, pairs[pair]);
      if |syncLogs| > 0 {
        var lastSync := syncLogs[|syncLogs| - 1];
        pairs := pairs[pair := lastSync.reserves];
      } else {
        assert pairs == pairs[pair := pairs[pair]];
      }
    }

    method HandleCreations(logs: seq<HistoricalSync.Event>)
      requires Valid()
      modifies this`trackedPairs, this`pairs
      ensures Valid() && trackedPairs == old(trackedPairs) + Created(logs)
      ensures pairs.Keys == old(pairs).Keys + Created(logs)
      ensures forall p :: p in pairs ==> pairs[p] == Reserves(old(pairs), p)
    {
      for i := 0 to |logs|
        invariant Valid() && trackedPairs == old(trackedPairs) + Created(logs[..i])
        invariant pairs.Keys == old(pairs).Keys + Created(logs[..i])
        invariant forall p :: p in pairs ==> pairs[p] == Reserves(old(pairs), p)
      {
        CreatedSnoc(logs, i);
        if logs[i].PairCreated? {
          HandlePairCreated(logs[i].pair);
        }
      }
      assert logs[..|logs|] == logs;
    }

    method IndexTracked(logs: seq<HistoricalSync.Event>)
      requires Valid()
      modifies this`rows, this`pairs
      ensures Valid() && rows == old(rows) + RowsOf(logs, trackedPairs) && pairs.Keys == old(pairs).Keys
      ensures forall p :: p in pairs ==>
        pairs[p] == if p in trackedPairs then LastSync(logs, p, old(pairs)[p]) else old(pairs)[p]
    {
      var todo := trackedPairs;
      ghost var done: set<Address> := {};
      NoRowsOfNone(logs);
      hide LastSync, RowsOf;
      while todo != {}
        invariant todo <= trackedPairs && done == trackedPairs - todo
        invariant Valid() && pairs.Keys == old(pairs).Keys
        invariant rows == old(rows) + RowsOf(logs, done)
        invariant forall p :: p in pairs ==>
          pairs[p] == if p in done then LastSync(logs, p, old(pairs)[p]) else old(pairs)[p]
        decreases todo
      {
        HasMember(todo);
        var pair: Address :| pair in todo;
        IndexPairEvents(pair, logs);
        RowsOfOneMore(logs, done, pair);
        done := done + {pair};
        todo := todo - {pair};
      }
      assert done == trackedPairs;
    }

    method ProcessBlockRange(chain: Chain, from: nat, to: nat)
      requires Valid() && from <= to < |chain|
      modifies this`trackedPairs, this`pairs, this`rows
      ensures Valid() && Current() == Process(old(Current()), LogsIn(chain, from, to))
    {
      var logs := LogsIn(chain, from, to);
      HandleCreations(logs);
      IndexTracked(logs);
      ghost var after := Process(old(Current()), logs);
      SameMap(pairs, after.pairs);
    }

    method SyncRanges(chain: Chain, fromBlock: nat, currentBlock: nat, batchSize: nat)
      requires Valid() && batchSize > 0 && fromBlock <= currentBlock < |chain|
      modifies this`trackedPairs, this`pairs, this`rows
      ensures Valid() && Current() == SyncBatches(old(Current()), chain, fromBlock, currentBlock, batchSize)
    {
      hide Process, LogsIn, SyncBatches;
      var start := fromBlock;
      while start <= currentBlock
        invariant Valid() && start <= currentBlock + batchSize
        invariant SyncBatches(Current(), chain, start, currentBlock, batchSize)
               == SyncBatches(old(Current()), chain, fromBlock, currentBlock, batchSize)
        decreases currentBlock + batchSize - start
      {
        var end := if start + batchSize - 1 < currentBlock then start + batchSize - 1 else currentBlock;
        SyncTurn(Current(), chain, start, currentBlock, batchSize);
        ProcessBlockRange(chain, start, end);
        start := start + batchSize;
      }
      SyncTurn(Current(), chain, start, currentBlock, batchSize);
    }

    method Sync(chain: Chain, startBlock: nat, currentBlock: nat)
      requires Valid() && currentBlock < |chain|
      modifies this
      ensures Valid() && Current() == SyncHistorical(old(Current()), chain, startBlock, currentBlock, 500)
    {
      hide Process, LogsIn, SyncBatches;
      var fromBlock := if lastBlock.Some? then lastBlock.value + 1 else startBlock;
      if fromBlock >= currentBlock {
        return;
      }
      SyncRanges(chain, fromBlock, currentBlock, BATCH_SIZE);
      lastBlock := Some(currentBlock);
    }
  }
}
