/** The candle generator over its database tables, and the agreement of incremental candles with a
    full rebuild over every interleaving of swap arrivals and generator runs. */
module PriceService {
  import opened Scan
  import opened Candles

  datatype CandleKey = CandleKey(pair: int, interval: string, timestamp: int)

  function IntervalMs(interval: string): (ms: nat)
    ensures ms > 0
  {
    if interval == "1m" then 60_000
    else if interval == "5m" then 300_000
    else if interval == "15m" then 900_000
    else if interval == "1h" then 3_600_000
    else if interval == "4h" then 14_400_000
    else if interval == "1d" then 86_400_000
    else 3_600_000
  }

  // ---------- tables ----------

  /** The candle rows of one pair and interval, by time. */
  function Table(candles: map<CandleKey, Candle>, pair: int, interval: string): map<int, Candle> {
    map t | t in Times(candles, pair, interval) :: candles[CandleKey(pair, interval, t)]
  }

  function Times(candles: map<CandleKey, Candle>, pair: int, interval: string): (r: set<int>)
    ensures forall t :: t in r <==> CandleKey(pair, interval, t) in candles
  {
    set k | k in candles && k.pair == pair && k.interval == interval :: k.timestamp
  }

  function OfPair(pair: int): Swap -> bool {
    (s: Swap) => s.pair == pair
  }

  /** The swaps of a pair in the order of the query: by time, equal times in insertion order. */
  function PairSwaps(swaps: seq<Swap>, pair: int): seq<Swap> {
    SortByTime(Filter(swaps, OfPair(pair)))
  }

  /** The candle rows after upserting a bucket map. */
  function Upserted(candles: map<CandleKey, Candle>, pair: int, interval: string, buckets: map<int, Candle>)
      : map<CandleKey, Candle> {
    map k | k in candles.Keys + RowKeys(pair, interval, buckets.Keys) ::
      if k.pair == pair && k.interval == interval && k.timestamp in buckets then buckets[k.timestamp] else candles[k]
  }

  function RowKeys(pair: int, interval: string, times: set<int>): (r: set<CandleKey>)
    ensures forall k :: k in r <==> k.pair == pair && k.interval == interval && k.timestamp in times
  {
    set t | t in times :: CandleKey(pair, interval, t)
  }

  lemma UpsertedOwn(candles: map<CandleKey, Candle>, pair: int, interval: string, buckets: map<int, Candle>)
    ensures Table(Upserted(candles, pair, interval, buckets), pair, interval) ==
      Table(candles, pair, interval) + buckets
  {
    var c := Upserted(candles, pair, interval, buckets);
    var l, r := Table(c, pair, interval), Table(candles, pair, interval) + buckets;
    forall t
      ensures t in l <==> t in r
      ensures t in l ==> l[t] == r[t]
    {
      assert CandleKey(pair, interval, t) in c <==> CandleKey(pair, interval, t) in candles || t in buckets;
    }
  }

  lemma UpsertedOther(candles: map<CandleKey, Candle>, pair: int, interval: string, buckets: map<int, Candle>, q: int,
      j: string)
    requires q != pair || j != interval
    ensures Table(Upserted(candles, pair, interval, buckets), q, j) == Table(candles, q, j)
  {
    var c := Upserted(candles, pair, interval, buckets);
    var l, r := Table(c, q, j), Table(candles, q, j);
    forall t
      ensures t in l <==> t in r
      ensures t in l ==> l[t] == r[t]
    {
      assert CandleKey(q, j, t) in c <==> CandleKey(q, j, t) in candles;
    }
  }

  lemma UpsertedNothing(candles: map<CandleKey, Candle>, pair: int, interval: string)
    ensures Upserted(candles, pair, interval, map[]) == candles
  {}

  datatype Database = Database(pairs: set<int>, swaps: seq<Swap>, candles: map<CandleKey, Candle>)

  /** What one run of the generator does to the database. */
  function Generate(db: Database, pair: int, interval: string): Database {
    if pair !in db.pairs then db
    else
      var fetched := Filter(PairSwaps(db.swaps, pair), After(Since(Table(db.candles, pair, interval))));
      db.(candles := Upserted(db.candles, pair, interval, Aggregate(fetched, IntervalMs(interval))))
  }

  lemma EmptyAggregate(ms: nat)
    requires ms > 0
    ensures Aggregate([], ms) == map[]
  {}

  /** One turn of the loop over the swaps. */
  lemma AggregateTurn(xs: seq<Swap>, ms: nat, i: nat)
    requires ms > 0 && i < |xs|
    ensures var prev, b := Aggregate(xs[..i], ms), BucketOf(xs[i].timestamp, ms);
      Aggregate(xs[..i + 1], ms) == prev[b := if b in prev then Extend(prev[b], xs[i]) else FirstCandle(xs[i])]
  {
    assert xs[..i + 1][..i] == xs[..i];
    hide BucketOf;
  }

  /** A pair without a row gets no candles. */
  lemma UnknownPairIsSkipped(db: Database, pair: int, interval: string)
    requires pair !in db.pairs
    ensures Generate(db, pair, interval) == db
  {}

  class Service {
    var db: Database

    constructor (db: Database)
      ensures this.db == db
    {
      this.db := db;
    }

    method GenerateOHLCV(pairAddr: int, interval: string)
      modifies this
      ensures db == Generate(old(db), pairAddr, interval)
    {
      if pairAddr !in db.pairs {
        return;
      }
      var ms := IntervalMs(interval);
      var since := Since(Table(db.candles, pairAddr, interval));
      var swaps := Filter(PairSwaps(db.swaps, pairAddr), After(since));
      if |swaps| == 0 {
        UpsertedNothing(db.candles, pairAddr, interval);
        return;
      }
      hide Upserted, Table, PairSwaps, Aggregate;
      var buckets := AggregateSwaps(swaps, ms);
      UpsertAll(pairAddr, interval, buckets);
    }

    /** The loop that fills the buckets. */
    static method AggregateSwaps(swaps: seq<Swap>, ms: nat) returns (buckets: map<int, Candle>)
      requires ms > 0
      ensures buckets == Aggregate(swaps, ms)
    {
      hide BucketOf, Max, Min, Aggregate;
      EmptyAggregate(ms);
      buckets := map[];
      for i := 0 to |swaps|
        invariant buckets == Aggregate(swaps[..i], ms)
      {
        var s := swaps[i];
        var ts := BucketOf(s.timestamp, ms);
        AggregateTurn(swaps, ms, i);
        if ts !in buckets {
          buckets := buckets[ts := Candle(s.price, s.price, s.price, s.price, s.volume)];
        } else {
          var b := buckets[ts];
          b := b.(high := Max(b.high, s.price));
          b := b.(low := Min(b.low, s.price));
          b := b.(close := s.price);
          b := b.(volume := b.volume + s.volume);
          buckets := buckets[ts := b];
        }
      }
      assert swaps[..|swaps|] == swaps;
    }

    /** The loop that upserts one row per bucket. */
    method UpsertAll(pairAddr: int, interval: string, buckets: map<int, Candle>)
      modifies this
      ensures db == old(db).(candles := Upserted(old(db).candles, pairAddr, interval, buckets))
    {
      ghost var before := db.candles;
      var todo := buckets.Keys;
      UpsertedNothing(before, pairAddr, interval);
      MinusNothing(buckets);
      while todo != {}
        invariant todo <= buckets.Keys
        invariant db == old(db).(candles := Upserted(before, pairAddr, interval, buckets - todo))
        decreases todo
      {
        HasMember(todo);
        var ts: int :| ts in todo;
        UpsertedOneMore(before, pairAddr, interval, buckets - todo, ts, buckets[ts]);
        MinusOneLess(buckets, todo, ts);
        db := db.(candles := db.candles[CandleKey(pairAddr, interval, ts) := buckets[ts]]);
        todo := todo - {ts};
      }
    }
  }

  lemma UpsertedOneMore(candles: map<CandleKey, Candle>, pair: int, interval: string, done: map<int, Candle>, t: int,
      c: Candle)
    ensures Upserted(candles, pair, interval, done[t := c]) ==
      Upserted(candles, pair, interval, done)[CandleKey(pair, interval, t) := c]
  {}

  // ---------- one series under arrivals and ticks ----------

  datatype Event = Arrive(swap: Swap) | TickNow

  datatype Series = Series(rows: seq<Swap>, table: map<int, Candle>)

  function StepSeries(x: Series, ms: nat, e: Event): Series
    requires ms > 0
  {
    match e
    case Arrive(s) => x.(rows := x.rows + [s])
    case TickNow => x.(table := Tick(x.table, SortByTime(x.rows), ms))
  }

  function RunSeries(x: Series, ms: nat, es: seq<Event>): Series
    requires ms > 0
    decreases |es|
  {
    if es == [] then x else RunSeries(StepSeries(x, ms, es[0]), ms, es[1..])
  }

  /** A swap that is not older than the last candle's bucket and lies on no bucket boundary. */
  predicate Timely(x: Series, ms: nat, s: Swap)
    requires ms > 0
  {
    s.timestamp > 0 && !IsStart(s.timestamp, ms) && (x.table != map[] ==> BucketOf(s.timestamp, ms) >= Since(x.table))
  }

  ghost predicate AllTimely(x: Series, ms: nat, es: seq<Event>)
    requires ms > 0
    decreases |es|
  {
    es != [] ==> (es[0].Arrive? ==> Timely(x, ms, es[0].swap)) && AllTimely(StepSeries(x, ms, es[0]), ms, es[1..])
  }

  ghost predicate SeriesInv(x: Series, ms: nat)
    requires ms > 0
  {
    && EarlierRight(x.table, SortByTime(x.rows), ms)
    && forall s :: s in SortByTime(x.rows) ==> s.timestamp > 0 && !IsStart(s.timestamp, ms)
  }

  lemma ArrivedMembers(xs: seq<Swap>, s: Swap)
    ensures forall z :: z in Insert(xs, s) ==> z in xs || z == s
  {
    InsertAdds(xs, s);
    forall z | z in Insert(xs, s)
      ensures z in xs || z == s
    {
      assert z in multiset(Insert(xs, s));
    }
  }

  lemma {:induction false} EarlierStaysRight(table: map<int, Candle>, xs: seq<Swap>, ms: nat, s: Swap)
    requires ms > 0 && EarlierRight(table, xs, ms)
    requires table != map[] ==> BucketOf(s.timestamp, ms) >= Since(table)
    ensures EarlierRight(table, Insert(xs, s), ms)
  {
    if table != map[] {
      var l, ys := Since(table), Insert(xs, s);
      hide Aggregate, Since, BucketOf, Insert;
      BucketStaysFilled(xs, ys, s, ms, l);
      forall b | b < l
        ensures b in Aggregate(ys, ms) <==> b in Aggregate(xs, ms)
        ensures b in Aggregate(ys, ms) ==> Aggregate(ys, ms)[b] == Aggregate(xs, ms)[b]
      {
        FilterInsertOther(xs, s, InBucket(b, ms));
        SameBuckets(xs, ys, ms, b);
      }
    }
  }

  lemma ArriveKeeps(x: Series, ms: nat, s: Swap)
    requires ms > 0 && SeriesInv(x, ms) && Timely(x, ms, s)
    ensures SeriesInv(StepSeries(x, ms, Arrive(s)), ms)
  {
    hide EarlierRight, SortByTime, IsStart, Insert, Since, BucketOf;
    SortByTimeSnoc(x.rows, s);
    ArrivedMembers(SortByTime(x.rows), s);
    EarlierStaysRight(x.table, SortByTime(x.rows), ms, s);
  }

  lemma BucketStaysFilled(xs: seq<Swap>, ys: seq<Swap>, s: Swap, ms: nat, b: int)
    requires ms > 0 && ys == Insert(xs, s) && b in Aggregate(xs, ms)
    ensures b in Aggregate(ys, ms)
  {
    AggregateAt(xs, ms, b);
    AggregateAt(ys, ms, b);
    InsertAdds(xs, s);
    var own := Filter(xs, InBucket(b, ms));
    assert own[0] in own && own[0] in multiset(xs) && own[0] in multiset(ys);
    assert own[0] in Filter(ys, InBucket(b, ms));
  }

  /** After a tick the table is the aggregation of all swaps. */
  lemma TickKeeps(x: Series, ms: nat)
    requires ms > 0 && SeriesInv(x, ms)
    ensures StepSeries(x, ms, TickNow).table == Aggregate(SortByTime(x.rows), ms)
    ensures SeriesInv(StepSeries(x, ms, TickNow), ms)
  {
    SinceIsStart(x.table, SortByTime(x.rows), ms);
    TickIsRebuild(x.table, SortByTime(x.rows), ms);
  }

  lemma {:induction false} RunKeeps(x: Series, ms: nat, es: seq<Event>)
    requires ms > 0 && SeriesInv(x, ms) && AllTimely(x, ms, es)
    ensures SeriesInv(RunSeries(x, ms, es), ms)
    decreases |es|
  {
    hide SeriesInv;
    if es != [] {
      if es[0].Arrive? {
        ArriveKeeps(x, ms, es[0].swap);
      } else {
        TickKeeps(x, ms);
      }
      RunKeeps(StepSeries(x, ms, es[0]), ms, es[1..]);
    }
  }

  // ---------- the whole database ----------

  datatype DbEvent = InsertSwap(swap: Swap) | GenerateCandles(pair: int, interval: string)

  function StepDb(db: Database, e: DbEvent): Database {
    match e
    case InsertSwap(s) => db.(swaps := db.swaps + [s])
    case GenerateCandles(pair, interval) => Generate(db, pair, interval)
  }

  function RunDb(db: Database, es: seq<DbEvent>): Database
    decreases |es|
  {
    if es == [] then db else RunDb(StepDb(db, es[0]), es[1..])
  }

  /** The part of a database that belongs to one pair and interval. */
  function SeriesOf(db: Database, pair: int, interval: string): Series {
    Series(Filter(db.swaps, OfPair(pair)), Table(db.candles, pair, interval))
  }

  /** The events of a run that concern one pair and interval. */
  function EventsOf(es: seq<DbEvent>, pair: int, interval: string): seq<Event>
    decreases |es|
  {
    if es == [] then []
    else
      (match es[0]
       case InsertSwap(s) => if s.pair == pair then [Arrive(s)] else []
       case GenerateCandles(p, i) => if p == pair && i == interval then [TickNow] else [])
      + EventsOf(es[1..], pair, interval)
  }

  lemma StepProjects(db: Database, e: DbEvent, pair: int, interval: string)
    requires pair in db.pairs
    ensures var x, y := SeriesOf(db, pair, interval), SeriesOf(StepDb(db, e), pair, interval);
      y == match e
        case InsertSwap(s) => if s.pair == pair then StepSeries(x, IntervalMs(interval), Arrive(s)) else x
        case GenerateCandles(p, i) =>
          if p == pair && i == interval then StepSeries(x, IntervalMs(interval), TickNow) else x
    ensures StepDb(db, e).pairs == db.pairs
  {
    match e
    case InsertSwap(s) =>
      assert (db.swaps + [s])[..|db.swaps|] == db.swaps;
    case GenerateCandles(p, i) =>
      if p in db.pairs {
        var fetched := Filter(PairSwaps(db.swaps, p), After(Since(Table(db.candles, p, i))));
        if p == pair && i == interval {
          UpsertedOwn(db.candles, p, i, Aggregate(fetched, IntervalMs(i)));
        } else {
          UpsertedOther(db.candles, p, i, Aggregate(fetched, IntervalMs(i)), pair, interval);
        }
      }
  }

  /** Other pairs and intervals do not interfere: each series of the database runs on its own events. */
  lemma {:induction false} RunProjects(db: Database, es: seq<DbEvent>, pair: int, interval: string)
    requires pair in db.pairs
    ensures SeriesOf(RunDb(db, es), pair, interval) ==
            RunSeries(SeriesOf(db, pair, interval), IntervalMs(interval), EventsOf(es, pair, interval))
    decreases |es|
  {
    hide StepDb, SeriesOf, StepSeries, IntervalMs;
    if es != [] {
      StepProjects(db, es[0], pair, interval);
      RunProjects(StepDb(db, es[0]), es[1..], pair, interval);
      var rest := EventsOf(es[1..], pair, interval);
      var all := EventsOf(es, pair, interval);
      assert all == rest || (all != [] && all[1..] == rest);
    }
  }

  /** From an empty candle table, after any interleaving of arrivals and generator runs for all pairs
      and intervals in which the swaps of this pair are timely, one more generator run leaves exactly
      the candles of one aggregation of all swaps of the pair from scratch. */
  lemma IncrementalIsRebuild(db: Database, es: seq<DbEvent>, pair: int, interval: string, end: Database)
    requires pair in db.pairs && Table(db.candles, pair, interval) == map[] && Filter(db.swaps, OfPair(pair)) == []
    requires AllTimely(SeriesOf(db, pair, interval), IntervalMs(interval), EventsOf(es, pair, interval))
    requires end == Generate(RunDb(db, es), pair, interval)
    ensures Table(end.candles, pair, interval) == Aggregate(PairSwaps(end.swaps, pair), IntervalMs(interval))
  {
    var ms, x := IntervalMs(interval), SeriesOf(db, pair, interval);
    assert SeriesInv(x, ms);
    PairsStay(db, es);
    hide SeriesInv, AllTimely, RunSeries, EventsOf, RunDb, Aggregate, IntervalMs;
    RunProjects(db, es, pair, interval);
    RunKeeps(x, ms, EventsOf(es, pair, interval));
    var mid := RunDb(db, es);
    TickKeeps(SeriesOf(mid, pair, interval), ms);
    StepProjects(mid, GenerateCandles(pair, interval), pair, interval);
  }

  lemma {:induction false} PairsStay(db: Database, es: seq<DbEvent>)
    ensures RunDb(db, es).pairs == db.pairs
    decreases |es|
  {
    hide Upserted, Aggregate, IntervalMs;
    if es != [] {
      PairsStay(StepDb(db, es[0]), es[1..]);
    }
  }

  lemma RunThree(x: Series, ms: nat, e: Event, f: Event, g: Event)
    requires ms > 0
    ensures RunSeries(x, ms, [e, f, g]) == StepSeries(StepSeries(StepSeries(x, ms, e), ms, f), ms, g)
  {
    hide StepSeries;
    assert [e, f, g][1..] == [f, g] && [f, g][1..] == [g] && [g][1..] == [];
    var y := StepSeries(x, ms, e);
    var z := StepSeries(y, ms, f);
    assert RunSeries(x, ms, [e, f, g]) == RunSeries(y, ms, [f, g]);
    assert RunSeries(y, ms, [f, g]) == RunSeries(z, ms, [g]);
  }

  lemma OneSwap(s: Swap)
    requires s.timestamp == 60_000
    ensures SortByTime([s]) == [s] && Filter([s], After(0)) == [s]
    ensures Aggregate([s], 60_000) == map[60_000 := FirstCandle(s)]
  {
    assert [s][..0] == [];
    assert SortByTime([s]) == Insert([], s) == [s];
    FilterAll([s], After(0));
    assert BucketOf(60_000, 60_000) == 60_000;
  }

  lemma FirstRun(s: Swap, t: Swap, x: Series)
    requires s.timestamp == 60_000
    requires x == RunSeries(Series([], map[]), 60_000, [Arrive(s), TickNow, Arrive(t)])
    ensures x.rows == [s, t] && x.table == map[60_000 := FirstCandle(s)]
  {
    hide RunSeries, Aggregate, SortByTime, Filter, FirstCandle, BucketOf;
    OneSwap(s);
    RunThree(Series([], map[]), 60_000, Arrive(s), TickNow, Arrive(t));
    var x1 := StepSeries(Series([], map[]), 60_000, Arrive(s));
    assert x1 == Series([s], map[]);
    var x2 := StepSeries(x1, 60_000, TickNow);
    assert x2.table == map[] + map[60_000 := FirstCandle(s)];
    assert [s] + [t] == [s, t];
  }

  lemma TwoSwaps(s: Swap, t: Swap)
    requires s.timestamp == 60_000 && t.timestamp == 60_001
    ensures SortByTime([s, t]) == [s, t]
    ensures forall b :: b in Aggregate([s, t], 60_000) <==> b == 60_000
  {
    OneSwap(s);
    assert [s, t][..1] == [s] && [s] + [t] == [s, t];
    assert BucketOf(60_001, 60_000) == 60_000;
    hide Filter, BucketOf;
    assert forall b :: b in Aggregate([s], 60_000) <==> b == 60_000;
  }

  /** A concrete run that the boundary breaks: a swap exactly on a minute, a generator run, a second
      swap in that minute, a generator run. The first swap is missing from the rebuilt candle. */
  lemma BoundarySwapIsDropped(s: Swap, t: Swap, x: Series)
    requires s.timestamp == 60_000 && t.timestamp == 60_001 && s.volume > 0.0 && t.volume > 0.0
    requires x == RunSeries(Series([], map[]), 60_000, [Arrive(s), TickNow, Arrive(t)])
    ensures StepSeries(x, 60_000, TickNow).table != Aggregate(SortByTime(x.rows), 60_000)
  {
    hide RunSeries, Aggregate, SortByTime, Tick, Filter, FirstCandle, StepSeries;
    FirstRun(s, t, x);
    TwoSwaps(s, t);
    DropsFirst(s, t, x.table);
    assert StepSeries(x, 60_000, TickNow).table == Tick(x.table, SortByTime(x.rows), 60_000) by {
      TickStep(x, 60_000);
    }
  }

  lemma TickStep(x: Series, ms: nat)
    requires ms > 0
    ensures StepSeries(x, ms, TickNow).table == Tick(x.table, SortByTime(x.rows), ms)
  {}

  lemma DropsFirst(s: Swap, t: Swap, table: map<int, Candle>)
    requires s.timestamp == 60_000 && t.timestamp == 60_001 && s.volume > 0.0 && t.volume > 0.0
    requires table == map[60_000 := FirstCandle(s)]
    requires forall b :: b in Aggregate([s, t], 60_000) <==> b == 60_000
    ensures Tick(table, [s, t], 60_000) != Aggregate([s, t], 60_000)
  {
    assert s in [s, t] && t in [s, t];
    assert InnerSwap([s, t], 60_000, 60_000) by {
      assert BucketOf(60_001, 60_000) == 60_000;
    }
    hide Aggregate, Tick, Filter, FirstCandle, BucketOf, InnerSwap;
    assert 60_000 in table.Keys && Since(table) == 60_000;
    assert EarlierRight(table, [s, t], 60_000);
    assert IsStart(60_000, 60_000);
    TickExactIff(table, [s, t], 60_000);
  }
}
