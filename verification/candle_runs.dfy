/** Which runs of swap arrivals and generator runs end with the right candles: the exact condition,
    over every order of events and with late and boundary swaps included. */
module CandleRuns {
  import opened Scan
  import opened Candles
  import opened PriceService

  /** An arrival is clean when the swap is later than the start of the last candle; a generator run is
      clean when it does not find swaps both on and strictly inside the last candle's bucket. */
  ghost predicate CleanStep(x: Series, ms: nat, e: Event)
    requires ms > 0
  {
    match e
    case Arrive(s) => s.timestamp > Since(x.table)
    case TickNow => CleanTick(x.table, SortByTime(x.rows), ms)
  }

  ghost predicate CleanRun(x: Series, ms: nat, es: seq<Event>)
    requires ms > 0
    decreases |es|
  {
    es != [] ==> CleanStep(x, ms, es[0]) && CleanRun(StepSeries(x, ms, es[0]), ms, es[1..])
  }

  /** Swaps arrive with non-negative times and positive volumes. */
  ghost predicate Proper(es: seq<Event>) {
    forall e :: e in es && e.Arrive? ==> e.swap.timestamp >= 0 && e.swap.volume > 0.0
  }

  // ---------- while every step is clean ----------

  ghost predicate CleanInv(table: map<int, Candle>, xs: seq<Swap>, ms: nat)
    requires ms > 0
  {
    && EarlierRight(table, xs, ms) && LastRight(table, xs, ms)
    && forall s :: s in xs ==> s.timestamp > 0
  }

  lemma SinceNonNegative(table: map<int, Candle>, xs: seq<Swap>, ms: nat)
    requires ms > 0 && EarlierRight(table, xs, ms) && forall s :: s in xs ==> s.timestamp > 0
    ensures Since(table) >= 0
  {
    if table != map[] {
      var l := Since(table);
      AggregateAt(xs, ms, l);
      var own := Filter(xs, InBucket(l, ms));
      assert own[0] in own;
      BucketNonNegative(own[0].timestamp, ms);
    }
  }

  lemma BucketNonNegative(t: int, ms: nat)
    requires ms > 0 && t >= 0
    ensures BucketOf(t, ms) >= 0
  {
    Multiples(0, t / ms, ms);
  }

  lemma LastStaysRight(table: map<int, Candle>, xs: seq<Swap>, ms: nat, s: Swap)
    requires ms > 0 && LastRight(table, xs, ms) && s.timestamp > Since(table)
    ensures LastRight(table, Insert(xs, s), ms)
  {
    var l, ys := Since(table), Insert(xs, s);
    InsertAdds(xs, s);
    assert s in multiset(ys) && forall z :: z in xs ==> z in multiset(xs) && z in multiset(ys);
    if table != map[] && !InnerSwap(ys, l, ms) {
      hide Insert, Since, BucketOf, Aggregate, LastRight;
      assert BucketOf(s.timestamp, ms) != l;
      FilterInsertOther(xs, s, InBucket(l, ms));
      SameBuckets(xs, ys, ms, l);
      SameLast(table, xs, ys, ms);
    } else {
      hide Insert, Since, Aggregate;
    }
  }

  lemma SameLast(table: map<int, Candle>, xs: seq<Swap>, ys: seq<Swap>, ms: nat)
    requires ms > 0 && LastRight(table, xs, ms) && !InnerSwap(xs, Since(table), ms)
    requires Since(table) in Aggregate(xs, ms) <==> Since(table) in Aggregate(ys, ms)
    requires Since(table) in Aggregate(xs, ms) ==> Aggregate(xs, ms)[Since(table)] == Aggregate(ys, ms)[Since(table)]
    ensures LastRight(table, ys, ms)
  {
    hide Aggregate, Since, InnerSwap;
  }

  lemma ArrivalKeeps(table: map<int, Candle>, xs: seq<Swap>, ms: nat, s: Swap)
    requires ms > 0 && CleanInv(table, xs, ms) && s.timestamp > Since(table)
    ensures CleanInv(table, Insert(xs, s), ms)
  {
    SinceIsStart(table, xs, ms);
    BucketMonotone(s.timestamp, Since(table), ms);
    SinceNonNegative(table, xs, ms);
    hide EarlierRight, LastRight, Insert, Since, BucketOf;
    EarlierStaysRight(table, xs, ms, s);
    LastStaysRight(table, xs, ms, s);
    ArrivedMembers(xs, s);
  }

  lemma RebuiltIsClean(xs: seq<Swap>, ms: nat)
    requires ms > 0 && forall s :: s in xs ==> s.timestamp > 0
    ensures CleanInv(Aggregate(xs, ms), xs, ms)
  {
    hide Aggregate, InnerSwap;
  }

  // ---------- after an unclean step ----------

  function Own(xs: seq<Swap>, b: int, ms: nat): seq<Swap>
    requires ms > 0
  {
    Filter(xs, InBucket(b, ms))
  }

  /** s is not fetched any more and its candle lacks volume. */
  predicate Missed(table: map<int, Candle>, xs: seq<Swap>, ms: nat, s: Swap)
    requires ms > 0
  {
    var b := BucketOf(s.timestamp, ms);
    s in xs && s.timestamp <= Since(table) && (b in table ==> table[b].volume < Total(Own(xs, b, ms)))
  }

  /** No candle has more volume than its bucket. */
  ghost predicate Bounded(table: map<int, Candle>, xs: seq<Swap>, ms: nat)
    requires ms > 0
  {
    forall b :: b in table ==> table[b].volume <= Total(Own(xs, b, ms))
  }

  lemma {:induction false} InsertTotal(xs: seq<Swap>, s: Swap, p: Swap -> bool)
    ensures Total(Filter(Insert(xs, s), p)) == Total(Filter(xs, p)) + if p(s) then s.volume else 0.0
  {
    if xs == [] || xs[|xs| - 1].timestamp <= s.timestamp {
      FilteredSnoc(xs, s, p);
    } else {
      var n := |xs| - 1;
      InsertTotal(xs[..n], s, p);
      assert xs == xs[..n] + [xs[n]];
      FilteredSnoc(xs[..n], xs[n], p);
      FilteredSnoc(Insert(xs[..n], s), xs[n], p);
    }
  }

  lemma FilteredSnoc(xs: seq<Swap>, s: Swap, p: Swap -> bool)
    ensures Total(Filter(xs + [s], p)) == Total(Filter(xs, p)) + if p(s) then s.volume else 0.0
  {
    assert (xs + [s])[..|xs|] == xs;
    if p(s) {
      var f := Filter(xs, p) + [s];
      assert f[..|f| - 1] == Filter(xs, p);
    }
  }

  /** What a tick puts in a bucket: the bucket's swaps after the last candle's start, if any. */
  lemma FetchedVolume(table: map<int, Candle>, xs: seq<Swap>, ms: nat, b: int)
    requires ms > 0
    ensures var f := Filter(Own(xs, b, ms), After(Since(table)));
      var m := Aggregate(Filter(xs, After(Since(table))), ms);
      && (b in m <==> f != [])
      && (b in m ==> m[b].volume == Total(f))
  {
    var p, q := After(Since(table)), InBucket(b, ms);
    var both := (s: Swap) => p(s) && q(s);
    FilterTwice(xs, p, q, both);
    FilterTwice(xs, q, p, both);
    AggregateAt(Filter(xs, p), ms, b);
    var f := Filter(Filter(xs, p), q);
    if f != [] {
      CandleMeaning(f);
    }
  }

  lemma OwnPositive(xs: seq<Swap>, b: int, ms: nat)
    requires ms > 0 && PositiveVolumes(xs)
    ensures PositiveVolumes(Own(xs, b, ms))
  {}

  /** A tick leaves a candle with less volume than its bucket when it fetches none of the bucket's
      swaps up to some s and either fetches others or had less before. */
  lemma TickMisses(table: map<int, Candle>, xs: seq<Swap>, ms: nat, s: Swap)
    requires ms > 0 && PositiveVolumes(xs) && s in xs && s.timestamp <= Since(table)
    requires var b := BucketOf(s.timestamp, ms);
      Filter(Own(xs, b, ms), After(Since(table))) != [] || (b in table ==> table[b].volume < Total(Own(xs, b, ms)))
    ensures var b, t := BucketOf(s.timestamp, ms), Tick(table, xs, ms);
      b in t ==> t[b].volume < Total(Own(xs, b, ms))
  {
    var b := BucketOf(s.timestamp, ms);
    FetchedVolume(table, xs, ms, b);
    OwnPositive(xs, b, ms);
    assert s in Own(xs, b, ms) && !After(Since(table))(s);
    hide BucketOf, Aggregate, Filter, Total, Since;
    FilterTotal(Own(xs, b, ms), After(Since(table)));
  }

  lemma TickBounded(table: map<int, Candle>, xs: seq<Swap>, ms: nat)
    requires ms > 0 && PositiveVolumes(xs) && Bounded(table, xs, ms)
    ensures Bounded(Tick(table, xs, ms), xs, ms)
  {
    hide Aggregate, Filter, Total, Since, After, Own;
    forall b | b in Tick(table, xs, ms)
      ensures Tick(table, xs, ms)[b].volume <= Total(Own(xs, b, ms))
    {
      FetchedVolume(table, xs, ms, b);
      OwnPositive(xs, b, ms);
      FilterTotal(Own(xs, b, ms), After(Since(table)));
    }
  }

  lemma FetchedNotEarlier(xs: seq<Swap>, ms: nat)
    requires ms > 0 && forall s :: s in xs ==> s.timestamp >= 0
    ensures forall b :: b in Aggregate(xs, ms) ==> b >= 0
  {
    forall b | b in Aggregate(xs, ms)
      ensures b >= 0
    {
      AggregateAt(xs, ms, b);
      var own := Filter(xs, InBucket(b, ms));
      assert own[0] in own;
      BucketNonNegative(own[0].timestamp, ms);
    }
  }

  lemma SinceGrows(table: map<int, Candle>, xs: seq<Swap>, ms: nat)
    requires ms > 0 && forall s :: s in xs ==> s.timestamp >= 0
    ensures Since(table) <= Since(Tick(table, xs, ms))
  {
    var fetched := Filter(xs, After(Since(table)));
    FetchedNotEarlier(fetched, ms);
    hide Aggregate, Filter, After;
    var t := Tick(table, xs, ms);
    assert t == table + Aggregate(fetched, ms);
    if table != map[] {
      assert Since(table) in t.Keys;
    }
  }

  lemma MissedStaysOnTick(table: map<int, Candle>, xs: seq<Swap>, ms: nat, s: Swap)
    requires ms > 0 && PositiveVolumes(xs) && (forall z :: z in xs ==> z.timestamp >= 0) && Missed(table, xs, ms, s)
    ensures Missed(Tick(table, xs, ms), xs, ms, s)
  {
    hide BucketOf, Tick, Since, Own, Total;
    SinceGrows(table, xs, ms);
    TickMisses(table, xs, ms, s);
  }

  lemma MissedStaysOnArrival(table: map<int, Candle>, xs: seq<Swap>, ms: nat, s: Swap, z: Swap)
    requires ms > 0 && z.volume > 0.0 && Missed(table, xs, ms, s)
    ensures Missed(table, Insert(xs, z), ms, s)
  {
    InsertTotal(xs, z, InBucket(BucketOf(s.timestamp, ms), ms));
    InsertAdds(xs, z);
    hide BucketOf, Insert, Filter, Total, Since;
    assert s in multiset(xs) && s in multiset(Insert(xs, z));
  }

  lemma BoundedOnArrival(table: map<int, Candle>, xs: seq<Swap>, ms: nat, z: Swap)
    requires ms > 0 && z.volume > 0.0 && Bounded(table, xs, ms)
    ensures Bounded(table, Insert(xs, z), ms)
  {
    hide BucketOf, Insert, Filter, Total;
    forall b | b in table
      ensures table[b].volume <= Total(Own(Insert(xs, z), b, ms))
    {
      InsertTotal(xs, z, InBucket(b, ms));
    }
  }

  /** An arrival that is not clean is missed at once. */
  lemma LateArrivalMissed(table: map<int, Candle>, xs: seq<Swap>, ms: nat, s: Swap)
    requires ms > 0 && Bounded(table, xs, ms) && s.volume > 0.0 && s.timestamp <= Since(table)
    ensures Missed(table, Insert(xs, s), ms, s)
  {
    InsertTotal(xs, s, InBucket(BucketOf(s.timestamp, ms), ms));
    InsertAdds(xs, s);
    hide BucketOf, Insert, Filter, Total, Since;
    assert s in multiset(Insert(xs, s));
  }

  /** A tick that is not clean misses a swap on the last candle's start. */
  lemma UncleanTickMisses(table: map<int, Candle>, xs: seq<Swap>, ms: nat) returns (s: Swap)
    requires ms > 0 && PositiveVolumes(xs) && (forall z :: z in xs ==> z.timestamp >= 0)
    requires IsStart(Since(table), ms) && !CleanTick(table, xs, ms)
    ensures Missed(Tick(table, xs, ms), xs, ms, s)
  {
    var l := Since(table);
    s :| s in xs && s.timestamp == l;
    InnerIffRefetched(xs, l, ms);
    FetchedSwapped(xs, l, ms);
    hide BucketOf, Tick, Since, Total, Filter, InnerSwap;
    SinceGrows(table, xs, ms);
    TickMisses(table, xs, ms, s);
  }

  lemma FetchedSwapped(xs: seq<Swap>, l: int, ms: nat)
    requires ms > 0
    ensures Filter(Filter(xs, After(l)), InBucket(l, ms)) == Filter(Own(xs, l, ms), After(l))
  {
    var p, q := After(l), InBucket(l, ms);
    var both := (s: Swap) => p(s) && q(s);
    FilterTwice(xs, p, q, both);
    FilterTwice(xs, q, p, both);
  }

  /** A missed swap makes the table differ from a full rebuild. */
  lemma MissedIsWrong(table: map<int, Candle>, xs: seq<Swap>, ms: nat, s: Swap)
    requires ms > 0 && Missed(table, xs, ms, s)
    ensures table != Aggregate(xs, ms)
  {
    var b := BucketOf(s.timestamp, ms);
    AggregateAt(xs, ms, b);
    assert s in Own(xs, b, ms);
    CandleMeaning(Own(xs, b, ms));
  }

  // ---------- runs ----------

  ghost predicate AllProper(xs: seq<Swap>) {
    PositiveVolumes(xs) && forall s :: s in xs ==> s.timestamp >= 0
  }

  lemma StepProper(x: Series, ms: nat, e: Event)
    requires ms > 0 && AllProper(SortByTime(x.rows)) && Proper([e])
    ensures AllProper(SortByTime(StepSeries(x, ms, e).rows))
  {
    hide SortByTime, Insert;
    if e.Arrive? {
      assert e in [e];
      SortByTimeSnoc(x.rows, e.swap);
      ArrivedMembers(SortByTime(x.rows), e.swap);
    }
  }

  lemma StepMissed(x: Series, ms: nat, e: Event, s: Swap)
    requires ms > 0 && AllProper(SortByTime(x.rows)) && Proper([e]) && Missed(x.table, SortByTime(x.rows), ms, s)
    ensures var y := StepSeries(x, ms, e); Missed(y.table, SortByTime(y.rows), ms, s)
  {
    hide SortByTime, Insert, Tick, Missed;
    if e.Arrive? {
      assert e in [e];
      SortByTimeSnoc(x.rows, e.swap);
      MissedStaysOnArrival(x.table, SortByTime(x.rows), ms, s, e.swap);
    } else {
      MissedStaysOnTick(x.table, SortByTime(x.rows), ms, s);
    }
  }

  /** A missed swap stays missed. */
  lemma {:induction false} RunMissed(x: Series, ms: nat, es: seq<Event>, s: Swap)
    requires ms > 0 && AllProper(SortByTime(x.rows)) && Proper(es) && Missed(x.table, SortByTime(x.rows), ms, s)
    ensures var y := RunSeries(x, ms, es);
      AllProper(SortByTime(y.rows)) && Missed(y.table, SortByTime(y.rows), ms, s)
    decreases |es|
  {
    hide SortByTime, Missed, StepSeries, AllProper;
    if es != [] {
      assert Proper([es[0]]) && Proper(es[1..]);
      StepProper(x, ms, es[0]);
      StepMissed(x, ms, es[0], s);
      RunMissed(StepSeries(x, ms, es[0]), ms, es[1..], s);
    }
  }

  /** What holds while every step was clean. */
  ghost predicate Good(x: Series, ms: nat)
    requires ms > 0
  {
    var xs := SortByTime(x.rows);
    CleanInv(x.table, xs, ms) && Bounded(x.table, xs, ms) && AllProper(xs)
  }

  lemma CleanStepKeeps(x: Series, ms: nat, e: Event)
    requires ms > 0 && Good(x, ms) && Proper([e]) && CleanStep(x, ms, e)
    ensures Good(StepSeries(x, ms, e), ms)
  {
    StepProper(x, ms, e);
    hide SortByTime, Insert, Bounded, AllProper, EarlierRight, LastRight, CleanTick, Since, Aggregate, Tick;
    var xs := SortByTime(x.rows);
    if e.Arrive? {
      assert e in [e];
      SortByTimeSnoc(x.rows, e.swap);
      ArrivalKeeps(x.table, xs, ms, e.swap);
      BoundedOnArrival(x.table, xs, ms, e.swap);
    } else {
      CleanTickIsRebuild(x.table, xs, ms);
      RebuiltIsClean(xs, ms);
      ProperIsPositive(xs);
      TickBounded(x.table, xs, ms);
    }
  }

  lemma ProperIsPositive(xs: seq<Swap>)
    requires AllProper(xs)
    ensures PositiveVolumes(xs) && forall s :: s in xs ==> s.timestamp >= 0
  {}

  lemma UncleanStepMisses(x: Series, ms: nat, e: Event) returns (s: Swap)
    requires ms > 0 && Good(x, ms) && Proper([e]) && !CleanStep(x, ms, e)
    ensures var y := StepSeries(x, ms, e); Missed(y.table, SortByTime(y.rows), ms, s)
  {
    var xs := SortByTime(x.rows);
    SinceIsStart(x.table, xs, ms);
    ProperIsPositive(xs);
    hide SortByTime, Insert, Bounded, AllProper, EarlierRight, LastRight, CleanTick, Since, Aggregate, Tick, Missed,
      IsStart;
    if e.Arrive? {
      assert e in [e];
      s := e.swap;
      SortByTimeSnoc(x.rows, s);
      LateArrivalMissed(x.table, xs, ms, s);
    } else {
      s := UncleanTickMisses(x.table, xs, ms);
    }
  }

  lemma FinalTickIff(x: Series, ms: nat)
    requires ms > 0 && Good(x, ms)
    ensures StepSeries(x, ms, TickNow).table == Aggregate(SortByTime(x.rows), ms) <==> CleanStep(x, ms, TickNow)
  {
    hide SortByTime, Bounded, AllProper, EarlierRight, LastRight, CleanTick, Since, Aggregate, Tick, Missed;
    if CleanStep(x, ms, TickNow) {
      CleanTickIsRebuild(x.table, SortByTime(x.rows), ms);
    } else {
      var s := UncleanStepMisses(x, ms, TickNow);
      MissedIsWrong(StepSeries(x, ms, TickNow).table, SortByTime(x.rows), ms, s);
    }
  }

  lemma MissedFinally(y: Series, ms: nat, s: Swap)
    requires ms > 0 && AllProper(SortByTime(y.rows)) && Missed(y.table, SortByTime(y.rows), ms, s)
    ensures StepSeries(y, ms, TickNow).table != Aggregate(SortByTime(y.rows), ms)
  {
    hide SortByTime, Missed, Tick, Aggregate;
    StepMissed(y, ms, TickNow, s);
    MissedIsWrong(Tick(y.table, SortByTime(y.rows), ms), SortByTime(y.rows), ms, s);
  }

  /** A missed swap keeps every continuation from ending with the candles of a full rebuild. */
  lemma MissedForever(x: Series, ms: nat, es: seq<Event>, s: Swap)
    requires ms > 0 && AllProper(SortByTime(x.rows)) && Proper(es) && Missed(x.table, SortByTime(x.rows), ms, s)
    ensures var y := RunSeries(x, ms, es); StepSeries(y, ms, TickNow).table != Aggregate(SortByTime(y.rows), ms)
  {
    hide *;
    RunMissed(x, ms, es, s);
    MissedFinally(RunSeries(x, ms, es), ms, s);
  }

  lemma {:induction false} RunExactIff(x: Series, ms: nat, es: seq<Event>)
    requires ms > 0 && Good(x, ms) && Proper(es)
    ensures var y := RunSeries(x, ms, es);
      StepSeries(y, ms, TickNow).table == Aggregate(SortByTime(y.rows), ms)
      <==> CleanRun(x, ms, es) && CleanStep(y, ms, TickNow)
    decreases |es|
  {
    hide SortByTime, Good, Missed, StepSeries, CleanStep, Aggregate, AllProper;
    if es == [] {
      FinalTickIff(x, ms);
    } else {
      assert Proper([es[0]]) && Proper(es[1..]);
      var z := StepSeries(x, ms, es[0]);
      if CleanStep(x, ms, es[0]) {
        CleanStepKeeps(x, ms, es[0]);
        RunExactIff(z, ms, es[1..]);
      } else {
        GoodIsProper(x, ms);
        StepProper(x, ms, es[0]);
        var s := UncleanStepMisses(x, ms, es[0]);
        MissedForever(z, ms, es[1..], s);
      }
    }
  }

  lemma GoodIsProper(x: Series, ms: nat)
    requires ms > 0 && Good(x, ms)
    ensures AllProper(SortByTime(x.rows))
  {}

  lemma EmptyIsGood(ms: nat)
    requires ms > 0
    ensures Good(Series([], map[]), ms)
  {}

  /** From nothing, after any events, one more generator run leaves the candles of a full rebuild
      exactly when every swap arrived with a time after the start of the then last candle and no
      generator run, this one included, found swaps both on and inside the last candle's bucket. */
  lemma RebuildIffClean(ms: nat, es: seq<Event>, y: Series)
    requires ms > 0 && Proper(es) && y == RunSeries(Series([], map[]), ms, es)
    ensures StepSeries(y, ms, TickNow).table == Aggregate(SortByTime(y.rows), ms)
       <==> CleanRun(Series([], map[]), ms, es) && CleanStep(y, ms, TickNow)
  {
    hide *;
    EmptyIsGood(ms);
    RunExactIff(Series([], map[]), ms, es);
  }

  /** The same in the database, with the other pairs and intervals running in between. */
  lemma IncrementalExactIff(db: Database, es: seq<DbEvent>, pair: int, interval: string, end: Database)
    requires pair in db.pairs && Table(db.candles, pair, interval) == map[] && Filter(db.swaps, OfPair(pair)) == []
    requires Proper(EventsOf(es, pair, interval)) && end == Generate(RunDb(db, es), pair, interval)
    ensures var x, ms := SeriesOf(db, pair, interval), IntervalMs(interval);
      Table(end.candles, pair, interval) == Aggregate(PairSwaps(end.swaps, pair), ms)
      <==>
      CleanRun(x, ms, EventsOf(es, pair, interval)) &&
      CleanStep(SeriesOf(RunDb(db, es), pair, interval), ms, TickNow)
  {
    var ms, mid := IntervalMs(interval), RunDb(db, es);
    assert SeriesOf(db, pair, interval) == Series([], map[]);
    PairsStay(db, es);
    hide CleanRun, CleanStep, RunSeries, EventsOf, RunDb, Aggregate, IntervalMs, Proper;
    RunProjects(db, es, pair, interval);
    RebuildIffClean(ms, EventsOf(es, pair, interval), SeriesOf(mid, pair, interval));
    StepProjects(mid, GenerateCandles(pair, interval), pair, interval);
  }

  // ---------- timely runs are clean ----------

  lemma TimelyIsClean(x: Series, ms: nat, e: Event)
    requires ms > 0 && SeriesInv(x, ms) && (e.Arrive? ==> Timely(x, ms, e.swap))
    ensures CleanStep(x, ms, e)
  {
    SinceIsStart(x.table, SortByTime(x.rows), ms);
    if e.Arrive? {
      BucketBounds(e.swap.timestamp, ms);
    }
    hide SortByTime, EarlierRight, InnerSwap, BucketOf, Since;
  }

  /** Swaps that are neither older than the last candle's bucket nor on a bucket boundary only make
      clean steps. */
  lemma {:induction false} TimelyRunIsClean(x: Series, ms: nat, es: seq<Event>)
    requires ms > 0 && SeriesInv(x, ms) && AllTimely(x, ms, es)
    ensures CleanRun(x, ms, es) && CleanStep(RunSeries(x, ms, es), ms, TickNow)
    decreases |es|
  {
    hide SeriesInv, CleanStep, Timely, StepSeries;
    if es == [] {
      TimelyIsClean(x, ms, TickNow);
    } else {
      TimelyIsClean(x, ms, es[0]);
      if es[0].Arrive? {
        ArriveKeeps(x, ms, es[0].swap);
      } else {
        TickKeeps(x, ms);
      }
      TimelyRunIsClean(StepSeries(x, ms, es[0]), ms, es[1..]);
    }
  }
}
