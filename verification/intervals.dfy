/** How the candles of the named intervals relate: the longer candles are merged one-minute candles. */
module Intervals {
  import opened Scan
  import opened Candles
  import opened PriceService

  // ---------- merging ----------

  /** The candle of two consecutive stretches of time. */
  function Join(c: Candle, d: Candle): Candle {
    Candle(c.open, Max(c.high, d.high), Min(c.low, d.low), d.close, c.volume + d.volume)
  }

  /** The candles of the k short buckets from b on, merged in the order of time; None without any. */
  function Merged(table: map<int, Candle>, b: int, ms: nat, k: nat): Option<Candle> {
    if k == 0 then None
    else
      var before, t := Merged(table, b, ms, k - 1), b + (k - 1) * ms;
      if t !in table then before
      else if before.None? then Some(table[t])
      else Some(Join(before.value, table[t]))
  }

  /** What merging means: the open of the first candle, the close of the last, the greatest high and the
      least low, attained, and the sum of the volumes. */
  ghost predicate IsMerge(c: Candle, cs: seq<Candle>) {
    && cs != [] && c.open == cs[0].open && c.close == cs[|cs| - 1].close
    && (forall d :: d in cs ==> d.high <= c.high && c.low <= d.low)
    && (exists d :: d in cs && d.high == c.high) && (exists d :: d in cs && d.low == c.low)
    && c.volume == SumVolumes(cs)
  }

  function SumVolumes(cs: seq<Candle>): real {
    if cs == [] then 0.0 else SumVolumes(cs[..|cs| - 1]) + cs[|cs| - 1].volume
  }

  /** The candles that exist among the k short buckets from b on, in the order of time. */
  function Present(table: map<int, Candle>, b: int, ms: nat, k: nat): seq<Candle> {
    if k == 0 then []
    else
      var t := b + (k - 1) * ms;
      Present(table, b, ms, k - 1) + if t in table then [table[t]] else []
  }

  lemma OneIsMerge(c: Candle)
    ensures IsMerge(c, [c])
  {
    assert [c][..0] == [] && c in [c];
    assert SumVolumes([c]) == SumVolumes([]) + c.volume;
  }

  lemma JoinIsMerge(c: Candle, cs: seq<Candle>, d: Candle)
    requires IsMerge(c, cs)
    ensures IsMerge(Join(c, d), cs + [d])
  {
    var all := cs + [d];
    assert all[..|all| - 1] == cs && d in all;
    var h :| h in cs && h.high == c.high;
    var l :| l in cs && l.low == c.low;
    assert h in all && l in all;
  }

  lemma {:induction false} MergedIsMerge(table: map<int, Candle>, b: int, ms: nat, k: nat)
    ensures Merged(table, b, ms, k).None? <==> Present(table, b, ms, k) == []
    ensures Merged(table, b, ms, k).Some? ==> IsMerge(Merged(table, b, ms, k).value, Present(table, b, ms, k))
  {
    hide IsMerge, Join;
    if k > 0 {
      MergedIsMerge(table, b, ms, k - 1);
      var before, t := Merged(table, b, ms, k - 1), b + (k - 1) * ms;
      if t in table {
        if before.None? {
          OneIsMerge(table[t]);
          assert [] + [table[t]] == [table[t]];
        } else {
          JoinIsMerge(before.value, Present(table, b, ms, k - 1), table[t]);
        }
      } else {
        assert Present(table, b, ms, k - 1) + [] == Present(table, b, ms, k - 1);
      }
    }
  }

  // ---------- stretches of a time-ordered list ----------

  function Within(lo: int, hi: int): Swap -> bool {
    (s: Swap) => lo <= s.timestamp < hi
  }

  lemma SortedInit(xs: seq<Swap>)
    requires Sorted(xs) && xs != []
    ensures Sorted(xs[..|xs| - 1]) && forall s :: s in xs[..|xs| - 1] ==> s.timestamp <= xs[|xs| - 1].timestamp
  {}

  lemma SomeMember(xs: seq<Swap>)
    ensures xs == [] || exists s :: s in xs
  {
    if xs != [] {
      assert xs[0] in xs;
    }
  }

  lemma NothingWithin(xs: seq<Swap>, lo: int, hi: int)
    requires forall s :: s in xs ==> s.timestamp < lo
    ensures Filter(xs, Within(lo, hi)) == []
  {
    SomeMember(Filter(xs, Within(lo, hi)));
  }

  lemma FilterLast(xs: seq<Swap>, p: Swap -> bool)
    requires xs != []
    ensures Filter(xs, p) == Filter(xs[..|xs| - 1], p) + if p(xs[|xs| - 1]) then [xs[|xs| - 1]] else []
  {}

  /** In a time-ordered list a stretch of time is its first part followed by its second. */
  lemma {:induction false} StretchSplits(xs: seq<Swap>, lo: int, mid: int, hi: int)
    requires Sorted(xs) && lo <= mid <= hi
    ensures Filter(xs, Within(lo, hi)) == Filter(xs, Within(lo, mid)) + Filter(xs, Within(mid, hi))
  {
    if xs != [] {
      var init := xs[..|xs| - 1];
      SortedInit(xs);
      hide Filter, Sorted;
      StretchSplits(init, lo, mid, hi);
      if xs[|xs| - 1].timestamp < mid {
        NothingWithin(init, mid, hi);
      }
      LastSplits(xs, lo, mid, hi);
    }
  }

  lemma LastSplits(xs: seq<Swap>, lo: int, mid: int, hi: int)
    requires xs != [] && lo <= mid <= hi
    requires var init := xs[..|xs| - 1];
      && Filter(init, Within(lo, hi)) == Filter(init, Within(lo, mid)) + Filter(init, Within(mid, hi))
      && (xs[|xs| - 1].timestamp < mid ==> Filter(init, Within(mid, hi)) == [])
    ensures Filter(xs, Within(lo, hi)) == Filter(xs, Within(lo, mid)) + Filter(xs, Within(mid, hi))
  {
    FilterLast(xs, Within(lo, hi));
    FilterLast(xs, Within(lo, mid));
    FilterLast(xs, Within(mid, hi));
    hide Filter;
  }

  lemma EmptyStretch(xs: seq<Swap>, lo: int)
    ensures Filter(xs, Within(lo, lo)) == []
  {
    SomeMember(Filter(xs, Within(lo, lo)));
  }

  lemma {:induction false} CandleOfConcat(a: seq<Swap>, b: seq<Swap>)
    requires a != [] && b != []
    ensures CandleOf(a + b) == Join(CandleOf(a), CandleOf(b))
  {
    var n := |b| - 1;
    assert (a + b)[..|a + b| - 1] == a + b[..n];
    if n == 0 {
      assert a + b[..0] == a;
    } else {
      CandleOfConcat(a, b[..n]);
    }
  }

  lemma InStretch(t: int, b: int, ms: nat)
    requires ms > 0 && IsStart(b, ms)
    ensures BucketOf(t, ms) == b <==> b <= t < b + ms
  {
    BucketBounds(t, ms);
    BucketMonotone(t, b, ms);
    NextStart(b, ms);
    BucketMonotone(t, b + ms, ms);
    NoStartBetween(t, b, ms);
    hide BucketOf;
  }

  lemma NoStartBetween(t: int, b: int, ms: nat)
    requires ms > 0 && IsStart(b, ms)
    ensures b <= BucketOf(t, ms) < b + ms ==> BucketOf(t, ms) == b
  {
    Multiples(b / ms + 1, t / ms, ms);
    Multiples(t / ms + 1, b / ms, ms);
  }

  lemma BucketIsStretch(xs: seq<Swap>, b: int, ms: nat)
    requires ms > 0 && IsStart(b, ms)
    ensures Filter(xs, InBucket(b, ms)) == Filter(xs, Within(b, b + ms))
  {
    hide BucketOf, IsStart, Filter;
    forall s | s in xs
      ensures InBucket(b, ms)(s) <==> Within(b, b + ms)(s)
    {
      InStretch(s.timestamp, b, ms);
    }
    FilterSame(xs, InBucket(b, ms), Within(b, b + ms));
  }

  lemma StartIff(b: int, ms: nat)
    requires ms > 0
    ensures IsStart(b, ms) <==> b % ms == 0
  {
    assert b == b / ms * ms + b % ms;
  }

  lemma MultipleIsStart(q: int, ms: nat)
    requires ms > 0
    ensures IsStart(q * ms, ms)
  {
    BucketBounds(q * ms, ms);
    Multiples(q, q * ms / ms, ms);
    Multiples(q * ms / ms, q, ms);
  }

  lemma NextStart(b: int, ms: nat)
    requires ms > 0 && IsStart(b, ms)
    ensures IsStart(b + ms, ms)
  {
    var q := b / ms;
    assert (q + 1) * ms == q * ms + ms;
    MultipleIsStart(q + 1, ms);
  }

  lemma LaterStart(b: int, ms: nat, k: nat)
    requires ms > 0 && IsStart(b, ms)
    ensures IsStart(b + k * ms, ms)
  {
    var q := b / ms;
    assert (q + k) * ms == q * ms + k * ms;
    MultipleIsStart(q + k, ms);
  }

  lemma LongStart(b: int, ms: nat, k: nat)
    requires ms > 0 && k > 0 && k * ms > 0 && IsStart(b, k * ms)
    ensures IsStart(b, ms)
  {
    var q := b / (k * ms);
    assert q * (k * ms) == (q * k) * ms;
    MultipleIsStart(q * k, ms);
  }

  // ---------- long candles are merged short ones ----------

  function CandleIfAny(xs: seq<Swap>): Option<Candle> {
    if xs == [] then None else Some(CandleOf(xs))
  }

  /** The first k short buckets from b on merge to the candle of their stretch. */
  lemma {:induction false} MergedIsStretch(xs: seq<Swap>, b: int, ms: nat, k: nat)
    requires ms > 0 && Sorted(xs) && IsStart(b, ms)
    ensures Merged(Aggregate(xs, ms), b, ms, k) == CandleIfAny(Filter(xs, Within(b, b + k * ms)))
  {
    hide Filter, Aggregate, CandleOf, BucketOf, Sorted;
    if k == 0 {
      EmptyStretch(xs, b);
    } else {
      var t, hi := b + (k - 1) * ms, b + k * ms;
      assert hi == t + ms && b <= t;
      MergedIsStretch(xs, b, ms, k - 1);
      LaterStart(b, ms, k - 1);
      AggregateAt(xs, ms, t);
      BucketIsStretch(xs, t, ms);
      StretchSplits(xs, b, t, hi);
      var first, last := Filter(xs, Within(b, t)), Filter(xs, Within(t, hi));
      if first == [] {
        assert first + last == last;
      } else if last == [] {
        assert first + last == first;
      } else {
        CandleOfConcat(first, last);
      }
    }
  }

  /** The candles k times as long are the merged short ones, at every k-th start. */
  lemma LongIsMerged(xs: seq<Swap>, ms: nat, k: nat, long: nat, b: int)
    requires ms > 0 && k > 0 && long == k * ms && long > 0 && Sorted(xs) && b % long == 0
    ensures Merged(Aggregate(xs, ms), b, ms, k) == MapAt(Aggregate(xs, long), b)
  {
    StartIff(b, long);
    LongStart(b, ms, k);
    hide Filter, Aggregate, CandleOf, BucketOf, Sorted;
    MergedIsStretch(xs, b, ms, k);
    BucketIsStretch(xs, b, long);
    AggregateAt(xs, long, b);
  }

  function MapAt(table: map<int, Candle>, b: int): Option<Candle> {
    if b in table then Some(table[b]) else None
  }

  lemma StartsOnly(xs: seq<Swap>, ms: nat)
    requires ms > 0
    ensures forall b :: b in Aggregate(xs, ms) ==> b % ms == 0
  {
    forall b | b in Aggregate(xs, ms)
      ensures b % ms == 0
    {
      AggregateAt(xs, ms, b);
      var own := Filter(xs, InBucket(b, ms));
      assert own[0] in own;
      BucketIsStart(own[0].timestamp, ms);
      StartIff(b, ms);
    }
  }

  // ---------- the named intervals ----------

  /** The candles of an interval after a full rebuild from the swaps of a pair. */
  function Rebuilt(swaps: seq<Swap>, pair: int, interval: string): map<int, Candle> {
    Aggregate(PairSwaps(swaps, pair), IntervalMs(interval))
  }

  /** Every candle starts at a multiple of so many minutes, and is the merge of the one-minute candles of
      these minutes: there is one exactly when one of them exists. */
  ghost predicate MergesMinutes(long: map<int, Candle>, short: map<int, Candle>, minutes: nat)
    requires minutes > 0
  {
    && (forall b :: b in long ==> b % (minutes * 60_000) == 0)
    && (forall b :: b % (minutes * 60_000) == 0 ==>
         && (b in long <==> Present(short, b, 60_000, minutes) != [])
         && (b in long ==> IsMerge(long[b], Present(short, b, 60_000, minutes))))
  }

  lemma MinutesMerged(xs: seq<Swap>, minutes: nat, long: nat)
    requires Sorted(xs) && minutes > 0 && long == minutes * 60_000
    ensures MergesMinutes(Aggregate(xs, long), Aggregate(xs, 60_000), minutes)
  {
    StartsOnly(xs, long);
    hide Aggregate, Sorted, IsMerge;
    forall b | b % long == 0
      ensures b in Aggregate(xs, long) <==> Present(Aggregate(xs, 60_000), b, 60_000, minutes) != []
      ensures b in Aggregate(xs, long) ==>
        IsMerge(Aggregate(xs, long)[b], Present(Aggregate(xs, 60_000), b, 60_000, minutes))
    {
      LongIsMerged(xs, 60_000, minutes, long, b);
      MergedIsMerge(Aggregate(xs, 60_000), b, 60_000, minutes);
    }
  }

  /** One-minute candles start at whole minutes; the candles of 5m, 15m, 1h, 4h and 1d are the merges of
      5, 15, 60, 240 and 1440 minutes; any other interval gives the candles of 1h. */
  lemma NamedIntervals(swaps: seq<Swap>, pair: int)
    ensures forall b :: b in Rebuilt(swaps, pair, "1m") ==> b % 60_000 == 0
    ensures MergesMinutes(Rebuilt(swaps, pair, "5m"), Rebuilt(swaps, pair, "1m"), 5)
    ensures MergesMinutes(Rebuilt(swaps, pair, "15m"), Rebuilt(swaps, pair, "1m"), 15)
    ensures MergesMinutes(Rebuilt(swaps, pair, "1h"), Rebuilt(swaps, pair, "1m"), 60)
    ensures MergesMinutes(Rebuilt(swaps, pair, "4h"), Rebuilt(swaps, pair, "1m"), 240)
    ensures MergesMinutes(Rebuilt(swaps, pair, "1d"), Rebuilt(swaps, pair, "1m"), 1440)
    ensures forall interval :: interval !in {"1m", "5m", "15m", "1h", "4h", "1d"} ==>
      Rebuilt(swaps, pair, interval) == Rebuilt(swaps, pair, "1h")
  {
    Lengths();
    var xs := PairSwaps(swaps, pair);
    SortByTimeIs(Filter(swaps, OfPair(pair)));
    assert Sorted(xs);
    forall interval
      ensures Rebuilt(swaps, pair, interval) == Aggregate(xs, IntervalMs(interval))
    {
    }
    hide *;
    StartsOnly(xs, 60_000);
    MinutesMerged(xs, 5, 300_000);
    MinutesMerged(xs, 15, 900_000);
    MinutesMerged(xs, 60, 3_600_000);
    MinutesMerged(xs, 240, 14_400_000);
    MinutesMerged(xs, 1440, 86_400_000);
  }

  lemma Lengths()
    ensures IntervalMs("1m") == 60_000 && IntervalMs("5m") == 300_000 && IntervalMs("15m") == 900_000
    ensures IntervalMs("1h") == 3_600_000 && IntervalMs("4h") == 14_400_000 && IntervalMs("1d") == 86_400_000
    ensures forall interval :: interval !in {"1m", "5m", "15m", "1h", "4h", "1d"} ==> IntervalMs(interval) == 3_600_000
  {
    assert "5m"[0] == '5' && "15m"[0] == '1' && "1m"[1] == 'm' && "1h"[1] == 'h' && "1d"[1] == 'd' && "4h"[0] == '4';
  }

  lemma PairSwapsPositive(swaps: seq<Swap>, pair: int)
    requires forall s :: s in swaps ==> s.timestamp > 0
    ensures forall s :: s in PairSwaps(swaps, pair) ==> s.timestamp > 0
  {
    var own := Filter(swaps, OfPair(pair));
    SortByTimeIs(own);
    hide Filter, SortByTime, Sorted;
    forall s | s in PairSwaps(swaps, pair)
      ensures s.timestamp > 0
    {
      assert s in multiset(SortByTime(own)) && s in multiset(own);
    }
  }

  lemma GeneratedTable(db: Database, pair: int, interval: string)
    requires pair in db.pairs
    ensures Table(Generate(db, pair, interval).candles, pair, interval) ==
      Tick(Table(db.candles, pair, interval), PairSwaps(db.swaps, pair), IntervalMs(interval))
  {
    var fetched := Filter(PairSwaps(db.swaps, pair), After(Since(Table(db.candles, pair, interval))));
    hide Upserted, Table, Aggregate, Filter, PairSwaps, IntervalMs, Since;
    UpsertedOwn(db.candles, pair, interval, Aggregate(fetched, IntervalMs(interval)));
  }

  lemma FirstTickRebuilds(xs: seq<Swap>, ms: nat)
    requires ms > 0 && forall s :: s in xs ==> s.timestamp > 0
    ensures Tick(map[], xs, ms) == Aggregate(xs, ms)
  {
    assert EarlierRight(map[], xs, ms) && Since(map[]) == 0;
    hide EarlierRight, Since, Tick, Aggregate;
    TickIsRebuild(map[], xs, ms);
  }

  lemma RebuiltIs(swaps: seq<Swap>, pair: int, interval: string)
    ensures Rebuilt(swaps, pair, interval) == Aggregate(PairSwaps(swaps, pair), IntervalMs(interval))
  {}

  /** The generator, run once per interval on a pair without candles, leaves these candles. */
  lemma GeneratedIsRebuilt(db: Database, pair: int, interval: string)
    requires pair in db.pairs && Table(db.candles, pair, interval) == map[]
    requires forall s :: s in db.swaps ==> s.timestamp > 0
    ensures Table(Generate(db, pair, interval).candles, pair, interval) == Rebuilt(db.swaps, pair, interval)
  {
    hide *;
    PairSwapsPositive(db.swaps, pair);
    GeneratedTable(db, pair, interval);
    FirstTickRebuilds(PairSwaps(db.swaps, pair), IntervalMs(interval));
    RebuiltIs(db.swaps, pair, interval);
  }
}
