/** Candle aggregation for one pair and interval: the buckets built from a time-ordered list of
    swaps, the incremental tick that rebuilds from the last candle on, and when the two agree.
    Price and volume are values of a swap; times are milliseconds. */
module Candles {
  import opened Scan

  datatype Swap = Swap(pair: int, timestamp: int, price: real, volume: real)

  datatype Candle = Candle(open: real, high: real, low: real, close: real, volume: real)

  // ---------- buckets ----------

  function BucketOf(t: int, ms: nat): int
    requires ms > 0
  {
    t / ms * ms
  }

  function InBucket(b: int, ms: nat): Swap -> bool
    requires ms > 0
  {
    (s: Swap) => BucketOf(s.timestamp, ms) == b
  }

  /** t is the start of a bucket. */
  predicate IsStart(t: int, ms: nat)
    requires ms > 0
  {
    BucketOf(t, ms) == t
  }

  lemma BucketBounds(t: int, ms: nat)
    requires ms > 0
    ensures BucketOf(t, ms) <= t < BucketOf(t, ms) + ms
  {
    assert t == t / ms * ms + t % ms;
  }

  lemma Multiples(x: int, y: int, ms: nat)
    requires ms > 0
    ensures x <= y ==> x * ms <= y * ms
    ensures x < y ==> x * ms + ms <= y * ms
  {
    var d := y - x;
    assert d * ms == y * ms - x * ms;
    assert d >= 0 ==> d * ms >= 0;
    assert d >= 1 ==> (d - 1) * ms >= 0;
    assert (d - 1) * ms == d * ms - ms;
  }

  lemma BucketIsStart(t: int, ms: nat)
    requires ms > 0
    ensures IsStart(BucketOf(t, ms), ms)
  {
    var q, b := t / ms, BucketOf(t, ms);
    BucketBounds(b, ms);
    Multiples(q, b / ms, ms);
    Multiples(b / ms, q, ms);
  }

  /** A time is at or after a bucket start exactly when its own bucket is. */
  lemma BucketMonotone(t: int, b: int, ms: nat)
    requires ms > 0 && IsStart(b, ms)
    ensures b <= t <==> b <= BucketOf(t, ms)
  {
    BucketBounds(t, ms);
    Multiples(b / ms, t / ms, ms);
    Multiples(t / ms, b / ms, ms);
  }

  // ---------- one candle ----------

  function Max(x: real, y: real): real { if x < y then y else x }

  function Min(x: real, y: real): real { if y < x then y else x }

  function FirstCandle(s: Swap): Candle {
    Candle(s.price, s.price, s.price, s.price, s.volume)
  }

  function Extend(c: Candle, s: Swap): Candle {
    Candle(c.open, Max(c.high, s.price), Min(c.low, s.price), s.price, c.volume + s.volume)
  }

  function CandleOf(xs: seq<Swap>): Candle
    requires xs != []
  {
    if |xs| == 1 then FirstCandle(xs[0]) else Extend(CandleOf(xs[..|xs| - 1]), xs[|xs| - 1])
  }

  function Total(xs: seq<Swap>): real {
    if xs == [] then 0.0 else Total(xs[..|xs| - 1]) + xs[|xs| - 1].volume
  }

  /** A candle opens with the first price, closes with the last, spans exactly the prices between the
      lowest and the highest, and adds up the volumes. */
  lemma {:induction false} CandleMeaning(xs: seq<Swap>)
    requires xs != []
    ensures CandleOf(xs).open == xs[0].price && CandleOf(xs).close == xs[|xs| - 1].price
    ensures forall s :: s in xs ==> CandleOf(xs).low <= s.price <= CandleOf(xs).high
    ensures exists s :: s in xs && s.price == CandleOf(xs).high
    ensures exists s :: s in xs && s.price == CandleOf(xs).low
    ensures CandleOf(xs).low <= CandleOf(xs).open <= CandleOf(xs).high
    ensures CandleOf(xs).low <= CandleOf(xs).close <= CandleOf(xs).high
    ensures CandleOf(xs).volume == Total(xs)
  {
    var n := |xs| - 1;
    var last := xs[n];
    assert xs == xs[..n] + [last];
    if n == 0 {
      assert xs[0] in xs;
      assert Total(xs[..0]) == 0.0;
    } else {
      var init := xs[..n];
      CandleMeaning(init);
      var h :| h in init && h.price == CandleOf(init).high;
      var l :| l in init && l.price == CandleOf(init).low;
      assert h in xs && l in xs && last in xs;
    }
  }

  // ---------- aggregation ----------

  /** The bucket map after the loop over a list of swaps. */
  function Aggregate(xs: seq<Swap>, ms: nat): map<int, Candle>
    requires ms > 0
  {
    if xs == [] then map[]
    else
      var s, prev := xs[|xs| - 1], Aggregate(xs[..|xs| - 1], ms);
      var b := BucketOf(s.timestamp, ms);
      prev[b := if b in prev then Extend(prev[b], s) else FirstCandle(s)]
  }

  /** Each bucket holds the candle of exactly the swaps that fall into it, in their order. */
  lemma {:induction false} AggregateAt(xs: seq<Swap>, ms: nat, b: int)
    requires ms > 0
    ensures b in Aggregate(xs, ms) <==> Filter(xs, InBucket(b, ms)) != []
    ensures b in Aggregate(xs, ms) ==> Aggregate(xs, ms)[b] == CandleOf(Filter(xs, InBucket(b, ms)))
  {
    hide BucketOf;
    if xs != [] {
      var n := |xs| - 1;
      AggregateAt(xs[..n], ms, b);
      if BucketOf(xs[n].timestamp, ms) == b {
        var own := Filter(xs[..n], InBucket(b, ms)) + [xs[n]];
        assert own[..|own| - 1] == Filter(xs[..n], InBucket(b, ms));
      }
    }
  }

  lemma SameBuckets(xs: seq<Swap>, ys: seq<Swap>, ms: nat, b: int)
    requires ms > 0 && Filter(xs, InBucket(b, ms)) == Filter(ys, InBucket(b, ms))
    ensures b in Aggregate(xs, ms) <==> b in Aggregate(ys, ms)
    ensures b in Aggregate(xs, ms) ==> Aggregate(xs, ms)[b] == Aggregate(ys, ms)[b]
  {
    AggregateAt(xs, ms, b);
    AggregateAt(ys, ms, b);
  }

  // ---------- time order ----------

  /** Inserting after every swap that is not later: rows with equal times keep their insertion order. */
  function Insert(xs: seq<Swap>, s: Swap): seq<Swap> {
    if xs == [] || xs[|xs| - 1].timestamp <= s.timestamp then xs + [s]
    else Insert(xs[..|xs| - 1], s) + [xs[|xs| - 1]]
  }

  function SortByTime(rows: seq<Swap>): seq<Swap> {
    if rows == [] then [] else Insert(SortByTime(rows[..|rows| - 1]), rows[|rows| - 1])
  }

  predicate Sorted(xs: seq<Swap>) {
    forall i, j :: 0 <= i < j < |xs| ==> xs[i].timestamp <= xs[j].timestamp
  }

  lemma {:induction false} InsertAdds(xs: seq<Swap>, s: Swap)
    ensures multiset(Insert(xs, s)) == multiset(xs) + multiset{s}
  {
    if xs != [] {
      var n := |xs| - 1;
      assert xs == xs[..n] + [xs[n]];
      InsertAdds(xs[..n], s);
    }
  }

  predicate NoneLater(xs: seq<Swap>, t: int) {
    forall i :: 0 <= i < |xs| ==> xs[i].timestamp <= t
  }

  lemma {:induction false} InsertNoneLater(xs: seq<Swap>, s: Swap, t: int)
    requires NoneLater(xs, t) && s.timestamp <= t
    ensures NoneLater(Insert(xs, s), t)
  {
    if xs != [] && xs[|xs| - 1].timestamp > s.timestamp {
      InsertNoneLater(xs[..|xs| - 1], s, t);
    }
  }

  lemma SortedSnoc(xs: seq<Swap>, s: Swap)
    requires Sorted(xs) && NoneLater(xs, s.timestamp)
    ensures Sorted(xs + [s])
  {
  }

  lemma {:induction false} InsertSorted(xs: seq<Swap>, s: Swap)
    requires Sorted(xs)
    ensures Sorted(Insert(xs, s))
  {
    if xs == [] || xs[|xs| - 1].timestamp <= s.timestamp {
      SortedSnoc(xs, s);
    } else {
      var n := |xs| - 1;
      InsertSorted(xs[..n], s);
      InsertNoneLater(xs[..n], s, xs[n].timestamp);
      SortedSnoc(Insert(xs[..n], s), xs[n]);
    }
  }

  /** The query's order is ascending and holds exactly the inserted rows. */
  lemma {:induction false} SortByTimeIs(rows: seq<Swap>)
    ensures Sorted(SortByTime(rows)) && multiset(SortByTime(rows)) == multiset(rows)
  {
    if rows != [] {
      var n := |rows| - 1;
      SortByTimeIs(rows[..n]);
      InsertSorted(SortByTime(rows[..n]), rows[n]);
      InsertAdds(SortByTime(rows[..n]), rows[n]);
      assert rows == rows[..n] + [rows[n]];
    }
  }

  lemma SortByTimeSnoc(rows: seq<Swap>, s: Swap)
    ensures SortByTime(rows + [s]) == Insert(SortByTime(rows), s)
  {
    assert (rows + [s])[..|rows|] == rows;
  }

  lemma {:induction false} FilterInsertOther(xs: seq<Swap>, s: Swap, p: Swap -> bool)
    requires !p(s)
    ensures Filter(Insert(xs, s), p) == Filter(xs, p)
  {
    if xs == [] || xs[|xs| - 1].timestamp <= s.timestamp {
      assert (xs + [s])[..|xs|] == xs;
    } else {
      var n := |xs| - 1;
      FilterInsertOther(xs[..n], s, p);
      var r := Insert(xs[..n], s) + [xs[n]];
      assert r[..|r| - 1] == Insert(xs[..n], s);
    }
  }

  lemma {:induction false} FilterTwice(xs: seq<Swap>, p: Swap -> bool, q: Swap -> bool, r: Swap -> bool)
    requires forall x :: r(x) <==> p(x) && q(x)
    ensures Filter(Filter(xs, p), q) == Filter(xs, r)
  {
    if xs != [] {
      var n := |xs| - 1;
      FilterTwice(xs[..n], p, q, r);
      if p(xs[n]) {
        var f := Filter(xs[..n], p) + [xs[n]];
        assert f[..|f| - 1] == Filter(xs[..n], p);
      }
    }
  }

  lemma {:induction false} FilterSame(xs: seq<Swap>, p: Swap -> bool, q: Swap -> bool)
    requires forall x :: x in xs ==> (p(x) <==> q(x))
    ensures Filter(xs, p) == Filter(xs, q)
  {
    if xs != [] {
      assert xs == xs[..|xs| - 1] + [xs[|xs| - 1]];
      FilterSame(xs[..|xs| - 1], p, q);
    }
  }

  // ---------- the tick ----------

  predicate IsGreatest(m: int, s: set<int>) {
    m in s && forall k :: k in s ==> k <= m
  }

  lemma {:induction false} GreatestExists(s: set<int>)
    requires s != {}
    ensures exists m :: IsGreatest(m, s)
  {
    HasMember(s);
    var x: int :| x in s;
    if s == {x} {
      assert IsGreatest(x, s);
    } else {
      GreatestExists(s - {x});
      var m :| IsGreatest(m, s - {x});
      var n := if m < x then x else m;
      assert forall k :: k in s ==> k == x || k in s - {x};
      assert IsGreatest(n, s);
    }
  }

  function Greatest(s: set<int>): (m: int)
    requires s != {}
    ensures IsGreatest(m, s)
  {
    GreatestExists(s);
    var m :| m in s && forall k :: k in s ==> k <= m; m
  }

  /** The time after which swaps are fetched: that of the last candle, or 0 without one. */
  function Since(table: map<int, Candle>): int {
    if table == map[] then 0 else Greatest(table.Keys)
  }

  function After(since: int): Swap -> bool {
    (s: Swap) => s.timestamp > since
  }

  /** One incremental run: the swaps after the last candle's start are aggregated and upserted. */
  function Tick(table: map<int, Candle>, swaps: seq<Swap>, ms: nat): map<int, Candle>
    requires ms > 0
  {
    table + Aggregate(Filter(swaps, After(Since(table))), ms)
  }

  /** Every candle before the last agrees with the aggregation of all swaps, and the last one's bucket
      is not empty. */
  ghost predicate EarlierRight(table: map<int, Candle>, swaps: seq<Swap>, ms: nat)
    requires ms > 0
  {
    var full := Aggregate(swaps, ms);
    table != map[] ==>
      && Since(table) in full
      && (forall b :: b < Since(table) ==> (b in table <==> b in full))
      && (forall b :: b in table && b < Since(table) ==> table[b] == full[b])
  }

  ghost predicate NoSwapAt(swaps: seq<Swap>, t: int) {
    forall s :: s in swaps ==> s.timestamp != t
  }

  lemma SinceIsStart(table: map<int, Candle>, swaps: seq<Swap>, ms: nat)
    requires ms > 0 && EarlierRight(table, swaps, ms)
    ensures IsStart(Since(table), ms)
  {
    if table != map[] {
      var b := Since(table);
      AggregateAt(swaps, ms, b);
      var own := Filter(swaps, InBucket(b, ms));
      assert own[0] in own;
      BucketIsStart(own[0].timestamp, ms);
    }
  }

  /** Refetching loses at most the swaps exactly at the start of the last bucket. */
  lemma {:induction false} RefetchedBucket(swaps: seq<Swap>, since: int, ms: nat, b: int)
    requires ms > 0 && IsStart(since, ms)
    ensures b < since ==> Filter(Filter(swaps, After(since)), InBucket(b, ms)) == []
    ensures b > since || (b == since && NoSwapAt(swaps, since)) ==>
      Filter(Filter(swaps, After(since)), InBucket(b, ms)) == Filter(swaps, InBucket(b, ms))
    ensures Filter(Filter(swaps, After(since)), InBucket(b, ms)) == Filter(Filter(swaps, InBucket(b, ms)), After(since))
  {
    var p, q := After(since), InBucket(b, ms);
    var both := (s: Swap) => p(s) && q(s);
    FilterTwice(swaps, p, q, both);
    FilterTwice(swaps, q, p, both);
    var kept := Filter(Filter(swaps, p), q);
    if b < since && kept != [] {
      assert kept[0] in kept;
      BucketMonotone(kept[0].timestamp, since, ms);
    }
    if b > since || (b == since && NoSwapAt(swaps, since)) {
      forall s | s in swaps
        ensures both(s) <==> q(s)
      {
        BucketBounds(s.timestamp, ms);
      }
      FilterSame(swaps, both, q);
    }
  }

  // ---------- when a tick equals a full rebuild ----------

  ghost predicate InnerSwap(swaps: seq<Swap>, start: int, ms: nat)
    requires ms > 0
  {
    exists s :: s in swaps && s.timestamp > start && BucketOf(s.timestamp, ms) == start
  }

  /** What a tick leaves in bucket b when there is a last candle. */
  lemma TickAt(table: map<int, Candle>, swaps: seq<Swap>, ms: nat, b: int)
    requires ms > 0 && table != map[] && EarlierRight(table, swaps, ms)
    ensures var l, full, t := Since(table), Aggregate(swaps, ms), Tick(table, swaps, ms);
      && (b != l ==> (b in t <==> b in full) && (b in t ==> t[b] == full[b]))
      && l in t && l in full
      && (InnerSwap(swaps, l, ms) ==>
           Filter(Filter(swaps, InBucket(l, ms)), After(l)) != [] &&
             t[l] == CandleOf(Filter(Filter(swaps, InBucket(l, ms)), After(l))))
      && (!InnerSwap(swaps, l, ms) ==> t[l] == table[l])
  {
    var l := Since(table);
    var fetched := Filter(swaps, After(l));
    SinceIsStart(table, swaps, ms);
    RefetchedBucket(swaps, l, ms, b);
    RefetchedBucket(swaps, l, ms, l);
    AggregateAt(fetched, ms, b);
    AggregateAt(fetched, ms, l);
    AggregateAt(swaps, ms, b);
    hide Filter, Aggregate, BucketOf, Since;
    InnerIffRefetched(swaps, l, ms);
  }

  lemma InnerIffRefetched(swaps: seq<Swap>, l: int, ms: nat)
    requires ms > 0
    ensures InnerSwap(swaps, l, ms) <==> Filter(Filter(swaps, After(l)), InBucket(l, ms)) != []
  {
    var kept := Filter(Filter(swaps, After(l)), InBucket(l, ms));
    if InnerSwap(swaps, l, ms) {
      var s :| s in swaps && s.timestamp > l && BucketOf(s.timestamp, ms) == l;
      assert s in kept;
    }
    assert kept != [] ==> kept[0] in kept;
  }

  ghost predicate PositiveVolumes(xs: seq<Swap>) {
    forall s :: s in xs ==> s.volume > 0.0
  }

  lemma {:induction false} FilterTotal(xs: seq<Swap>, p: Swap -> bool)
    requires PositiveVolumes(xs)
    ensures Total(Filter(xs, p)) <= Total(xs)
    ensures (exists s :: s in xs && !p(s)) ==> Total(Filter(xs, p)) < Total(xs)
  {
    if xs != [] {
      var n := |xs| - 1;
      assert xs == xs[..n] + [xs[n]];
      FilterTotal(xs[..n], p);
      if p(xs[n]) {
        var f := Filter(xs[..n], p) + [xs[n]];
        assert f[..|f| - 1] == Filter(xs[..n], p);
      }
    }
  }

  /** Leaving out swaps with positive volume changes the candle. */
  lemma DroppedSwapShows(xs: seq<Swap>, p: Swap -> bool)
    requires PositiveVolumes(xs) && Filter(xs, p) != [] && exists s :: s in xs && !p(s)
    ensures CandleOf(Filter(xs, p)) != CandleOf(xs)
  {
    FilterTotal(xs, p);
    CandleMeaning(xs);
    CandleMeaning(Filter(xs, p));
  }

  /** The rebuilt last candle is right exactly when no swap lies on the start of its bucket. */
  lemma {:induction false} LastBucketIff(swaps: seq<Swap>, l: int, ms: nat)
    requires ms > 0 && PositiveVolumes(swaps) && IsStart(l, ms)
    requires Filter(Filter(swaps, InBucket(l, ms)), After(l)) != []
    ensures Filter(swaps, InBucket(l, ms)) != []
    ensures CandleOf(Filter(Filter(swaps, InBucket(l, ms)), After(l))) == CandleOf(Filter(swaps, InBucket(l, ms)))
       <==> NoSwapAt(swaps, l)
  {
    var own := Filter(swaps, InBucket(l, ms));
    assert Filter(own, After(l))[0] in own;
    RefetchedBucket(swaps, l, ms, l);
    if !NoSwapAt(swaps, l) {
      var s :| s in swaps && s.timestamp == l;
      assert s in own && !After(l)(s);
      DroppedSwapShows(own, After(l));
    }
  }

  /** When the earlier candles are right, a tick equals a full rebuild exactly when: if some swap lies
      strictly inside the last bucket, none lies on its start; otherwise the last candle already was right. */
  lemma {:induction false} LastBucketDecides(table: map<int, Candle>, swaps: seq<Swap>, ms: nat)
    requires ms > 0 && table != map[] && EarlierRight(table, swaps, ms) && PositiveVolumes(swaps)
    ensures Since(table) in table && Since(table) in Aggregate(swaps, ms)
    ensures Tick(table, swaps, ms) == Aggregate(swaps, ms) <==>
      if InnerSwap(swaps, Since(table), ms) then NoSwapAt(swaps, Since(table))
      else table[Since(table)] == Aggregate(swaps, ms)[Since(table)]
  {
    var l, full, t := Since(table), Aggregate(swaps, ms), Tick(table, swaps, ms);
    SinceIsStart(table, swaps, ms);
    TickAt(table, swaps, ms, l);
    AggregateAt(swaps, ms, l);
    if InnerSwap(swaps, l, ms) {
      LastBucketIff(swaps, l, ms);
    }
    hide Aggregate, Filter, Tick, Since, InnerSwap, CandleOf;
    assert t[l] == full[l] <==> t == full by {
      if t[l] == full[l] {
        forall b
          ensures (b in t <==> b in full) && (b in t ==> t[b] == full[b])
        {
          TickAt(table, swaps, ms, b);
        }
      }
    }
  }

  /** A tick changes no candle before the last one, so it cannot repair them. */
  lemma RebuiltMeansEarlierRight(table: map<int, Candle>, swaps: seq<Swap>, ms: nat)
    requires ms > 0 && table != map[] && IsStart(Since(table), ms) && Tick(table, swaps, ms) == Aggregate(swaps, ms)
    ensures EarlierRight(table, swaps, ms)
  {
    var l, full := Since(table), Aggregate(swaps, ms);
    var fetched := Filter(swaps, After(l));
    forall b | b < l
      ensures b !in Aggregate(fetched, ms)
    {
      RefetchedBucket(swaps, l, ms, b);
      AggregateAt(fetched, ms, b);
    }
    hide Aggregate, Filter, Since;
    assert full == table + Aggregate(fetched, ms);
  }

  /** For every table whose last candle starts a bucket, a tick equals a full rebuild exactly when the
      earlier candles are right and, if some swap lies strictly inside the last bucket, none lies on
      its start, otherwise the last candle is right too. */
  lemma {:induction false} TickExactIff(table: map<int, Candle>, swaps: seq<Swap>, ms: nat)
    requires ms > 0 && table != map[] && IsStart(Since(table), ms) && PositiveVolumes(swaps)
    ensures Since(table) in table
    ensures Tick(table, swaps, ms) == Aggregate(swaps, ms) <==>
      && EarlierRight(table, swaps, ms)
      && (if InnerSwap(swaps, Since(table), ms) then NoSwapAt(swaps, Since(table))
          else Since(table) in Aggregate(swaps, ms) && table[Since(table)] == Aggregate(swaps, ms)[Since(table)])
  {
    if Tick(table, swaps, ms) == Aggregate(swaps, ms) {
      RebuiltMeansEarlierRight(table, swaps, ms);
    }
    hide Aggregate, Filter, Tick, InnerSwap, EarlierRight;
    if EarlierRight(table, swaps, ms) {
      LastBucketDecides(table, swaps, ms);
    }
  }

  lemma {:induction false} FilterAll(xs: seq<Swap>, p: Swap -> bool)
    requires forall s :: s in xs ==> p(s)
    ensures Filter(xs, p) == xs
  {
    if xs != [] {
      var n := |xs| - 1;
      assert xs == xs[..n] + [xs[n]];
      FilterAll(xs[..n], p);
    }
  }

  /** The first tick, on an empty table, equals a full rebuild exactly when no swap is at time 0. */
  lemma FirstTickExactIff(swaps: seq<Swap>, ms: nat)
    requires ms > 0 && PositiveVolumes(swaps) && forall s :: s in swaps ==> s.timestamp >= 0
    ensures Tick(map[], swaps, ms) == Aggregate(swaps, ms) <==> NoSwapAt(swaps, 0)
  {
    var p := After(0);
    if NoSwapAt(swaps, 0) {
      FilterAll(swaps, p);
    } else {
      var s :| s in swaps && s.timestamp == 0;
      var own := Filter(swaps, InBucket(0, ms));
      assert BucketOf(0, ms) == 0;
      assert s in own && !p(s);
      AggregateAt(swaps, ms, 0);
      AggregateAt(Filter(swaps, p), ms, 0);
      RefetchedBucket(swaps, 0, ms, 0);
      if Filter(own, p) != [] {
        DroppedSwapShows(own, p);
      }
    }
  }

  lemma LastBucketHasInner(table: map<int, Candle>, swaps: seq<Swap>, ms: nat)
    requires ms > 0 && table != map[] && EarlierRight(table, swaps, ms) && NoSwapAt(swaps, Since(table))
    ensures InnerSwap(swaps, Since(table), ms)
  {
    var l := Since(table);
    AggregateAt(swaps, ms, l);
    var own := Filter(swaps, InBucket(l, ms));
    assert own[0] in own;
    BucketBounds(own[0].timestamp, ms);
  }

  lemma LaterTickIsRebuild(table: map<int, Candle>, swaps: seq<Swap>, ms: nat)
    requires ms > 0 && table != map[] && EarlierRight(table, swaps, ms) && NoSwapAt(swaps, Since(table))
    ensures Tick(table, swaps, ms) == Aggregate(swaps, ms)
  {
    var l, full, t := Since(table), Aggregate(swaps, ms), Tick(table, swaps, ms);
    SinceIsStart(table, swaps, ms);
    LastBucketHasInner(table, swaps, ms);
    AggregateAt(swaps, ms, l);
    RefetchedBucket(swaps, l, ms, l);
    hide Aggregate, Filter, Tick, Since, InnerSwap, CandleOf, EarlierRight;
    TickAt(table, swaps, ms, l);
    forall b
      ensures (b in t <==> b in full) && (b in t ==> t[b] == full[b])
    {
      TickAt(table, swaps, ms, b);
    }
  }

  /** The start of the last candle's bucket and its inside do not both hold swaps. */
  ghost predicate CleanTick(table: map<int, Candle>, swaps: seq<Swap>, ms: nat)
    requires ms > 0
  {
    InnerSwap(swaps, Since(table), ms) ==> NoSwapAt(swaps, Since(table))
  }

  /** If no swap lies strictly inside the last bucket, the last candle is right. */
  ghost predicate LastRight(table: map<int, Candle>, swaps: seq<Swap>, ms: nat)
    requires ms > 0
  {
    table != map[] && !InnerSwap(swaps, Since(table), ms) ==>
      Since(table) in Aggregate(swaps, ms) && table[Since(table)] == Aggregate(swaps, ms)[Since(table)]
  }

  lemma UntouchedTickIsRebuild(table: map<int, Candle>, swaps: seq<Swap>, ms: nat)
    requires ms > 0 && table != map[] && EarlierRight(table, swaps, ms) && LastRight(table, swaps, ms)
    requires !InnerSwap(swaps, Since(table), ms)
    ensures Tick(table, swaps, ms) == Aggregate(swaps, ms)
  {
    var l, full, t := Since(table), Aggregate(swaps, ms), Tick(table, swaps, ms);
    hide Aggregate, Filter, Tick, Since, InnerSwap, CandleOf, EarlierRight;
    TickAt(table, swaps, ms, l);
    forall b
      ensures (b in t <==> b in full) && (b in t ==> t[b] == full[b])
    {
      TickAt(table, swaps, ms, b);
    }
  }

  lemma CleanTickIsRebuild(table: map<int, Candle>, swaps: seq<Swap>, ms: nat)
    requires ms > 0 && EarlierRight(table, swaps, ms) && LastRight(table, swaps, ms) && CleanTick(table, swaps, ms)
    requires forall s :: s in swaps ==> s.timestamp > 0
    ensures Tick(table, swaps, ms) == Aggregate(swaps, ms)
  {
    hide Aggregate, Filter, Tick, InnerSwap, EarlierRight, LastRight;
    if table == map[] {
      TickIsRebuild(table, swaps, ms);
    } else if InnerSwap(swaps, Since(table), ms) {
      LaterTickIsRebuild(table, swaps, ms);
    } else {
      UntouchedTickIsRebuild(table, swaps, ms);
    }
  }

  /** Without a swap at the time of the last candle (at time 0 if there is none) a tick equals a full
      rebuild. */
  lemma TickIsRebuild(table: map<int, Candle>, swaps: seq<Swap>, ms: nat)
    requires ms > 0 && EarlierRight(table, swaps, ms)
    requires NoSwapAt(swaps, Since(table)) && forall s :: s in swaps ==> s.timestamp >= 0
    ensures Tick(table, swaps, ms) == Aggregate(swaps, ms)
  {
    if table == map[] {
      FilterAll(swaps, After(0));
    } else {
      LaterTickIsRebuild(table, swaps, ms);
    }
  }
}
