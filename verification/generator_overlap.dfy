/** A generator run in two steps, fetching and writing, with swaps arriving in between: runs of one
    series that do not overlap are atomic, and overlapping ones can lose a swap for ever. */
module GeneratorOverlap {
  import opened Scan
  import opened Candles
  import opened PriceService
  import opened CandleRuns

  /** pending holds, for every run that has fetched and not yet written, the buckets it will upsert. */
  datatype Split = Split(rows: seq<Swap>, table: map<int, Candle>, pending: map<nat, map<int, Candle>>)

  datatype SplitEvent = Insertion(swap: Swap) | Fetch(id: nat) | Write(id: nat)

  function Fetched(rows: seq<Swap>, table: map<int, Candle>, ms: nat): map<int, Candle>
    requires ms > 0
  {
    Aggregate(Filter(SortByTime(rows), After(Since(table))), ms)
  }

  /** An event that does not fit its run changes nothing. */
  function StepSplit(s: Split, ms: nat, e: SplitEvent): Split
    requires ms > 0
  {
    match e
    case Insertion(swap) => s.(rows := s.rows + [swap])
    case Fetch(id) => if id in s.pending then s else s.(pending := s.pending[id := Fetched(s.rows, s.table, ms)])
    case Write(id) => if id !in s.pending then s else s.(table := s.table + s.pending[id], pending := s.pending - {id})
  }

  function RunSplit(s: Split, ms: nat, es: seq<SplitEvent>): Split
    requires ms > 0
    decreases |es|
  {
    if es == [] then s else RunSplit(StepSplit(s, ms, es[0]), ms, es[1..])
  }

  // ---------- runs that do not overlap ----------

  /** No run fetches while another has yet to write. */
  ghost predicate Apart(s: Split, ms: nat, es: seq<SplitEvent>)
    requires ms > 0
    decreases |es|
  {
    es != [] ==> (es[0].Fetch? ==> s.pending == map[]) && Apart(StepSplit(s, ms, es[0]), ms, es[1..])
  }

  /** The same events with every run done at once when it fetches. */
  function AtOnce(es: seq<SplitEvent>): seq<Event>
    decreases |es|
  {
    if es == [] then []
    else
      (match es[0]
       case Insertion(swap) => [Arrive(swap)]
       case Fetch(id) => [TickNow]
       case Write(id) => [])
      + AtOnce(es[1..])
  }

  /** The atomic table is the table with what is yet to be written. */
  ghost predicate Simulates(s: Split, x: Series) {
    && s.rows == x.rows
    && (forall i, j :: i in s.pending && j in s.pending ==> i == j)
    && (s.pending == map[] ==> s.table == x.table)
    && (forall i :: i in s.pending ==> s.table + s.pending[i] == x.table)
  }

  lemma WriteSimulates(s: Split, x: Series, ms: nat, id: nat)
    requires ms > 0 && Simulates(s, x)
    ensures Simulates(StepSplit(s, ms, Write(id)), x)
  {}

  lemma FetchSimulates(s: Split, x: Series, ms: nat, id: nat)
    requires ms > 0 && Simulates(s, x) && s.pending == map[]
    ensures Simulates(StepSplit(s, ms, Fetch(id)), StepSeries(x, ms, TickNow))
  {
    hide Aggregate, Filter, SortByTime, Since;
  }

  /** While runs do not overlap, the tables are at every moment those of atomic runs. */
  lemma {:induction false} ApartSimulates(s: Split, x: Series, ms: nat, es: seq<SplitEvent>)
    requires ms > 0 && Simulates(s, x) && Apart(s, ms, es)
    ensures Simulates(RunSplit(s, ms, es), RunSeries(x, ms, AtOnce(es)))
    decreases |es|
  {
    hide Simulates, Fetched, Tick;
    if es != [] {
      var rest, all := AtOnce(es[1..]), AtOnce(es);
      match es[0]
      case Insertion(swap) =>
        InsertionSimulates(s, x, ms, swap);
        assert all[1..] == rest;
        ApartSimulates(StepSplit(s, ms, es[0]), StepSeries(x, ms, Arrive(swap)), ms, es[1..]);
      case Fetch(id) =>
        FetchSimulates(s, x, ms, id);
        assert all[1..] == rest;
        ApartSimulates(StepSplit(s, ms, es[0]), StepSeries(x, ms, TickNow), ms, es[1..]);
      case Write(id) =>
        WriteSimulates(s, x, ms, id);
        assert all == rest;
        ApartSimulates(StepSplit(s, ms, es[0]), x, ms, es[1..]);
    }
  }

  lemma InsertionSimulates(s: Split, x: Series, ms: nat, swap: Swap)
    requires ms > 0 && Simulates(s, x)
    ensures Simulates(StepSplit(s, ms, Insertion(swap)), StepSeries(x, ms, Arrive(swap)))
  {}

  /** From nothing, runs of one series that fetch and write without overlapping, with swaps arriving at
      any moment, leave the candles of a full rebuild after one more run exactly when the same events
      with atomic runs are clean. */
  lemma ApartExactIff(ms: nat, es: seq<SplitEvent>, s: Split)
    requires ms > 0 && Apart(Split([], map[], map[]), ms, es) && Proper(AtOnce(es))
    requires s == RunSplit(Split([], map[], map[]), ms, es) && s.pending == map[]
    ensures var y := RunSeries(Series([], map[]), ms, AtOnce(es));
      && y == Series(s.rows, s.table)
      && (Tick(s.table, SortByTime(s.rows), ms) == Aggregate(SortByTime(s.rows), ms)
          <==> CleanRun(Series([], map[]), ms, AtOnce(es)) && CleanStep(y, ms, TickNow))
  {
    var y := RunSeries(Series([], map[]), ms, AtOnce(es));
    assert Simulates(Split([], map[], map[]), Series([], map[]));
    hide RunSplit, RunSeries, AtOnce, Aggregate, SortByTime, Tick, CleanRun, CleanStep, Proper, Apart;
    ApartSimulates(Split([], map[], map[]), Series([], map[]), ms, es);
    RebuildIffClean(ms, AtOnce(es), y);
  }

  // ---------- runs that overlap ----------

  /** Two runs that overlap around the arrival of z, whose candle the first has fetched, and of w, which
      opens a later candle: the second writes first, the first overwrites the candle of z. */
  function Overlap(z: Swap, w: Swap): seq<SplitEvent> {
    [Fetch(1)] + ([Insertion(z)] + ([Insertion(w)] + ([Fetch(2)] + ([Write(2)] + []))))
  }

  lemma FirstEvent(s: Split, ms: nat, e: SplitEvent, rest: seq<SplitEvent>)
    requires ms > 0
    ensures RunSplit(s, ms, [e] + rest) == RunSplit(StepSplit(s, ms, e), ms, rest)
  {
    hide StepSplit;
    assert ([e] + rest)[1..] == rest;
  }

  lemma OverlapIs(s: Split, ms: nat, z: Swap, w: Swap)
    requires ms > 0 && s.pending == map[]
    ensures var rows, m := s.rows + [z] + [w], Fetched(s.rows, s.table, ms);
      RunSplit(s, ms, Overlap(z, w)) == Split(rows, s.table + Fetched(rows, s.table, ms), map[1 := m])
  {
    hide Fetched;
    var m := Fetched(s.rows, s.table, ms);
    var s1 := s.(pending := map[1 := m]);
    var s2 := s1.(rows := s.rows + [z]);
    var s3 := s1.(rows := s.rows + [z] + [w]);
    var s4 := s3.(pending := map[1 := m, 2 := Fetched(s3.rows, s.table, ms)]);
    var s5 := StepSplit(s4, ms, Write(2));
    assert StepSplit(s, ms, Fetch(1)) == s1 && StepSplit(s1, ms, Insertion(z)) == s2;
    assert StepSplit(s2, ms, Insertion(w)) == s3 && StepSplit(s3, ms, Fetch(2)) == s4;
    assert s5.pending == map[1 := m];
    hide StepSplit;
    FirstEvent(s, ms, Fetch(1), [Insertion(z)] + ([Insertion(w)] + ([Fetch(2)] + ([Write(2)] + []))));
    FirstEvent(s1, ms, Insertion(z), [Insertion(w)] + ([Fetch(2)] + ([Write(2)] + [])));
    FirstEvent(s2, ms, Insertion(w), [Fetch(2)] + ([Write(2)] + []));
    FirstEvent(s3, ms, Fetch(2), [Write(2)] + []);
    FirstEvent(s4, ms, Write(2), []);
  }

  lemma ArrivedTwice(rows: seq<Swap>, z: Swap, w: Swap)
    ensures SortByTime(rows + [z] + [w]) == Insert(Insert(SortByTime(rows), z), w)
  {
    hide SortByTime;
    SortByTimeSnoc(rows, z);
    SortByTimeSnoc(rows + [z], w);
  }

  /** What the first run fetched for the candle of z is less than the candle's swaps with z. */
  lemma FetchedLess(xs: seq<Swap>, table: map<int, Candle>, ms: nat, z: Swap, w: Swap)
    requires ms > 0 && PositiveVolumes(xs) && z.volume > 0.0 && w.volume > 0.0
    requires BucketOf(z.timestamp, ms) in Aggregate(Filter(xs, After(Since(table))), ms)
    ensures var b := BucketOf(z.timestamp, ms);
      Aggregate(Filter(xs, After(Since(table))), ms)[b].volume < Total(Own(Insert(Insert(xs, z), w), b, ms))
  {
    var b := BucketOf(z.timestamp, ms);
    FetchedVolume(table, xs, ms, b);
    OwnPositive(xs, b, ms);
    InsertTotal(xs, z, InBucket(b, ms));
    InsertTotal(Insert(xs, z), w, InBucket(b, ms));
    FilterTotal(Own(xs, b, ms), After(Since(table)));
    hide Aggregate, BucketOf, Filter, Insert, Total, Since;
  }

  lemma BothArrived(xs: seq<Swap>, z: Swap, w: Swap)
    ensures z in Insert(Insert(xs, z), w) && w in Insert(Insert(xs, z), w)
  {
    InsertAdds(xs, z);
    InsertAdds(Insert(xs, z), w);
    hide Insert;
    var ys := Insert(Insert(xs, z), w);
    assert z in multiset(ys) && w in multiset(ys);
  }

  /** The candle of a fetched swap is in the table after the write. */
  lemma FetchedSince(xs: seq<Swap>, table: map<int, Candle>, ms: nat, w: Swap, m: map<int, Candle>)
    requires ms > 0 && w in xs && w.timestamp > Since(table)
    ensures BucketOf(w.timestamp, ms) <= Since(table + Aggregate(Filter(xs, After(Since(table))), ms) + m)
  {
    var fetched, b := Filter(xs, After(Since(table))), BucketOf(w.timestamp, ms);
    AggregateAt(fetched, ms, b);
    assert w in fetched && w in Filter(fetched, InBucket(b, ms));
    hide Aggregate, Filter, BucketOf;
    assert b in (table + Aggregate(fetched, ms) + m).Keys;
  }

  /** After the second write of such an overlap, what the first run still has to write lacks z. */
  lemma OverlapIsStale(s: Split, ms: nat, z: Swap, w: Swap, t: Split)
    requires ms > 0 && AllProper(SortByTime(s.rows)) && z.volume > 0.0 && w.volume > 0.0 && z.timestamp >= 0
    requires BucketOf(z.timestamp, ms) in Fetched(s.rows, s.table, ms)
    requires Since(s.table) < z.timestamp && BucketOf(z.timestamp, ms) < BucketOf(w.timestamp, ms)
    requires t.rows == s.rows + [z] + [w] && t.table == s.table + Fetched(t.rows, s.table, ms)
    requires t.pending == map[1 := Fetched(s.rows, s.table, ms)]
    ensures AllProper(SortByTime(t.rows)) && Missed(t.table + t.pending[1], SortByTime(t.rows), ms, z)
  {
    var xs := SortByTime(s.rows);
    LaterSwap(z, w, ms);
    ArrivedTwice(s.rows, z, w);
    hide SortByTime, Aggregate, Filter, BucketOf, Since, Insert, Total;
    AfterArrivals(xs, z, w);
    BothArrived(xs, z, w);
    ProperIsPositive(xs);
    FetchedLess(xs, s.table, ms, z, w);
    FetchedSince(SortByTime(t.rows), s.table, ms, w, t.pending[1]);
  }

  /** Although every arrival is later than the last candle at that time, after such an overlap no
      continuation ends with the candles of a full rebuild. */
  lemma OverlapLosesSwap(s: Split, ms: nat, z: Swap, w: Swap, es: seq<Event>)
    requires ms > 0 && s.pending == map[] && AllProper(SortByTime(s.rows)) && Proper([Arrive(z), Arrive(w)] + es)
    requires BucketOf(z.timestamp, ms) in Fetched(s.rows, s.table, ms)
    requires Since(s.table) < z.timestamp && BucketOf(z.timestamp, ms) < BucketOf(w.timestamp, ms)
    ensures var u := RunSplit(s, ms, Overlap(z, w) + [Write(1)]);
      && u.pending == map[]
      && (var y := RunSeries(Series(u.rows, u.table), ms, es);
          StepSeries(y, ms, TickNow).table != Aggregate(SortByTime(y.rows), ms))
  {
    hide *;
    ProperParts(z, w, es);
    var t := OverlapThenWrite(s, ms, z, w);
    OverlapIsStale(s, ms, z, w, t);
    MissedForever(Series(t.rows, t.table + t.pending[1]), ms, es, z);
  }

  lemma OverlapThenWrite(s: Split, ms: nat, z: Swap, w: Swap) returns (t: Split)
    requires ms > 0 && s.pending == map[]
    ensures t.rows == s.rows + [z] + [w] && t.table == s.table + Fetched(t.rows, s.table, ms)
    ensures t.pending == map[1 := Fetched(s.rows, s.table, ms)]
    ensures RunSplit(s, ms, Overlap(z, w) + [Write(1)]) == Split(t.rows, t.table + t.pending[1], map[])
  {
    t := RunSplit(s, ms, Overlap(z, w));
    OverlapIs(s, ms, z, w);
    RunSplitSnoc(s, ms, Overlap(z, w), Write(1));
    hide RunSplit, Overlap, Fetched;
  }

  lemma LaterSwap(z: Swap, w: Swap, ms: nat)
    requires ms > 0 && BucketOf(z.timestamp, ms) < BucketOf(w.timestamp, ms)
    ensures z.timestamp < BucketOf(w.timestamp, ms) <= w.timestamp
  {
    BucketIsStart(w.timestamp, ms);
    BucketBounds(w.timestamp, ms);
    BucketMonotone(z.timestamp, BucketOf(w.timestamp, ms), ms);
    hide BucketOf;
  }

  lemma ProperParts(z: Swap, w: Swap, es: seq<Event>)
    requires Proper([Arrive(z), Arrive(w)] + es)
    ensures Proper(es) && z.volume > 0.0 && w.volume > 0.0 && z.timestamp >= 0 && w.timestamp >= 0
  {
    var all := [Arrive(z), Arrive(w)] + es;
    assert all[0] in all && all[1] in all;
    assert forall e :: e in es ==> e in all;
  }

  lemma AfterArrivals(xs: seq<Swap>, z: Swap, w: Swap)
    requires AllProper(xs) && z.volume > 0.0 && w.volume > 0.0 && z.timestamp >= 0 && w.timestamp >= 0
    ensures AllProper(Insert(Insert(xs, z), w))
  {
    ArrivedMembers(xs, z);
    ArrivedMembers(Insert(xs, z), w);
    hide Insert;
  }

  lemma {:induction false} RunSplitSnoc(s: Split, ms: nat, es: seq<SplitEvent>, e: SplitEvent)
    requires ms > 0
    ensures RunSplit(s, ms, es + [e]) == StepSplit(RunSplit(s, ms, es), ms, e)
    decreases |es|
  {
    hide StepSplit;
    if es == [] {
      assert [] + [e] == [e] && [e][1..] == [];
      assert RunSplit(StepSplit(s, ms, e), ms, []) == StepSplit(s, ms, e);
    } else {
      assert (es + [e])[1..] == es[1..] + [e];
      RunSplitSnoc(StepSplit(s, ms, es[0]), ms, es[1..], e);
    }
  }
}
