/** Every run of the audit module: ids are exactly 1 to the counter, logs are append-only, indexes
    agree, and queries by name and by time are exact. */
module AuditRuns {
  import opened ByteStrings
  import opened Scan
  import opened Audit

  // ---------- the step ----------

  function ParamsOf(a: State): Params {
    if a.params.Some? then a.params.value else DEFAULT_PARAMS
  }

  function Counter(a: State): uint64 {
    if a.counter.Some? then a.counter.value else 0
  }

  /** Unsigned 64-bit successor of the stored counter. */
  function NextId(a: State): uint64 {
    if Counter(a) == TWO_64 - 1 then 0 else Counter(a) + 1
  }

  predicate IsAllowed(a: State, address: Bytes) {
    ParamsOf(a).allowedAuditors == [] || address in ParamsOf(a).allowedAuditors
  }

  function LogFor(msg: Msg, ctx: Context, id: uint64): AuditLog {
    AuditLog(id, msg.eventType, msg.creator, msg.target, msg.action, msg.data, ctx.blockHeight, ctx.blockTime,
      ctx.txHash)
  }

  function Append(a: State, msg: Msg, ctx: Context): State {
    PutLog(a, LogFor(msg, ctx, NextId(a))).(counter := Some(NextId(a)))
  }

  function Handle(a: State, msg: Msg, ctx: Context): (State, Response) {
    if !IsAllowed(a, msg.creator) then (a, NotAllowed)
    else if ParamsOf(a).maxDataSize > 0 && |msg.data| > ParamsOf(a).maxDataSize then (a, DataTooLarge)
    else (Append(a, msg, ctx), Recorded)
  }

  datatype Step = Step(msg: Msg, ctx: Context)

  function Run(a: State, steps: seq<Step>): State
    decreases |steps|
  {
    if steps == [] then a else Run(Handle(a, steps[0].msg, steps[0].ctx).0, steps[1..])
  }

  // ---------- the invariant ----------

  /** Stored ids are exactly 1 to the counter. */
  ghost predicate IdsAreOneToCounter(a: State) {
    forall n: uint64 :: BE8(n) in a.logs <==> 1 <= n <= Counter(a)
  }

  ghost predicate Inv(a: State) {
    Indexed(a) && IdsAreOneToCounter(a) && a.counter != Some(0)
  }

  ghost predicate Extends(a: State, b: State) {
    && (forall x :: x in a.logs ==> x in b.logs && b.logs[x] == a.logs[x])
    && b.params == a.params && Counter(a) <= Counter(b)
  }

  lemma AppendIndexed(a: State, msg: Msg, ctx: Context)
    requires Indexed(a) && BE8(NextId(a)) !in a.logs
    ensures Indexed(Append(a, msg, ctx))
  {
    PutLogIndexed(a, LogFor(msg, ctx, NextId(a)));
    hide IndexAgrees, TimeAgrees, Keyed;
  }

  lemma AppendKeeps(a: State, msg: Msg, ctx: Context)
    requires Inv(a) && Counter(a) < TWO_64 - 1
    ensures Inv(Append(a, msg, ctx)) && Extends(a, Append(a, msg, ctx))
    ensures Append(a, msg, ctx).logs == a.logs[BE8(Counter(a) + 1) := LogFor(msg, ctx, Counter(a) + 1)]
  {
    hide BE8, Indexed, IndexEntry, TimeEntry;
    AppendIndexed(a, msg, ctx);
    var n, b := Counter(a) + 1, Append(a, msg, ctx);
    forall m: uint64
      ensures BE8(m) in b.logs <==> 1 <= m <= Counter(b)
    {
      BE8Order(m, n);
    }
  }

  /** One message keeps the invariant; a refused one changes nothing; a recorded one writes a new id. */
  lemma HandleKeeps(a: State, msg: Msg, ctx: Context, b: State, r: Response)
    requires Inv(a) && Counter(a) < TWO_64 - 1 && (b, r) == Handle(a, msg, ctx)
    ensures Inv(b) && Extends(a, b) && Counter(b) <= Counter(a) + 1
    ensures !r.Recorded? ==> b == a
    ensures r.NotAllowed? <==>
      a.params.Some? && a.params.value.allowedAuditors != [] && msg.creator !in a.params.value.allowedAuditors
    ensures r.DataTooLarge? <==>
      !r.NotAllowed? &&
      var limit := if a.params.Some? then a.params.value.maxDataSize else 65536; 0 < limit < |msg.data|
    ensures r.Recorded? ==> Counter(b) == Counter(a) + 1 && BE8(Counter(b)) !in a.logs && BE8(Counter(b)) in b.logs
    ensures r.Recorded? ==>
      b.logs[BE8(Counter(b))] == AuditLog(Counter(b), msg.eventType, msg.creator, msg.target, msg.action, msg.data,
                                          ctx.blockHeight, ctx.blockTime, ctx.txHash)
  {
    hide BE8, Indexed, Append;
    AppendKeeps(a, msg, ctx);
    assert r.Recorded? ==> Counter(b) == Counter(a) + 1 by {
      AppendCounter(a, msg, ctx);
    }
  }

  lemma AppendCounter(a: State, msg: Msg, ctx: Context)
    requires Counter(a) < TWO_64 - 1
    ensures Counter(Append(a, msg, ctx)) == Counter(a) + 1
  {}

  /** Append-only over every run: ids stay 1 to the counter and no stored log changes. */
  lemma {:induction false} RunKeeps(a: State, steps: seq<Step>)
    requires Inv(a) && Counter(a) + |steps| < TWO_64
    ensures Inv(Run(a, steps)) && Extends(a, Run(a, steps)) && Counter(Run(a, steps)) <= Counter(a) + |steps|
    decreases |steps|
  {
    hide Inv, Handle;
    if steps != [] {
      var (b, r) := Handle(a, steps[0].msg, steps[0].ctx);
      HandleKeeps(a, steps[0].msg, steps[0].ctx, b, r);
      RunKeeps(b, steps[1..]);
    }
  }

  function Genesis(params: Params): State {
    EMPTY.(params := Some(params))
  }

  lemma GenesisInv(params: Params)
    ensures Inv(Genesis(params))
  {
    assert forall n: uint64 :: BE8(n) !in Genesis(params).logs;
  }

  /** Over all runs from an empty genesis, for NUL-free names, the actor and type queries are the
      filter over all logs, in ascending id order. */
  lemma ReachableNameQueries(params: Params, steps: seq<Step>, a: State, name: Bytes)
    requires |steps| < TWO_64 && a == Run(Genesis(params), steps) && NulFree(name)
    ensures (forall x :: x in a.logs ==> NulFree(a.logs[x].actor)) ==>
              QueryByName(a.logs, a.byActor, name) == Returned(Filter(Values(a.logs), Named(ActorOf, name)))
    ensures (forall x :: x in a.logs ==> NulFree(a.logs[x].eventType)) ==>
              QueryByName(a.logs, a.byType, name) == Returned(Filter(Values(a.logs), Named(TypeOf, name)))
  {
    GenesisInv(params);
    RunKeeps(Genesis(params), steps);
    hide QueryByName, Filter, Values, IndexAgrees, Keyed, TimeAgrees, Run, NulFree;
    if forall x :: x in a.logs ==> NulFree(a.logs[x].actor) {
      NulFreeNamesAreExact(a.logs, a.byActor, ActorOf, name);
    }
    if forall x :: x in a.logs ==> NulFree(a.logs[x].eventType) {
      NulFreeNamesAreExact(a.logs, a.byType, TypeOf, name);
    }
  }

  // ---------- all logs, and time order along a run ----------

  /** All logs come in ascending id order, one for each id from 1 to the counter. */
  lemma AllLogsById(a: State)
    requires Inv(a)
    ensures forall l :: l in Values(a.logs) <==> l in a.logs.Values
    ensures forall i, j :: 0 <= i < j < |Values(a.logs)| ==> Values(a.logs)[i].id < Values(a.logs)[j].id
    ensures forall l :: l in Values(a.logs) <==> LogKey(l) in a.logs && a.logs[LogKey(l)] == l
  {
    var keys, vs := SortedKeys(a.logs.Keys), Values(a.logs);
    ValuesAre(a.logs);
    hide BE8, Values, SortedKeys, IndexAgrees, TimeAgrees, IdsAreOneToCounter;
    assert forall i :: 0 <= i < |vs| ==> LogKey(vs[i]) == keys[i];
    forall i, j | 0 <= i < j < |vs|
      ensures vs[i].id < vs[j].id
    {
      BE8Order(vs[i].id, vs[j].id);
    }
    forall l | LogKey(l) in a.logs && a.logs[LogKey(l)] == l
      ensures l in vs
    {
      assert LogKey(l) in keys;
      var i :| 0 <= i < |keys| && keys[i] == LogKey(l);
      assert vs[i] == l;
    }
  }

  /** Later ids carry later or equal times. */
  ghost predicate TimesFollowIds(a: State) {
    forall l, m :: l in a.logs.Values && m in a.logs.Values && l.id < m.id ==>
      ToUint64(l.timestamp) <= ToUint64(m.timestamp)
  }

  lemma TimeQueryAscendsById(a: State, from: int64, to: int64, r: seq<AuditLog>)
    requires Inv(a) && TimesFollowIds(a) && r == QueryByTime(a.logs, a.byTime, from, to)
    ensures forall i, j :: 0 <= i < j < |r| ==> r[i].id < r[j].id
    ensures forall l :: l in r <==> l in a.logs.Values && InWindow(l.timestamp, from, to)
  {
    TimeQueryIs(a.logs, a.byTime, from, to, r);
    assert forall l :: l in a.logs.Values <==> LogKey(l) in a.logs && a.logs[LogKey(l)] == l;
    hide QueryByTime, BE8, ToUint64, WrapInt64, IdsAreOneToCounter, IndexAgrees, TimeAgrees;
    forall i, j | 0 <= i < j < |r|
      ensures r[i].id < r[j].id
    {
      assert r[i] in r && r[j] in r && Before(r[i], r[j]);
      IdOrder(a, r[i], r[j]);
    }
  }

  /** If times never decrease with the id, a time query is a contiguous slice of all logs. */
  lemma TimeQueryIsSlice(a: State, from: int64, to: int64) returns (lo: nat, hi: nat)
    requires Inv(a) && TimesFollowIds(a)
    ensures lo <= hi <= |Values(a.logs)|
    ensures QueryByTime(a.logs, a.byTime, from, to) == Values(a.logs)[lo..hi]
  {
    hide Values, QueryByTime, BE8, ToUint64, WrapInt64, Inv, InWindow;
    var vs, r := Values(a.logs), QueryByTime(a.logs, a.byTime, from, to);
    AllLogsById(a);
    TimeQueryAscendsById(a, from, to, r);
    TimesAscendAlong(a, vs);
    lo, hi := SliceOf(vs, r, from, to);
  }

  lemma TimesAscendAlong(a: State, vs: seq<AuditLog>)
    requires TimesFollowIds(a) && forall l :: l in vs ==> l in a.logs.Values
    requires forall i, j :: 0 <= i < j < |vs| ==> vs[i].id < vs[j].id
    ensures forall i, j :: 0 <= i < j < |vs| ==> ToUint64(vs[i].timestamp) <= ToUint64(vs[j].timestamp)
  {
    hide ToUint64;
    assert forall i :: 0 <= i < |vs| ==> vs[i] in a.logs.Values;
  }

  lemma IdOrder(a: State, l: AuditLog, m: AuditLog)
    requires TimesFollowIds(a) && Before(l, m)
    requires LogKey(l) in a.logs && a.logs[LogKey(l)] == l && LogKey(m) in a.logs && a.logs[LogKey(m)] == m
    ensures l.id < m.id
  {
    assert l in a.logs.Values && m in a.logs.Values;
    assert l.id == m.id ==> LogKey(l) == LogKey(m);
  }

  lemma WindowIsConvex(from: int64, to: int64)
    ensures forall t: int64 :: ToUint64(t) < ToUint64(from) ==> !InWindow(t, from, to)
    ensures forall t: int64, u: int64 ::
      ToUint64(from) <= ToUint64(t) <= ToUint64(u) && !InWindow(t, from, to) ==> !InWindow(u, from, to)
  {}

  /** Members of an ascending list inside a window that is convex along the list form a slice. */
  lemma {:induction false} SliceOf(vs: seq<AuditLog>, r: seq<AuditLog>, from: int64, to: int64)
      returns (lo: nat, hi: nat)
    requires forall i, j :: 0 <= i < j < |vs| ==> vs[i].id < vs[j].id
    requires forall i, j :: 0 <= i < j < |vs| ==> ToUint64(vs[i].timestamp) <= ToUint64(vs[j].timestamp)
    requires forall i, j :: 0 <= i < j < |r| ==> r[i].id < r[j].id
    requires forall l :: l in r <==> l in vs && InWindow(l.timestamp, from, to)
    ensures lo <= hi <= |vs| && r == vs[lo..hi]
  {
    WindowIsConvex(from, to);
    hide ToUint64, InWindow;
    lo := 0;
    while lo < |vs| && ToUint64(vs[lo].timestamp) < ToUint64(from)
      invariant lo <= |vs|
      invariant forall i :: 0 <= i < lo ==> !InWindow(vs[i].timestamp, from, to)
    {
      lo := lo + 1;
    }
    hi := lo;
    while hi < |vs| && InWindow(vs[hi].timestamp, from, to)
      invariant lo <= hi <= |vs|
      invariant forall i :: lo <= i < hi ==> InWindow(vs[i].timestamp, from, to)
    {
      hi := hi + 1;
    }
    forall i | hi <= i < |vs|
      ensures !InWindow(vs[i].timestamp, from, to)
    {
      assert ToUint64(from) <= ToUint64(vs[hi].timestamp) <= ToUint64(vs[i].timestamp);
    }
    SliceMembers(vs, r, from, to, lo, hi);
  }

  lemma SliceMembers(vs: seq<AuditLog>, r: seq<AuditLog>, from: int64, to: int64, lo: nat, hi: nat)
    requires forall i, j :: 0 <= i < j < |vs| ==> vs[i].id < vs[j].id
    requires forall i, j :: 0 <= i < j < |r| ==> r[i].id < r[j].id
    requires forall l :: l in r <==> l in vs && InWindow(l.timestamp, from, to)
    requires lo <= hi <= |vs|
    requires forall i :: 0 <= i < |vs| ==> (InWindow(vs[i].timestamp, from, to) <==> lo <= i < hi)
    ensures r == vs[lo..hi]
  {
    hide InWindow;
    var s := vs[lo..hi];
    assert forall l :: l in s ==> l in r;
    assert forall l :: l in r ==> l in s;
    AscendingIdsUnique(s, r);
  }

  lemma {:induction false} AscendingIdsUnique(s: seq<AuditLog>, r: seq<AuditLog>)
    requires forall i, j :: 0 <= i < j < |s| ==> s[i].id < s[j].id
    requires forall i, j :: 0 <= i < j < |r| ==> r[i].id < r[j].id
    requires forall l :: l in s <==> l in r
    ensures s == r
  {
    if s != [] {
      assert s[0] in s;
    }
    if r != [] {
      assert r[0] in r;
    }
    if s != [] {
      assert s[0] in r && r[0] in s;
      LaterIds(s);
      LaterIds(r);
      AscendingIdsUnique(s[1..], r[1..]);
      assert s == [s[0]] + s[1..] && r == [r[0]] + r[1..];
    }
  }

  lemma LaterIds(s: seq<AuditLog>)
    requires s != [] && forall i, j :: 0 <= i < j < |s| ==> s[i].id < s[j].id
    ensures forall l :: l in s[1..] <==> l in s && l != s[0]
  {
    assert s == [s[0]] + s[1..];
  }

  /** Block times that never decrease along a run make the stored times follow the ids. */
  ghost predicate TimesAscend(from: uint64, steps: seq<Step>) {
    && (forall i :: 0 <= i < |steps| ==> from <= ToUint64(steps[i].ctx.blockTime))
    && (forall i, j :: 0 <= i < j < |steps| ==> ToUint64(steps[i].ctx.blockTime) <= ToUint64(steps[j].ctx.blockTime))
  }

  ghost predicate TimesUpTo(a: State, t: uint64) {
    forall l :: l in a.logs.Values ==> ToUint64(l.timestamp) <= t
  }

  lemma {:induction false} RunTimesFollowIds(a: State, t: uint64, steps: seq<Step>)
    requires Inv(a) && Counter(a) + |steps| < TWO_64
    requires TimesFollowIds(a) && TimesUpTo(a, t) && TimesAscend(t, steps)
    ensures TimesFollowIds(Run(a, steps))
    decreases |steps|
  {
    hide Inv, Handle, ToUint64;
    if steps != [] {
      var (b, r) := Handle(a, steps[0].msg, steps[0].ctx);
      HandleKeeps(a, steps[0].msg, steps[0].ctx, b, r);
      var u := ToUint64(steps[0].ctx.blockTime);
      StepTimes(a, t, steps[0], b, u);
      assert TimesAscend(u, steps[1..]);
      RunTimesFollowIds(b, u, steps[1..]);
    }
  }

  lemma StepTimes(a: State, t: uint64, step: Step, b: State, u: uint64)
    requires Inv(a) && Counter(a) < TWO_64 - 1 && b == Handle(a, step.msg, step.ctx).0
    requires TimesFollowIds(a) && TimesUpTo(a, t) && t <= u && u == ToUint64(step.ctx.blockTime)
    ensures TimesFollowIds(b) && TimesUpTo(b, u)
  {
    if b != a {
      AppendKeeps(a, step.msg, step.ctx);
      IdsBounded(a);
      var n := Counter(a) + 1;
      var l := LogFor(step.msg, step.ctx, n);
      hide Inv, BE8, ToUint64, Append;
      assert b.logs == a.logs[BE8(n) := l];
      forall m | m in b.logs.Values
        ensures m in a.logs.Values || m == l
      {
        var x :| x in b.logs && b.logs[x] == m;
        if x != BE8(n) {
          assert x in a.logs && a.logs[x] == m;
        }
      }
    }
  }

  lemma IdsBounded(a: State)
    requires Inv(a)
    ensures forall l :: l in a.logs.Values ==> l.id <= Counter(a)
  {
    forall l | l in a.logs.Values
      ensures l.id <= Counter(a)
    {
      var x :| x in a.logs && a.logs[x] == l;
      assert LogKey(l) == x;
    }
  }

  // ---------- time queries in reachable states ----------

  ghost predicate TimesNonNegative(a: State) {
    forall l :: l in a.logs.Values ==> 0 <= l.timestamp
  }

  lemma StepNonNegative(a: State, step: Step)
    requires TimesNonNegative(a) && 0 <= step.ctx.blockTime
    ensures TimesNonNegative(Handle(a, step.msg, step.ctx).0)
  {
    hide BE8;
    var b := Handle(a, step.msg, step.ctx).0;
    forall m | m in b.logs.Values
      ensures 0 <= m.timestamp
    {
      var x :| x in b.logs && b.logs[x] == m;
      assert x in a.logs && a.logs[x] == m ==> m in a.logs.Values;
    }
  }

  lemma {:induction false} RunNonNegative(a: State, steps: seq<Step>)
    requires TimesNonNegative(a) && forall i :: 0 <= i < |steps| ==> 0 <= steps[i].ctx.blockTime
    ensures TimesNonNegative(Run(a, steps))
    decreases |steps|
  {
    hide Handle, TimesNonNegative;
    if steps != [] {
      StepNonNegative(a, steps[0]);
      RunNonNegative(Handle(a, steps[0].msg, steps[0].ctx).0, steps[1..]);
    }
  }

  lemma TimeQueryHolds(a: State, from: int64, to: int64, r: seq<AuditLog>)
    requires Inv(a) && TimesNonNegative(a) && 0 <= from <= to && r == QueryByTime(a.logs, a.byTime, from, to)
    ensures forall l :: l in r <==> l in a.logs.Values && from <= l.timestamp <= to
  {
    TimeQueryIs(a.logs, a.byTime, from, to, r);
    WindowIsIntervalIff(from, to);
    hide BE8, QueryByTime, IndexAgrees, TimeAgrees, IdsAreOneToCounter, InWindow;
    assert forall l :: l in a.logs.Values <==> LogKey(l) in a.logs && a.logs[LogKey(l)] == l;
  }

  lemma BeforeIsAscending(l: AuditLog, m: AuditLog)
    requires Before(l, m) && 0 <= l.timestamp && 0 <= m.timestamp
    ensures l.timestamp < m.timestamp || (l.timestamp == m.timestamp && l.id < m.id)
  {}

  lemma TimeQueryAscends(a: State, from: int64, to: int64, r: seq<AuditLog>)
    requires Inv(a) && TimesNonNegative(a) && 0 <= from <= to && r == QueryByTime(a.logs, a.byTime, from, to)
    ensures forall i, j :: 0 <= i < j < |r| ==>
      r[i].timestamp < r[j].timestamp || (r[i].timestamp == r[j].timestamp && r[i].id < r[j].id)
  {
    TimeQueryHolds(a, from, to, r);
    TimeQueryIs(a.logs, a.byTime, from, to, r);
    hide *;
    forall i, j | 0 <= i < j < |r|
      ensures r[i].timestamp < r[j].timestamp || (r[i].timestamp == r[j].timestamp && r[i].id < r[j].id)
    {
      assert r[i] in r && r[j] in r;
      BeforeIsAscending(r[i], r[j]);
    }
  }

  /** Over all runs from an empty genesis with non-negative block times, and for all 0 <= from <= to
      including the largest 64-bit to: exactly the logs with from <= time <= to, by time and then id. */
  lemma ReachableTimeQuery(params: Params, steps: seq<Step>, a: State, from: int64, to: int64, r: seq<AuditLog>)
    requires |steps| < TWO_64 && a == Run(Genesis(params), steps)
    requires forall i :: 0 <= i < |steps| ==> 0 <= steps[i].ctx.blockTime
    requires 0 <= from <= to && r == QueryByTime(a.logs, a.byTime, from, to)
    ensures forall l :: l in r <==> l in a.logs.Values && from <= l.timestamp <= to
    ensures forall i, j :: 0 <= i < j < |r| ==>
      r[i].timestamp < r[j].timestamp || (r[i].timestamp == r[j].timestamp && r[i].id < r[j].id)
  {
    GenesisInv(params);
    RunKeeps(Genesis(params), steps);
    RunNonNegative(Genesis(params), steps);
    hide QueryByTime, Run, Inv, TimesNonNegative, Extends;
    TimeQueryHolds(a, from, to, r);
    TimeQueryAscends(a, from, to, r);
  }

  /** If, besides, block times never decrease, the query is a contiguous slice of all logs. */
  lemma ReachableTimeSlice(params: Params, steps: seq<Step>, a: State, from: int64, to: int64)
      returns (lo: nat, hi: nat)
    requires |steps| < TWO_64 && a == Run(Genesis(params), steps)
    requires forall i :: 0 <= i < |steps| ==> 0 <= steps[i].ctx.blockTime
    requires forall i, j :: 0 <= i < j < |steps| ==> steps[i].ctx.blockTime <= steps[j].ctx.blockTime
    ensures lo <= hi <= |Values(a.logs)|
    ensures QueryByTime(a.logs, a.byTime, from, to) == Values(a.logs)[lo..hi]
  {
    GenesisInv(params);
    RunKeeps(Genesis(params), steps);
    assert TimesAscend(0, steps);
    RunTimesFollowIds(Genesis(params), 0, steps);
    hide Values, QueryByTime, Inv, TimesFollowIds, Run;
    lo, hi := TimeQueryIsSlice(a, from, to);
  }
}
