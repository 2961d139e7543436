/** The oracle module as tables: the history of every category, the latest entry of each, the
    authorised oracles, and the steps of the message server. */
module Oracle {
  import opened ByteStrings
  import opened Scan

  datatype OracleData = OracleData(category: Bytes, value: Bytes, metadata: Bytes, timestamp: int64, submitter: Bytes,
    blockHeight: int64)

  datatype OracleInfo = OracleInfo(address: Bytes, name: Bytes, active: bool, authorizedCategories: seq<Bytes>)

  datatype Params = Params(minSubmissions: uint32, dataMaxAge: int64)

  const DEFAULT_PARAMS := Params(1, 3600)

  datatype GenesisState = GenesisState(oracles: seq<OracleInfo>, data: seq<OracleData>, params: Params)

  datatype Context = Context(blockHeight: int64, blockTime: int64)

  datatype Msg =
    | SubmitData(submitter: Bytes, category: Bytes, value: Bytes, metadata: Bytes, timestamp: int64)
    | AddOracle(authority: Bytes, oracleAddress: Bytes, name: Bytes, categories: seq<Bytes>)
    | RemoveOracle(authority: Bytes, oracleAddress: Bytes)

  datatype Response = Done | Unauthorized | TooFarInFuture | TooFarInPast | OracleNotFound

  /** history is keyed by category | 0x00 | timestamp(8). */
  datatype State = State(
    history: map<Bytes, OracleData>,
    oracles: map<Bytes, OracleInfo>,
    latest: map<Bytes, OracleData>,
    params: Option<Params>)

  const EMPTY := State(map[], map[], map[], None)

  function TimeKey(timestamp: int64): Bytes { BE8(ToUint64(timestamp)) }

  function HistKey(d: OracleData): Bytes { IndexEntry(d.category, TimeKey(d.timestamp)) }

  function PutData(a: State, d: OracleData): State {
    a.(history := a.history[HistKey(d) := d], latest := a.latest[d.category := d])
  }

  function ParamsOf(a: State): Params {
    if a.params.Some? then a.params.value else DEFAULT_PARAMS
  }

  // ---------- authorisation and the drift window ----------

  predicate IsAuthorizedFor(o: OracleInfo, category: Bytes) {
    o.active && (o.authorizedCategories == [] || category in o.authorizedCategories)
  }

  predicate IsAuthorized(a: State, address: Bytes, category: Bytes) {
    address in a.oracles && IsAuthorizedFor(a.oracles[address], category)
  }

  function MaxDrift(p: Params): int64 {
    if p.dataMaxAge <= 0 then 3600 else p.dataMaxAge
  }

  /** The two comparisons of the handler, with 64-bit sums. */
  function DriftCheck(p: Params, now: int64, t: int64): Response {
    if t > WrapInt64(now + MaxDrift(p)) then TooFarInFuture
    else if t < WrapInt64(now - MaxDrift(p)) then TooFarInPast
    else Done
  }

  /** A non-negative time is accepted exactly when it lies within the drift of the block time and the
      upper end of the window fits in 63 bits; beyond that the sum wraps and everything is refused. */
  lemma DriftCheckIff(p: Params, now: int64, t: int64)
    requires 0 <= now && 0 <= t
    ensures DriftCheck(p, now, t).Done? <==>
              now - MaxDrift(p) <= t <= now + MaxDrift(p) && now + MaxDrift(p) < TWO_63
  {
    var hi, lo := now + MaxDrift(p), now - MaxDrift(p);
    assert WrapInt64(hi) == if hi < TWO_63 then hi else hi - TWO_64;
    assert WrapInt64(lo) == lo;
  }

  function Handle(authority: Bytes, a: State, msg: Msg, ctx: Context): (State, Response) {
    match msg
    case SubmitData(submitter, category, value, metadata, t) =>
      if !IsAuthorized(a, submitter, category) then (a, Unauthorized)
      else
        var check := DriftCheck(ParamsOf(a), ctx.blockTime, t);
        if !check.Done? then (a, check)
        else (PutData(a, OracleData(category, value, metadata, t, submitter, ctx.blockHeight)), Done)
    case AddOracle(auth, address, name, categories) =>
      if auth != authority then (a, Unauthorized)
      else (a.(oracles := a.oracles[address := OracleInfo(address, name, true, categories)]), Done)
    case RemoveOracle(auth, address) =>
      if auth != authority then (a, Unauthorized)
      else if address !in a.oracles then (a, OracleNotFound)
      else (a.(oracles := a.oracles - {address}), Done)
  }

  datatype Step = Step(msg: Msg, ctx: Context)

  function Run(authority: Bytes, a: State, steps: seq<Step>): State
    decreases |steps|
  {
    if steps == [] then a else Run(authority, Handle(authority, a, steps[0].msg, steps[0].ctx).0, steps[1..])
  }

  // ---------- coherence of latest and history ----------

  lemma HistKeyInjective(d: OracleData, e: OracleData)
    requires HistKey(d) == HistKey(e)
    ensures d.category == e.category && d.timestamp == e.timestamp
  {
    SameLengthSameName(d.category, TimeKey(d.timestamp), e.category, TimeKey(e.timestamp));
    BE8Order(ToUint64(d.timestamp), ToUint64(e.timestamp));
  }

  /** The latest entry of a category is the history entry at its own time, and every category with
      history has a latest entry. */
  ghost predicate Coherent(a: State) {
    && (forall c :: c in a.latest ==>
         a.latest[c].category == c && HistKey(a.latest[c]) in a.history &&
           a.history[HistKey(a.latest[c])] == a.latest[c])
    && (forall x :: x in a.history ==> HistKey(a.history[x]) == x && a.history[x].category in a.latest)
  }

  ghost predicate Inv(a: State) {
    Coherent(a) && forall x :: x in a.oracles ==> a.oracles[x].address == x
  }

  lemma PutDataCoherent(a: State, d: OracleData)
    requires Coherent(a)
    ensures Coherent(PutData(a, d))
  {
    hide HistKey;
    var b := PutData(a, d);
    forall c | c in b.latest
      ensures b.latest[c].category == c && HistKey(b.latest[c]) in b.history &&
        b.history[HistKey(b.latest[c])] == b.latest[c]
    {
      if c != d.category && HistKey(a.latest[c]) == HistKey(d) {
        HistKeyInjective(a.latest[c], d);
      }
    }
  }

  /** Coherence holds in every reachable state, and a refused message changes nothing. */
  lemma HandleKeeps(authority: Bytes, a: State, msg: Msg, ctx: Context, b: State, r: Response)
    requires Inv(a) && (b, r) == Handle(authority, a, msg, ctx)
    ensures Inv(b) && b.params == a.params
    ensures !r.Done? ==> b == a
    ensures msg.SubmitData? && r.Done? ==>
      && IsAuthorized(a, msg.submitter, msg.category)
      && msg.category in b.latest && b.latest[msg.category].value == msg.value
      && b.latest[msg.category].timestamp == msg.timestamp && b.latest[msg.category].submitter == msg.submitter
    ensures forall c :: c in a.latest && !(msg.SubmitData? && c == msg.category) ==>
      c in b.latest && b.latest[c] == a.latest[c]
    ensures forall x :: !(msg.SubmitData? && x == IndexEntry(msg.category, TimeKey(msg.timestamp))) ==>
      (x in b.history <==> x in a.history) && (x in b.history ==> b.history[x] == a.history[x])
    ensures r.Done? && !msg.SubmitData? ==> msg.authority == authority
    ensures forall x :: !(!msg.SubmitData? && x == msg.oracleAddress) ==>
      (x in b.oracles <==> x in a.oracles) && (x in b.oracles ==> b.oracles[x] == a.oracles[x])
    ensures r.Done? && msg.AddOracle? ==>
      msg.oracleAddress in b.oracles && b.oracles[msg.oracleAddress].active &&
      b.oracles[msg.oracleAddress].authorizedCategories == msg.categories
    ensures r.Done? && msg.RemoveOracle? ==> msg.oracleAddress in a.oracles && msg.oracleAddress !in b.oracles
  {
    hide Coherent, DriftCheck, IndexEntry, TimeKey;
    if msg.SubmitData? && r.Done? {
      var d := OracleData(msg.category, msg.value, msg.metadata, msg.timestamp, msg.submitter, ctx.blockHeight);
      assert HistKey(d) == IndexEntry(msg.category, TimeKey(msg.timestamp));
      PutDataCoherent(a, d);
    } else if r.Done? {
      OraclesOnly(a, b);
    }
  }

  /** Data is accepted exactly from a registered, active oracle that lists the category or lists none,
      with a time within dataMaxAge seconds of the block time, or 3600 when that is not positive or
      there are no parameters. */
  lemma SubmissionAcceptedIff(authority: Bytes, a: State, msg: Msg, ctx: Context)
    requires msg.SubmitData? && 0 <= ctx.blockTime && 0 <= msg.timestamp
    ensures var drift := if a.params.Some? && a.params.value.dataMaxAge > 0 then a.params.value.dataMaxAge else 3600;
      var r, o := Handle(authority, a, msg, ctx).1, MapLookup(a.oracles)(msg.submitter);
      && (r == Unauthorized <==>
           || o.None? || !o.value.active
           || (o.value.authorizedCategories != [] && msg.category !in o.value.authorizedCategories))
      && (r == Done <==>
           r != Unauthorized &&
           -drift <= msg.timestamp - ctx.blockTime <= drift && ctx.blockTime + drift < TWO_63)
  {
    DriftCheckIff(ParamsOf(a), ctx.blockTime, msg.timestamp);
    hide DriftCheck;
  }

  /** The stored entry carries every field of the message, and the block height. */
  lemma SubmittedIs(authority: Bytes, a: State, msg: Msg, ctx: Context, b: State)
    requires msg.SubmitData? && (b, Done) == Handle(authority, a, msg, ctx)
    ensures var d := OracleData(msg.category, msg.value, msg.metadata, msg.timestamp, msg.submitter, ctx.blockHeight);
      && msg.category in b.latest && b.latest[msg.category] == d
      && HistKey(d) in b.history && b.history[HistKey(d)] == d
  {
    hide DriftCheck, HistKey;
  }

  /** The authority adds any oracle, active, and removes any registered one; nobody else does. */
  lemma OraclesAreManaged(authority: Bytes, a: State, msg: Msg, ctx: Context, b: State, r: Response)
    requires !msg.SubmitData? && (b, r) == Handle(authority, a, msg, ctx)
    ensures r == Unauthorized <==> msg.authority != authority
    ensures msg.AddOracle? && msg.authority == authority ==>
      r == Done && b.oracles ==
        a.oracles[msg.oracleAddress := OracleInfo(msg.oracleAddress, msg.name, true, msg.categories)]
    ensures msg.RemoveOracle? && msg.authority == authority ==>
      && (r == Done <==> msg.oracleAddress in a.oracles) && (r == OracleNotFound <==> msg.oracleAddress !in a.oracles)
      && b.oracles == a.oracles - {msg.oracleAddress}
  {
    hide DriftCheck, HistKey;
    if msg.RemoveOracle? && msg.oracleAddress !in a.oracles {
      assert a.oracles - {msg.oracleAddress} == a.oracles;
    }
  }

  lemma OraclesOnly(a: State, b: State)
    requires Coherent(a) && b.history == a.history && b.latest == a.latest
    ensures Coherent(b)
  {}

  lemma {:induction false} RunKeeps(authority: Bytes, a: State, steps: seq<Step>)
    requires Inv(a)
    ensures Inv(Run(authority, a, steps))
    decreases |steps|
  {
    hide Inv, Handle;
    if steps != [] {
      var (b, r) := Handle(authority, a, steps[0].msg, steps[0].ctx);
      HandleKeeps(authority, a, steps[0].msg, steps[0].ctx, b, r);
      RunKeeps(authority, b, steps[1..]);
    }
  }

  /** In every state reachable from a genesis with parameters only, the latest entry of a category is
      its history entry at that time. */
  lemma ReachableIsCoherent(authority: Bytes, params: Params, steps: seq<Step>, a: State, c: Bytes)
    requires a == Run(authority, EMPTY.(params := Some(params)), steps) && c in a.latest
    ensures a.latest[c].category == c
    ensures HistKey(a.latest[c]) in a.history && a.history[HistKey(a.latest[c])] == a.latest[c]
  {
    RunKeeps(authority, EMPTY.(params := Some(params)), steps);
  }

  // ---------- history queries ----------

  function HistWindow(history: map<Bytes, OracleData>, category: Bytes, from: int64, to: int64): set<Bytes> {
    Window(history.Keys, IndexEntry(category, TimeKey(from)), IndexEntry(category, TimeKey(WrapInt64(to + 1))))
  }

  function QueryHistory(history: map<Bytes, OracleData>, category: Bytes, from: int64, to: int64): seq<OracleData> {
    Collect(SortedKeys(HistWindow(history, category, from, to)), MapLookup(history))
  }

  function InRange(category: Bytes, from: int64, to: int64): OracleData -> bool {
    (d: OracleData) => d.category == category && InWindow(d.timestamp, from, to)
  }

  ghost predicate Keyed(history: map<Bytes, OracleData>) {
    forall x :: x in history ==> HistKey(history[x]) == x
  }

  /** A stored entry of another category whose key falls between the bounds of a query. Either its
      category is the queried one, a NUL and more, and the eight bytes after the NUL read as a time in
      the window; or the queried category ends inside the stored time, right before a zero byte, and
      the remaining bytes, filled up with zeros, read as a time just above the lower bound up to the
      upper bound. */
  ghost predicate FallsBetween(d: OracleData, category: Bytes, from: int64, to: int64) {
    var lo, hi := ToUint64(from), ToUint64(WrapInt64(to + 1));
    if |d.category| > |category| then
      category + [0x00] <= d.category &&
      lo <= FromBE8(d.category[|category| + 1..] + [0x00] + TimeKey(d.timestamp)) < hi
    else
      && |d.category| < |category| && category + [0x00] <= HistKey(d)
      && lo < FromBE8(HistKey(d)[|category| + 1..] + Zeros(|category| - |d.category|)) <= hi
  }

  /** No entry of another category falls between the bounds. */
  ghost predicate NoForeignKey(history: map<Bytes, OracleData>, category: Bytes, from: int64, to: int64) {
    forall x :: x in history && history[x].category != category ==> !FallsBetween(history[x], category, from, to)
  }

  lemma LongReads(rest: Bytes, v: uint64)
    requires |rest| >= 8
    ensures Less(rest, BE8(v)) <==> FromBE8(rest) < v
  {
    LessByStart(rest, BE8(v));
    assert rest[..8][..8] == rest[..8];
    FromBE8RoundTrip(rest[..8]);
    BE8Order(FromBE8(rest), v);
    hide BE8, Less;
  }

  lemma ShortReads(rest: Bytes, v: uint64)
    requires |rest| < 8
    ensures Less(rest, BE8(v)) <==> FromBE8(rest + Zeros(8 - |rest|)) <= v
  {
    hide BE8, FromBE8, Less, Zeros;
    var w := rest + Zeros(8 - |rest|);
    LessPadded(rest, BE8(v));
    FromBE8RoundTrip(w);
    BE8Order(v, FromBE8(w));
  }

  predicate BetweenKeys(k: Bytes, category: Bytes, from: int64, to: int64) {
    !Less(k, IndexEntry(category, TimeKey(from))) && Less(k, IndexEntry(category, TimeKey(WrapInt64(to + 1))))
  }

  lemma BetweenMeansRest(k: Bytes, category: Bytes, from: int64, to: int64)
    ensures BetweenKeys(k, category, from, to) ==> category + [0x00] <= k
    ensures category + [0x00] <= k ==>
      (BetweenKeys(k, category, from, to) <==>
        !Less(k[|category| + 1..], TimeKey(from)) && Less(k[|category| + 1..], TimeKey(WrapInt64(to + 1))))
  {
    var p := category + [0x00];
    hide TimeKey, WrapInt64, Less;
    if BetweenKeys(k, category, from, to) {
      BetweenSharesPrefix(p, TimeKey(from), TimeKey(WrapInt64(to + 1)), k);
    }
    if p <= k {
      PrefixSplits(p, k);
      LessPrepend(p, k[|p|..], TimeKey(from));
      LessPrepend(p, k[|p|..], TimeKey(WrapInt64(to + 1)));
    }
  }

  lemma LongerCategory(d: OracleData, category: Bytes)
    requires |d.category| > |category|
    ensures category + [0x00] <= HistKey(d) <==> category + [0x00] <= d.category
    ensures category + [0x00] <= HistKey(d) ==>
      HistKey(d)[|category| + 1..] == d.category[|category| + 1..] + [0x00] + TimeKey(d.timestamp)
  {
    hide TimeKey;
    assert HistKey(d)[..|category| + 1] == d.category[..|category| + 1];
  }

  /** The two cases are exactly when a foreign key lies between the bounds. */
  lemma FallsBetweenIff(d: OracleData, category: Bytes, from: int64, to: int64)
    requires d.category != category
    ensures BetweenKeys(HistKey(d), category, from, to) <==> FallsBetween(d, category, from, to)
  {
    var k := HistKey(d);
    var lo, hi := ToUint64(from), ToUint64(WrapInt64(to + 1));
    BetweenMeansRest(k, category, from, to);
    if category + [0x00] <= k {
      PrefixSplits(category + [0x00], k);
      var rest := k[|category| + 1..];
      if |d.category| > |category| {
        LongerCategory(d, category);
        LongReads(rest, lo);
        LongReads(rest, hi);
      } else if |d.category| < |category| {
        ShortReads(rest, lo);
        ShortReads(rest, hi);
      } else {
        SameLengthSameName(d.category, TimeKey(d.timestamp), category, rest);
        assert false;
      }
    } else if |d.category| > |category| {
      LongerCategory(d, category);
    }
  }

  lemma EntryOrder(category: Bytes, t: int64, u: int64)
    ensures Less(IndexEntry(category, TimeKey(t)), IndexEntry(category, TimeKey(u))) <==> ToUint64(t) < ToUint64(u)
  {
    LessPrepend(category + [0x00], TimeKey(t), TimeKey(u));
    BE8Order(ToUint64(t), ToUint64(u));
  }

  lemma OwnKeyInWindow(history: map<Bytes, OracleData>, x: Bytes, category: Bytes, from: int64, to: int64)
    requires Keyed(history) && x in history && history[x].category == category
    ensures x in HistWindow(history, category, from, to) <==> InWindow(history[x].timestamp, from, to)
  {
    EntryOrder(category, history[x].timestamp, from);
    EntryOrder(category, history[x].timestamp, WrapInt64(to + 1));
    hide IndexEntry, TimeKey, ToUint64, WrapInt64, Less;
    assert x == IndexEntry(category, TimeKey(history[x].timestamp));
  }

  lemma HistorySoundIff(history: map<Bytes, OracleData>, category: Bytes, from: int64, to: int64)
    requires Keyed(history)
    ensures NoForeignKey(history, category, from, to)
       <==> forall x :: x in HistWindow(history, category, from, to) ==> history[x].category == category
  {
    hide FallsBetween, HistKey;
    forall x | x in history && history[x].category != category
      ensures x in HistWindow(history, category, from, to) <==> FallsBetween(history[x], category, from, to)
    {
      FallsBetweenIff(history[x], category, from, to);
    }
  }

  /** The history query returns exactly the entries of the category in the window, ascending, exactly
      when no entry of another category falls between the bounds. */
  lemma HistoryQueryExactIff(history: map<Bytes, OracleData>, category: Bytes, from: int64, to: int64)
    requires Keyed(history)
    ensures QueryHistory(history, category, from, to) == Filter(Values(history), InRange(category, from, to))
       <==> NoForeignKey(history, category, from, to)
  {
    var window, p := HistWindow(history, category, from, to), InRange(category, from, to);
    HistorySoundIff(history, category, from, to);
    hide HistWindow, InWindow, HistKey, NoForeignKey;
    forall x | x in history && history[x].category == category
      ensures x in window <==> InWindow(history[x].timestamp, from, to)
    {
      OwnKeyInWindow(history, x, category, from, to);
    }
    WindowIsSubset(history, category, from, to);
    assert ScanIsComplete(history.Keys, MapLookup(history), window, MapLookup(history), p);
    assert ScanIsSound(history.Keys, MapLookup(history), window, MapLookup(history), p) <==>
      NoForeignKey(history, category, from, to);
    ScanExactIff(history.Keys, MapLookup(history), window, MapLookup(history), p);
  }

  lemma WindowIsSubset(history: map<Bytes, OracleData>, category: Bytes, from: int64, to: int64)
    ensures HistWindow(history, category, from, to) <= history.Keys
  {}

  /** NUL-free categories never leak into one another, even when one is a prefix of the other. */
  lemma NulFreeCategoriesAreExact(history: map<Bytes, OracleData>, category: Bytes, from: int64, to: int64)
    requires Keyed(history) && NulFree(category) && forall x :: x in history ==> NulFree(history[x].category)
    ensures QueryHistory(history, category, from, to) == Filter(Values(history), InRange(category, from, to))
  {
    HistoryQueryExactIff(history, category, from, to);
    HistorySoundIff(history, category, from, to);
    forall x | x in HistWindow(history, category, from, to)
      ensures history[x].category == category
    {
      KeyInWindowSharesCategory(history, x, category, from, to);
    }
  }

  lemma KeyInWindowSharesCategory(history: map<Bytes, OracleData>, x: Bytes, category: Bytes, from: int64, to: int64)
    requires Keyed(history) && x in HistWindow(history, category, from, to)
    requires NulFree(category) && NulFree(history[x].category)
    ensures history[x].category == category
  {
    var p := category + [0x00];
    BetweenSharesPrefix(p, TimeKey(from), TimeKey(WrapInt64(to + 1)), x);
    PrefixSplits(p, x);
    FirstNul(history[x].category, TimeKey(history[x].timestamp), category, x[|p|..]);
  }

  lemma LeakedKey(history: map<Bytes, OracleData>, d: OracleData, category: Bytes, t: int64, from: int64, to: int64)
    requires HistKey(d) in history && d.category == IndexEntry(category, TimeKey(t)) && InWindow(t, from, to)
    ensures HistKey(d) in HistWindow(history, category, from, to) && d.category != category
  {
    var x, rest := HistKey(d), [0x00] + TimeKey(d.timestamp);
    assert x == category + [0x00] + (TimeKey(t) + rest);
    assert |d.category| > |category|;
    hide TimeKey, HistKey, IndexEntry;
    ExtendedKey(category, t, rest, from);
    ExtendedKey(category, t, rest, WrapInt64(to + 1));
  }

  /** The condition is needed: an entry whose category is c, a NUL and a time key in the window is
      returned by the query for c. */
  lemma NulCategoryLeaks(history: map<Bytes, OracleData>, d: OracleData, category: Bytes, t: int64, from: int64,
      to: int64)
    requires Keyed(history) && HistKey(d) in history && history[HistKey(d)] == d
    requires d.category == IndexEntry(category, TimeKey(t)) && InWindow(t, from, to)
    ensures QueryHistory(history, category, from, to) != Filter(Values(history), InRange(category, from, to))
  {
    HistoryQueryExactIff(history, category, from, to);
    HistorySoundIff(history, category, from, to);
    LeakedKey(history, d, category, t, from, to);
  }

  lemma ExtendedKey(category: Bytes, t: int64, rest: Bytes, u: int64)
    ensures Less(category + [0x00] + (TimeKey(t) + rest), IndexEntry(category, TimeKey(u))) <==>
      ToUint64(t) < ToUint64(u)
  {
    LessPrepend(category + [0x00], TimeKey(t) + rest, TimeKey(u));
    assert TimeKey(u) + [] == TimeKey(u);
    LessConcat(TimeKey(t), rest, TimeKey(u), []);
    BE8Order(ToUint64(t), ToUint64(u));
  }

  /** For NUL-free categories, non-negative times and 0 <= from <= to, the largest to included: the
      history query returns exactly the category's entries with from <= time <= to. */
  lemma HistoryQueryIs(history: map<Bytes, OracleData>, category: Bytes, from: int64, to: int64, r: seq<OracleData>)
    requires Keyed(history) && NulFree(category) && r == QueryHistory(history, category, from, to)
    requires forall x :: x in history ==> NulFree(history[x].category) && 0 <= history[x].timestamp
    requires 0 <= from <= to
    ensures forall d :: d in r <==>
      HistKey(d) in history && history[HistKey(d)] == d && d.category == category && from <= d.timestamp <= to
  {
    NulFreeCategoriesAreExact(history, category, from, to);
    EntriesAre(history);
    hide HistKey, InWindow, QueryHistory, NulFree, Values, Keyed, WrapInt64, InRange;
    forall d | HistKey(d) in history && history[HistKey(d)] == d
      ensures InRange(category, from, to)(d) <==> d.category == category && from <= d.timestamp <= to
    {
      InRangeIs(d, category, from, to);
    }
  }

  lemma InRangeIs(d: OracleData, category: Bytes, from: int64, to: int64)
    requires 0 <= from <= to && 0 <= d.timestamp
    ensures InRange(category, from, to)(d) <==> d.category == category && from <= d.timestamp <= to
  {
    WindowIsIntervalIff(from, to);
  }

  lemma EntriesAre(history: map<Bytes, OracleData>)
    requires Keyed(history)
    ensures forall d :: d in Values(history) <==> HistKey(d) in history && history[HistKey(d)] == d
  {
    hide HistKey, Values;
    ValuesAre(history);
    forall d | HistKey(d) in history && history[HistKey(d)] == d
      ensures d in Values(history)
    {
      var i := RowOf(history, HistKey(d));
    }
  }

  /** The entries of one category come in ascending time, one for each time. */
  lemma HistoryAscends(history: map<Bytes, OracleData>, category: Bytes, from: int64, to: int64, r: seq<OracleData>)
    requires Keyed(history) && r == QueryHistory(history, category, from, to)
    ensures forall i, j :: 0 <= i < j < |r| && r[i].category == r[j].category ==>
      ToUint64(r[i].timestamp) < ToUint64(r[j].timestamp)
  {
    var keys := SortedKeys(HistWindow(history, category, from, to));
    CollectAllFound(keys, MapLookup(history));
    forall i | 0 <= i < |keys|
      ensures keys[i] == HistKey(r[i])
    {
      assert keys[i] in keys;
    }
    hide IndexEntry, TimeKey, ToUint64, WrapInt64, Collect, SortedKeys, HistWindow;
    forall i, j | 0 <= i < j < |r| && r[i].category == r[j].category
      ensures ToUint64(r[i].timestamp) < ToUint64(r[j].timestamp)
    {
      assert Less(keys[i], keys[j]);
      EntryOrder(r[i].category, r[i].timestamp, r[j].timestamp);
    }
  }
}
