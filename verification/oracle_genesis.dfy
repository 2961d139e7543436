/** Genesis of the oracle module: validation, import and export, and which latest entries survive. */
module OracleGenesis {
  import opened ByteStrings
  import opened Scan
  import opened Oracle

  datatype GenesisError =
    | BadParams | EmptyAddress | DuplicateAddress | EmptyName | EmptyCategory | EmptyValue | BadTimestamp

  ghost predicate ValidGenesis(gs: GenesisState) {
    && gs.params.minSubmissions != 0 && gs.params.dataMaxAge > 0
    && (forall i :: 0 <= i < |gs.oracles| ==> gs.oracles[i].address != [] && gs.oracles[i].name != [])
    && (forall i, j :: 0 <= i < j < |gs.oracles| ==> gs.oracles[i].address != gs.oracles[j].address)
    && (forall i :: 0 <= i < |gs.data| ==>
        gs.data[i].category != [] && gs.data[i].value != [] && gs.data[i].timestamp > 0)
  }

  method Validate(gs: GenesisState) returns (err: Option<GenesisError>)
    ensures err.None? <==> ValidGenesis(gs)
  {
    if gs.params.minSubmissions == 0 || gs.params.dataMaxAge <= 0 {
      return Some(BadParams);
    }
    var seen: set<Bytes> := {};
    for i := 0 to |gs.oracles|
      invariant forall x :: x in seen <==> exists j :: 0 <= j < i && gs.oracles[j].address == x
      invariant forall j :: 0 <= j < i ==> gs.oracles[j].address != [] && gs.oracles[j].name != []
      invariant forall j, k :: 0 <= j < k < i ==> gs.oracles[j].address != gs.oracles[k].address
    {
      var o := gs.oracles[i];
      if o.address == [] {
        return Some(EmptyAddress);
      }
      if o.address in seen {
        return Some(DuplicateAddress);
      }
      seen := seen + {o.address};
      if o.name == [] {
        return Some(EmptyName);
      }
    }
    for i := 0 to |gs.data|
      invariant forall j :: 0 <= j < i ==>
        gs.data[j].category != [] && gs.data[j].value != [] && gs.data[j].timestamp > 0
    {
      var d := gs.data[i];
      if d.category == [] {
        return Some(EmptyCategory);
      }
      if d.value == [] {
        return Some(EmptyValue);
      }
      if d.timestamp <= 0 {
        return Some(BadTimestamp);
      }
    }
    err := None;
  }

  function AddressOf(o: OracleInfo): Bytes { o.address }

  function PutOracle(a: State, o: OracleInfo): State {
    a.(oracles := a.oracles[o.address := o])
  }

  function PutAllOracles(a: State, os: seq<OracleInfo>): State {
    if os == [] then a else PutOracle(PutAllOracles(a, os[..|os| - 1]), os[|os| - 1])
  }

  function PutAllData(a: State, ds: seq<OracleData>): State {
    if ds == [] then a else PutData(PutAllData(a, ds[..|ds| - 1]), ds[|ds| - 1])
  }

  function Import(a: State, gs: GenesisState): State {
    PutAllData(PutAllOracles(a.(params := Some(gs.params)), gs.oracles), gs.data)
  }

  function Export(a: State): GenesisState {
    GenesisState(Values(a.oracles), Values(a.history), ParamsOf(a))
  }

  lemma {:induction false} PutAllOraclesIs(a: State, os: seq<OracleInfo>)
    requires a.oracles == map[]
    ensures PutAllOracles(a, os) == a.(oracles := Rebuild(os, AddressOf))
  {
    if os != [] {
      PutAllOraclesIs(a, os[..|os| - 1]);
    }
  }

  /** d is the last row of its category. */
  ghost predicate LastOfCategory(ds: seq<OracleData>, c: Bytes, d: OracleData) {
    exists i :: 0 <= i < |ds| && ds[i] == d && d.category == c && forall j :: i < j < |ds| ==> ds[j].category != c
  }

  lemma LastStays(ds: seq<OracleData>, e: OracleData, c: Bytes, d: OracleData)
    requires LastOfCategory(ds, c, d) && e.category != c
    ensures LastOfCategory(ds + [e], c, d)
  {
    var all := ds + [e];
    var i :| 0 <= i < |ds| && ds[i] == d && d.category == c && forall j :: i < j < |ds| ==> ds[j].category != c;
    assert all[i] == d && forall j :: i < j < |all| ==> all[j].category != c;
  }

  /** Import rebuilds the history and leaves, as latest of each category, its last row. */
  lemma {:induction false} PutAllDataIs(a: State, ds: seq<OracleData>, b: State)
    requires a.history == map[] && a.latest == map[] && b == PutAllData(a, ds)
    ensures b.history == Rebuild(ds, HistKey) && b.oracles == a.oracles && b.params == a.params
    ensures forall c :: c in b.latest <==> exists i :: 0 <= i < |ds| && ds[i].category == c
    ensures forall c :: c in b.latest ==> LastOfCategory(ds, c, b.latest[c])
  {
    hide HistKey;
    if ds != [] {
      var n := |ds| - 1;
      var prev, d := PutAllData(a, ds[..n]), ds[n];
      PutAllDataIs(a, ds[..n], prev);
      assert ds == ds[..n] + [d];
      forall c | c in b.latest
        ensures LastOfCategory(ds, c, b.latest[c])
      {
        if c == d.category {
          assert ds[n] == b.latest[c];
        } else {
          LastStays(ds[..n], d, c, b.latest[c]);
        }
      }
    }
  }

  /** d has the greatest time of its category. */
  ghost predicate IsNewest(history: map<Bytes, OracleData>, d: OracleData) {
    forall x :: x in history && history[x].category == d.category ==>
      ToUint64(history[x].timestamp) <= ToUint64(d.timestamp)
  }

  /** In key order, the last row of a category is its newest. */
  lemma LastIsNewest(history: map<Bytes, OracleData>, c: Bytes, d: OracleData)
    requires Keyed(history) && LastOfCategory(Values(history), c, d)
    ensures HistKey(d) in history && history[HistKey(d)] == d && d.category == c && IsNewest(history, d)
  {
    hide HistKey, SortedKeys, Values, ToUint64;
    var keys, ds := SortedKeys(history.Keys), Values(history);
    ValuesAre(history);
    var i :| 0 <= i < |ds| && ds[i] == d && d.category == c && forall j :: i < j < |ds| ==> ds[j].category != c;
    assert keys[i] == HistKey(d);
    forall x | x in history && history[x].category == c
      ensures ToUint64(history[x].timestamp) <= ToUint64(d.timestamp)
    {
      var j := RowOf(history, x);
      assert j <= i;
      if j < i {
        assert Less(keys[j], keys[i]);
        KeyOrder(history[x], d);
      }
    }
  }

  lemma KeyOrder(d: OracleData, e: OracleData)
    requires Less(HistKey(d), HistKey(e)) && d.category == e.category
    ensures ToUint64(d.timestamp) < ToUint64(e.timestamp)
  {
    EntryOrder(d.category, d.timestamp, e.timestamp);
  }

  lemma NewestUnique(history: map<Bytes, OracleData>, d: OracleData, e: OracleData)
    requires HistKey(d) in history && history[HistKey(d)] == d && IsNewest(history, d)
    requires HistKey(e) in history && history[HistKey(e)] == e && IsNewest(history, e)
    requires d.category == e.category
    ensures d == e
  {
    assert ToUint64(d.timestamp) == ToUint64(e.timestamp);
    assert HistKey(d) == HistKey(e);
  }

  /** Export then import of a reachable state keeps the history, the oracles and the parameters; the
      latest entry of each category becomes the newest of its history. */
  lemma RoundTrip(a: State, b: State)
    requires Inv(a) && a.params.Some? && b == Import(EMPTY, Export(a))
    ensures b.history == a.history && b.oracles == a.oracles && b.params == a.params
    ensures b.latest.Keys == a.latest.Keys
    ensures forall c :: c in a.latest ==>
      b.latest[c].category == c && HistKey(b.latest[c]) in a.history &&
        a.history[HistKey(b.latest[c])] == b.latest[c] && IsNewest(a.history, b.latest[c])
  {
    hide HistKey, IsNewest, LastOfCategory, Rebuild, Values, PutAllOracles, PutAllData;
    var start := EMPTY.(params := a.params);
    var ds := Values(a.history);
    PutAllOraclesIs(start, Values(a.oracles));
    RebuildValues(a.oracles, AddressOf);
    RebuildValues(a.history, HistKey);
    PutAllDataIs(PutAllOracles(start, Values(a.oracles)), ds, b);
    SameCategories(a, b);
    forall c | c in b.latest
      ensures b.latest[c].category == c && HistKey(b.latest[c]) in a.history &&
        a.history[HistKey(b.latest[c])] == b.latest[c] && IsNewest(a.history, b.latest[c])
    {
      LastIsNewest(a.history, c, b.latest[c]);
    }
  }

  lemma SameCategories(a: State, b: State)
    requires Inv(a)
    requires forall c :: c in b.latest <==>
      exists i :: 0 <= i < |Values(a.history)| && Values(a.history)[i].category == c
    ensures b.latest.Keys == a.latest.Keys
  {
    hide HistKey, SortedKeys, Values;
    forall c | c in a.latest
      ensures c in b.latest
    {
      var i := RowOf(a.history, HistKey(a.latest[c]));
      assert Values(a.history)[i].category == c;
    }
    forall c | c in b.latest
      ensures c in a.latest
    {
      ValuesAre(a.history);
    }
  }

  /** A latest entry survives the round trip exactly when it already was the newest of its category. */
  lemma LatestSurvivesIff(a: State, b: State, c: Bytes)
    requires Inv(a) && a.params.Some? && b == Import(EMPTY, Export(a)) && c in a.latest
    ensures c in b.latest
    ensures b.latest[c] == a.latest[c] <==> IsNewest(a.history, a.latest[c])
  {
    hide HistKey, IsNewest, Import, Export;
    RoundTrip(a, b);
    if IsNewest(a.history, a.latest[c]) {
      NewestUnique(a.history, a.latest[c], b.latest[c]);
    }
  }

  /** Accepted data that is older than some stored entry of its category becomes the latest entry, and
      is no longer after an export and an import. */
  lemma OlderSubmissionIsLost(authority: Bytes, a: State, msg: Msg, ctx: Context, x: Bytes, b: State, c: State)
    requires Inv(a) && a.params.Some? && msg.SubmitData? && Handle(authority, a, msg, ctx) == (b, Done)
    requires x in a.history && a.history[x].category == msg.category
    requires ToUint64(msg.timestamp) < ToUint64(a.history[x].timestamp) && c == Import(EMPTY, Export(b))
    ensures msg.category in b.latest && msg.category in c.latest
    ensures b.latest[msg.category].timestamp == msg.timestamp && c.latest[msg.category] != b.latest[msg.category]
  {
    HandleKeeps(authority, a, msg, ctx, b, Done);
    assert x != IndexEntry(msg.category, TimeKey(msg.timestamp)) by {
      assert HistKey(a.history[x]) == x;
      if x == IndexEntry(msg.category, TimeKey(msg.timestamp)) {
        SameLengthSameName(msg.category, TimeKey(msg.timestamp), msg.category, TimeKey(a.history[x].timestamp));
        BE8Order(ToUint64(msg.timestamp), ToUint64(a.history[x].timestamp));
      }
    }
    hide HistKey, IndexEntry, TimeKey, Handle, Import, Export, ToUint64;
    assert x in b.history && b.history[x] == a.history[x];
    LatestSurvivesIff(b, c, msg.category);
    assert b.latest[msg.category].category == msg.category;
  }
}
