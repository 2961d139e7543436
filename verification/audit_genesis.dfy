/** Genesis of the audit module: validation, import and export, and when imported logs are safe. */
module AuditGenesis {
  import opened ByteStrings
  import opened Scan
  import opened Audit
  import opened AuditRuns

  datatype GenesisError = BadParams | DuplicateId | EmptyActor | EmptyAction | EmptyType

  predicate Complete(l: AuditLog) {
    l.actor != [] && l.action != [] && l.eventType != []
  }

  /** What genesis validation demands. It does not relate the counter to the ids of the logs. */
  ghost predicate ValidGenesis(gs: GenesisState) {
    && gs.params.retentionBlocks >= 0 && gs.params.maxDataSize >= 0
    && (forall i :: 0 <= i < |gs.logs| ==> Complete(gs.logs[i]))
    && (forall i, j :: 0 <= i < j < |gs.logs| ==> gs.logs[i].id != gs.logs[j].id)
  }

  method Validate(gs: GenesisState) returns (err: Option<GenesisError>)
    ensures err.None? <==> ValidGenesis(gs)
  {
    if gs.params.retentionBlocks < 0 || gs.params.maxDataSize < 0 {
      return Some(BadParams);
    }
    var seen: set<uint64> := {};
    for i := 0 to |gs.logs|
      invariant forall n :: n in seen <==> exists j :: 0 <= j < i && gs.logs[j].id == n
      invariant forall j :: 0 <= j < i ==> Complete(gs.logs[j])
      invariant forall j, k :: 0 <= j < k < i ==> gs.logs[j].id != gs.logs[k].id
    {
      var l := gs.logs[i];
      if l.id in seen {
        return Some(DuplicateId);
      }
      seen := seen + {l.id};
      if l.actor == [] {
        return Some(EmptyActor);
      }
      if l.action == [] {
        return Some(EmptyAction);
      }
      if l.eventType == [] {
        return Some(EmptyType);
      }
    }
    err := None;
  }

  function PutAllLogs(a: State, ls: seq<AuditLog>): State {
    if ls == [] then a else PutLog(PutAllLogs(a, ls[..|ls| - 1]), ls[|ls| - 1])
  }

  /** InitGenesis: parameters, logs, and the counter when it is positive. */
  function Import(a: State, gs: GenesisState): State {
    var b := PutAllLogs(a.(params := Some(gs.params)), gs.logs);
    if gs.counter > 0 then b.(counter := Some(gs.counter)) else b
  }

  function Export(a: State): GenesisState {
    GenesisState(Values(a.logs), Counter(a), ParamsOf(a))
  }

  lemma {:induction false} PutAllLogsKeeps(a: State, ls: seq<AuditLog>, b: State)
    requires a.logs == map[] && Indexed(a) && DistinctKeys(ls, LogKey) && b == PutAllLogs(a, ls)
    ensures Indexed(b) && b.logs == Rebuild(ls, LogKey)
    ensures b.counter == a.counter && b.params == a.params
  {
    hide IndexAgrees, TimeAgrees, Keyed, LogKey, IndexEntry, TimeEntry;
    if ls != [] {
      var n := |ls| - 1;
      var prev := PutAllLogs(a, ls[..n]);
      PutAllLogsKeeps(a, ls[..n], prev);
      RebuildHasRows(ls[..n], LogKey);
      assert LogKey(ls[n]) !in prev.logs;
      PutLogIndexed(prev, ls[n]);
    }
  }

  lemma EmptyIndexed(a: State)
    requires a.logs == map[] && a.byActor == {} && a.byType == {} && a.byTime == {}
    ensures Indexed(a)
  {}

  lemma ValidIdsAreDistinctKeys(gs: GenesisState)
    requires ValidGenesis(gs)
    ensures DistinctKeys(gs.logs, LogKey)
  {
    forall i, j | 0 <= i < j < |gs.logs|
      ensures LogKey(gs.logs[i]) != LogKey(gs.logs[j])
    {
      BE8Order(gs.logs[i].id, gs.logs[j].id);
    }
  }

  lemma ImportTables(gs: GenesisState, a: State)
    requires DistinctKeys(gs.logs, LogKey) && a == Import(EMPTY, gs)
    ensures Indexed(a) && a.logs == Rebuild(gs.logs, LogKey)
    ensures a.params == Some(gs.params) && a.counter == if gs.counter > 0 then Some(gs.counter) else None
  {
    var start := EMPTY.(params := Some(gs.params));
    EmptyIndexed(start);
    var b := PutAllLogs(start, gs.logs);
    hide IndexAgrees, TimeAgrees, Keyed, LogKey, Rebuild, PutAllLogs;
    PutAllLogsKeeps(start, gs.logs, b);
  }

  /** A valid genesis is imported into agreeing tables that hold exactly its logs. */
  lemma ImportIsFaithful(gs: GenesisState, a: State)
    requires ValidGenesis(gs) && a == Import(EMPTY, gs)
    ensures Indexed(a) && a.params == Some(gs.params) && Counter(a) == gs.counter
    ensures forall x :: x in a.logs <==> exists i :: 0 <= i < |gs.logs| && LogKey(gs.logs[i]) == x
    ensures forall i :: 0 <= i < |gs.logs| ==> a.logs[LogKey(gs.logs[i])] == gs.logs[i]
  {
    ValidIdsAreDistinctKeys(gs);
    hide IndexAgrees, TimeAgrees, Keyed, LogKey, Rebuild, Import;
    ImportTables(gs, a);
    RebuildHasRows(gs.logs, LogKey);
  }

  /** Export and import restore a reachable state completely: every log, every index, the counter and
      the parameters, hence every query and the next id. */
  lemma RoundTrip(a: State)
    requires Inv(a) && a.params.Some?
    ensures Import(EMPTY, Export(a)) == a
  {
    hide IndexAgrees, TimeAgrees, Rebuild, Import, Values, LogKey, IdsAreOneToCounter;
    var gs := Export(a);
    ValuesDistinct(a.logs, LogKey);
    RebuildValues(a.logs, LogKey);
    var b := Import(EMPTY, gs);
    ImportTables(gs, b);
    IndexesUnique(a, b);
  }

  // ---------- imported logs and the counter ----------

  ghost predicate IdsUpToCounter(a: State) {
    forall n: uint64 :: BE8(n) in a.logs ==> n <= Counter(a)
  }

  lemma AppendExtends(a: State, msg: Msg, ctx: Context, b: State)
    requires IdsUpToCounter(a) && Counter(a) + 1 < TWO_64 && b == Append(a, msg, ctx)
    ensures Extends(a, b) && IdsUpToCounter(b)
  {
    hide BE8, IndexEntry, TimeEntry;
    var n := Counter(a) + 1;
    assert b.logs == a.logs[BE8(n) := LogFor(msg, ctx, n)];
    forall m: uint64 | BE8(m) in b.logs
      ensures m <= Counter(b)
    {
      BE8Order(m, n);
    }
  }

  lemma StepExtends(a: State, step: Step, b: State)
    requires IdsUpToCounter(a) && Counter(a) + 1 < TWO_64 && b == Handle(a, step.msg, step.ctx).0
    ensures Extends(a, b) && IdsUpToCounter(b) && Counter(b) <= Counter(a) + 1
  {
    hide Append, BE8;
    AppendExtends(a, step.msg, step.ctx, Append(a, step.msg, step.ctx));
    AppendCounter(a, step.msg, step.ctx);
  }

  lemma {:induction false} RunExtends(a: State, steps: seq<Step>)
    requires IdsUpToCounter(a) && Counter(a) + |steps| < TWO_64
    ensures Extends(a, Run(a, steps))
    decreases |steps|
  {
    hide Handle, IdsUpToCounter, BE8;
    if steps != [] {
      var b := Handle(a, steps[0].msg, steps[0].ctx).0;
      StepExtends(a, steps[0], b);
      RunExtends(b, steps[1..]);
    }
  }

  /** The message is from an allowed auditor and within the size limit, whatever the tables hold. */
  predicate Acceptable(p: Params, msg: Msg) {
    && (p.allowedAuditors == [] || msg.creator in p.allowedAuditors)
    && (p.maxDataSize > 0 ==> |msg.data| <= p.maxDataSize)
  }

  lemma AcceptedStep(a: State, step: Step, b: State)
    requires Acceptable(ParamsOf(a), step.msg) && Counter(a) + 1 < TWO_64 && b == Handle(a, step.msg, step.ctx).0
    ensures Counter(b) == Counter(a) + 1 && ParamsOf(b) == ParamsOf(a)
    ensures BE8(Counter(b)) in b.logs && b.logs[BE8(Counter(b))] == LogFor(step.msg, step.ctx, Counter(b))
  {
    hide BE8, IndexEntry, TimeEntry;
  }

  /** k acceptable messages are all recorded; the last is stored under id counter + k. */
  lemma {:induction false} RepeatedRecording(a: State, step: Step, k: nat)
    requires Acceptable(ParamsOf(a), step.msg) && 0 < k && Counter(a) + k < TWO_64
    ensures var n, b := Counter(a) + k, Run(a, Repeat(step, k));
      BE8(n) in b.logs && b.logs[BE8(n)] == LogFor(step.msg, step.ctx, n)
    decreases k
  {
    hide BE8, Handle, Acceptable, LogFor, ParamsOf, Counter;
    var b := Handle(a, step.msg, step.ctx).0;
    AcceptedStep(a, step, b);
    assert Repeat(step, k)[0] == step && Repeat(step, k)[1..] == Repeat(step, k - 1);
    if k == 1 {
      assert Run(b, []) == b;
    } else {
      RepeatedRecording(b, step, k - 1);
    }
  }

  /** Stored logs survive every later run of messages exactly when no stored id is greater than the
      counter, which validation of an imported genesis does not check. */
  lemma AppendOnlyAfterImportIff(a: State)
    ensures (forall steps: seq<Step> :: Counter(a) + |steps| < TWO_64 ==> Extends(a, Run(a, steps)))
       <==> IdsUpToCounter(a)
  {
    hide BE8, Extends, Run;
    if IdsUpToCounter(a) {
      forall steps: seq<Step> | Counter(a) + |steps| < TWO_64
        ensures Extends(a, Run(a, steps))
      {
        RunExtends(a, steps);
      }
    } else {
      var n: uint64 :| BE8(n) in a.logs && n > Counter(a);
      var steps := OverwritingRun(a, n);
    }
  }

  /** An allowed auditor records other data, within the limit, until the id of a stored log is reached. */
  lemma OverwritingRun(a: State, n: uint64) returns (steps: seq<Step>)
    requires BE8(n) in a.logs && n > Counter(a)
    ensures Counter(a) + |steps| < TWO_64 && !Extends(a, Run(a, steps))
  {
    hide BE8, Run;
    var auditor := if ParamsOf(a).allowedAuditors == [] then [97] else ParamsOf(a).allowedAuditors[0];
    var data: Bytes := if a.logs[BE8(n)].data == [] then [97] else [];
    var step := Step(RecordAudit(auditor, [97], [], [97], data), Context(0, 0, []));
    steps := Repeat(step, n - Counter(a));
    RepeatedRecording(a, step, n - Counter(a));
    assert Run(a, steps).logs[BE8(n)].data != a.logs[BE8(n)].data;
  }
}
