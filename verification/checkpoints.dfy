/** The checkpoint that polling saves: when it is the last processed block. */
module Checkpoints {
  import opened Scan
  import opened Polling

  // ---------- who writes the checkpoint ----------

  /** The action is a save that completes. */
  predicate Completes(s: State, a: Action) {
    a.Save? && a.id in s.ticks && s.ticks[a.id].Saving?
  }

  /** A completing save writes its tick's value, and nothing else writes. */
  lemma OnlySavesWrite(s: State, a: Action)
    ensures Completes(s, a) ==> Step(s, a).checkpoint == Some(s.ticks[a.id].value)
    ensures !Completes(s, a) ==> Step(s, a).checkpoint == s.checkpoint
  {
    hide Blocks, PartOf;
  }

  /** After any run, a tick that is given a range up to block c, finishes it and saves, leaves
      checkpoint c. */
  lemma RangeIsSaved(before: seq<Action>, id: nat, c: nat)
    requires OpensRange(Run(START, before), Reply(id, c))
    ensures Run(START, before + [Reply(id, c), Finish(id), Save(id)]).checkpoint == Some(c)
    ensures Run(START, before + [Reply(id, c), Finish(id), Save(id)]).lastProcessed == c
  {
    var s, acts := Run(START, before), [Reply(id, c), Finish(id), Save(id)];
    RunConcat(START, before, acts);
    hide Run, Blocks;
    FirstStep(s, Reply(id, c), [Finish(id), Save(id)]);
    assert acts == [Reply(id, c)] + [Finish(id), Save(id)];
    RunTwo(Step(s, Reply(id, c)), Finish(id), Save(id));
  }

  // ---------- runs ----------

  /** No tick is saving. */
  ghost predicate Settled(s: State) {
    forall id :: id in s.ticks ==> !s.ticks[id].Saving?
  }

  /** What the checkpoint should be. */
  function Due(s: State): Option<nat> {
    if s.lastProcessed == 0 then None else Some(s.lastProcessed)
  }

  /** No tick fails while saving. */
  ghost predicate SavesSucceed(s: State, acts: seq<Action>)
    decreases |acts|
  {
    acts != [] ==>
      && !(acts[0].Fail? && acts[0].id in s.ticks && s.ticks[acts[0].id].Saving?)
      && SavesSucceed(Step(s, acts[0]), acts[1..])
  }

  /** A range finishes only when no tick is saving. */
  ghost predicate FinishesAlone(s: State, a: Action) {
    a.Finish? && a.id in s.ticks && s.ticks[a.id].Processing? ==> Settled(s)
  }

  ghost predicate SavesApart(s: State, acts: seq<Action>)
    decreases |acts|
  {
    acts != [] ==> FinishesAlone(s, acts[0]) && SavesApart(Step(s, acts[0]), acts[1..])
  }

  predicate OnlySaves(acts: seq<Action>) {
    forall i :: 0 <= i < |acts| ==> acts[i].Save?
  }

  /** In whatever order the open saves complete, the checkpoint ends as the last processed block. */
  ghost predicate CheckpointHolds(s: State) {
    forall saves :: OnlySaves(saves) && Settled(Run(s, saves)) ==> Run(s, saves).checkpoint == Due(s)
  }

  ghost predicate HoldsThroughout(s: State, acts: seq<Action>)
    decreases |acts|
  {
    CheckpointHolds(s) && (acts != [] ==> HoldsThroughout(Step(s, acts[0]), acts[1..]))
  }

  /** At most one tick is saving, and it saves the last processed block; otherwise that is saved. */
  ghost predicate OneSave(s: State) {
    && (forall i, j :: i in s.ticks && j in s.ticks && s.ticks[i].Saving? && s.ticks[j].Saving? ==> i == j)
    && (forall i :: i in s.ticks && s.ticks[i].Saving? ==> s.lastProcessed > 0 && s.ticks[i].value == s.lastProcessed)
    && (Settled(s) ==> s.checkpoint == Due(s))
  }

  lemma SaveKeepsOne(s: State, a: Action)
    requires OneSave(s) && a.Save?
    ensures OneSave(Step(s, a)) && Step(s, a).lastProcessed == s.lastProcessed
  {
    if Completes(s, a) {
      assert Settled(Step(s, a));
    }
  }

  lemma {:induction false} SavesEnd(s: State, saves: seq<Action>)
    requires OneSave(s) && OnlySaves(saves)
    ensures OneSave(Run(s, saves)) && Run(s, saves).lastProcessed == s.lastProcessed
    decreases |saves|
  {
    hide OneSave, Step;
    if saves != [] {
      SaveKeepsOne(s, saves[0]);
      SavesEnd(Step(s, saves[0]), saves[1..]);
    }
  }

  lemma OneSaveHolds(s: State)
    requires OneSave(s)
    ensures CheckpointHolds(s)
  {
    hide Run;
    forall saves | OnlySaves(saves) && Settled(Run(s, saves))
      ensures Run(s, saves).checkpoint == Due(s)
    {
      SavesEnd(s, saves);
    }
  }

  lemma OpenIsLater(s: State, id: nat)
    requires SerialInv(s) && id in s.ticks && s.ticks[id].Processing?
    ensures s.ticks[id].to > s.lastProcessed
  {
    assert NextRange(s.lastProcessed, s.ticks[id]);
  }

  lemma StepOneSave(s: State, a: Action)
    requires OneSave(s) && SerialInv(s) && FinishesAlone(s, a)
    requires !(a.Fail? && a.id in s.ticks && s.ticks[a.id].Saving?)
    ensures OneSave(Step(s, a))
  {
    if a.Save? {
      SaveKeepsOne(s, a);
    } else {
      if a.Finish? && a.id in s.ticks && s.ticks[a.id].Processing? {
        OpenIsLater(s, a.id);
      }
      hide SerialInv, Blocks, PartOf;
      NoSaveNoWrite(s, a);
    }
  }

  lemma NoSaveNoWrite(s: State, a: Action)
    requires OneSave(s) && FinishesAlone(s, a) && !a.Save?
    requires !(a.Fail? && a.id in s.ticks && s.ticks[a.id].Saving?)
    requires a.Finish? && a.id in s.ticks && s.ticks[a.id].Processing? ==> s.ticks[a.id].to > 0
    ensures OneSave(Step(s, a))
  {
    hide Blocks, PartOf;
    var u := Step(s, a);
    if a.Finish? && a.id in s.ticks && s.ticks[a.id].Processing? {
      assert u.ticks[a.id].Saving?;
    } else {
      forall i | i in s.ticks && s.ticks[i].Saving?
        ensures i in u.ticks && u.ticks[i] == s.ticks[i]
      {
      }
    }
  }

  /** A range that finishes beside an open save: if the older save completes last, the checkpoint is set
      back to the older block. */
  lemma OvertakenSave(s: State, a: Action) returns (saves: seq<Action>)
    requires OneSave(s) && SerialInv(s) && !FinishesAlone(s, a)
    ensures OnlySaves(saves) && Settled(Run(Step(s, a), saves))
    ensures Run(Step(s, a), saves).checkpoint == Some(s.lastProcessed)
    ensures Due(Step(s, a)) != Some(s.lastProcessed)
  {
    var i :| i in s.ticks && s.ticks[i].Saving?;
    OpenIsLater(s, a.id);
    hide SerialInv, Blocks, Run;
    saves := [Save(a.id), Save(i)];
    RunTwo(Step(s, a), Save(a.id), Save(i));
  }

  lemma {:induction false} HoldsIffApart(s: State, acts: seq<Action>)
    requires OneSave(s) && SerialInv(s) && Serial(s, acts) && SavesSucceed(s, acts)
    ensures HoldsThroughout(s, acts) <==> SavesApart(s, acts)
    decreases |acts|
  {
    hide OneSave, SerialInv, Step, SerialStep, CheckpointHolds, FinishesAlone;
    OneSaveHolds(s);
    if acts != [] {
      StepSerial(s, acts[0]);
      if FinishesAlone(s, acts[0]) {
        StepOneSave(s, acts[0]);
        HoldsIffApart(Step(s, acts[0]), acts[1..]);
      } else {
        FailsHere(s, acts[0]);
      }
    }
  }

  lemma FailsHere(s: State, a: Action)
    requires OneSave(s) && SerialInv(s) && !FinishesAlone(s, a)
    ensures !CheckpointHolds(Step(s, a))
  {
    hide Run, SerialInv, FinishesAlone, Step, OneSave, Due;
    var saves := OvertakenSave(s, a);
  }

  lemma StartHasOneSave()
    ensures OneSave(START)
  {}

  /** In a serial run whose saves all succeed: at every point, in whatever order the open saves complete,
      the checkpoint ends as the last processed block, exactly when no range finishes while another
      tick is still saving. */
  lemma CheckpointIff(acts: seq<Action>)
    requires Serial(START, acts) && SavesSucceed(START, acts)
    ensures HoldsThroughout(START, acts) <==> SavesApart(START, acts)
  {
    StartHasOneSave();
    StartIsSerial();
    HoldsIffApart(START, acts);
  }

  lemma {:induction false} ApartKeeps(s: State, acts: seq<Action>)
    requires OneSave(s) && SerialInv(s) && Serial(s, acts) && SavesSucceed(s, acts) && SavesApart(s, acts)
    ensures OneSave(Run(s, acts))
    decreases |acts|
  {
    hide OneSave, SerialInv, Step, SerialStep, FinishesAlone;
    if acts != [] {
      StepSerial(s, acts[0]);
      StepOneSave(s, acts[0]);
      ApartKeeps(Step(s, acts[0]), acts[1..]);
    }
  }

  /** Then, once all saves are done, the checkpoint is the last processed block. */
  lemma CheckpointIsLast(acts: seq<Action>)
    requires Serial(START, acts) && SavesSucceed(START, acts) && SavesApart(START, acts)
    requires Settled(Run(START, acts))
    ensures Run(START, acts).lastProcessed > 0 ==> Run(START, acts).checkpoint == Some(Run(START, acts).lastProcessed)
    ensures Run(START, acts).lastProcessed == 0 ==> Run(START, acts).checkpoint == None
  {
    StartHasOneSave();
    StartIsSerial();
    ApartKeeps(START, acts);
  }

  lemma SavesStep(s: State, a: Action, rest: seq<Action>)
    ensures SavesSucceed(s, [a] + rest) <==>
      !(a.Fail? && a.id in s.ticks && s.ticks[a.id].Saving?) && SavesSucceed(Step(s, a), rest)
  {
    assert ([a] + rest)[1..] == rest;
  }

  /** Two ticks one after the other, of which the first saves last. */
  function LateSave(x: nat, y: nat): seq<Action> {
    [Start(0)] + ([Reply(0, x)] + ([Finish(0)] + ([Start(1)] + ([Reply(1, y)] + ([Finish(1)] + SavesReversed())))))
  }

  function SavesReversed(): seq<Action> {
    [Save(1)] + ([Save(0)] + [])
  }

  lemma OneStep(s: State, a: Action, rest: seq<Action>, t: State)
    requires t == Step(s, a) && SerialStep(s, a) && !(a.Fail? && a.id in s.ticks && s.ticks[a.id].Saving?)
    ensures Run(s, [a] + rest) == Run(t, rest)
    ensures Serial(s, [a] + rest) <==> Serial(t, rest)
    ensures SavesSucceed(s, [a] + rest) <==> SavesSucceed(t, rest)
  {
    FirstStep(s, a, rest);
    SavesStep(s, a, rest);
  }

  lemma SavesReversedIs(p: multiset<nat>, x: nat, y: nat)
    ensures var s := State(y, p, p, map[0 := Saving(x), 1 := Saving(y)], None);
      && Run(s, SavesReversed()) == State(y, p, p, map[], Some(x))
      && Serial(s, SavesReversed()) && SavesSucceed(s, SavesReversed())
  {
    var s := State(y, p, p, map[0 := Saving(x), 1 := Saving(y)], None);
    var s1 := State(y, p, p, map[0 := Saving(x)], Some(y));
    var s2 := State(y, p, p, map[], Some(x));
    assert Step(s, Save(1)) == s1 && Step(s1, Save(0)) == s2;
    hide Step;
    OneStep(s, Save(1), [Save(0)] + [], s1);
    OneStep(s1, Save(0), [], s2);
  }

  lemma SecondTickIs(p: multiset<nat>, x: nat, y: nat)
    requires 0 < x < y
    ensures var s := State(x, p, p, map[0 := Saving(x)], None);
      var acts := [Start(1)] + ([Reply(1, y)] + ([Finish(1)] + SavesReversed()));
      && Run(s, acts).lastProcessed == y && Run(s, acts).checkpoint == Some(x) && Run(s, acts).ticks == map[]
      && Serial(s, acts) && SavesSucceed(s, acts)
  {
    hide Blocks;
    var q := p + Blocks(x + 1, y);
    var s := State(x, p, p, map[0 := Saving(x)], None);
    var s1 := State(x, p, p, map[0 := Saving(x), 1 := Asking], None);
    var s2 := State(x, p, p, map[0 := Saving(x), 1 := Processing(x + 1, y)], None);
    var s3 := State(y, q, q, map[0 := Saving(x), 1 := Saving(y)], None);
    assert Step(s, Start(1)) == s1 && Step(s1, Reply(1, y)) == s2 && Step(s2, Finish(1)) == s3;
    hide Step;
    SavesReversedIs(q, x, y);
    OneStep(s2, Finish(1), SavesReversed(), s3);
    OneStep(s1, Reply(1, y), [Finish(1)] + SavesReversed(), s2);
    OneStep(s, Start(1), [Reply(1, y)] + ([Finish(1)] + SavesReversed()), s1);
  }

  /** The condition is needed, for any two heads: this run is serial, no tick fails and both have saved,
      and yet the checkpoint is the older block. */
  lemma LateSaveSetsBack(x: nat, y: nat)
    requires 0 < x < y
    ensures Serial(START, LateSave(x, y)) && SavesSucceed(START, LateSave(x, y)) && Settled(Run(START, LateSave(x, y)))
    ensures Run(START, LateSave(x, y)).lastProcessed == y && Run(START, LateSave(x, y)).checkpoint == Some(x)
  {
    hide Blocks;
    var p := multiset{} + Blocks(x, x);
    var rest := [Start(1)] + ([Reply(1, y)] + ([Finish(1)] + SavesReversed()));
    var s1 := State(0, multiset{}, multiset{}, map[0 := Asking], None);
    var s2 := State(0, multiset{}, multiset{}, map[0 := Processing(x, x)], None);
    var s3 := State(x, p, p, map[0 := Saving(x)], None);
    assert Step(START, Start(0)) == s1 && Step(s1, Reply(0, x)) == s2 && Step(s2, Finish(0)) == s3;
    hide Step;
    SecondTickIs(p, x, y);
    OneStep(s2, Finish(0), rest, s3);
    OneStep(s1, Reply(0, x), [Finish(0)] + rest, s2);
    OneStep(START, Start(0), [Reply(0, x)] + ([Finish(0)] + rest), s1);
  }
}
