/** The polling loop as a protocol: timer ticks that overlap, fail and finish in any order around one
    shared variable, the last processed block, and one saved checkpoint. */
module Polling {
  import opened Scan

  /** A tick waits for the block number, then processes its range, then saves its checkpoint. */
  datatype Tick = Asking | Processing(from: nat, to: nat) | Saving(value: nat)

  /** finished counts how often a block was part of a range whose processing finished; processed also
      counts the blocks that a failed tick had processed before its error. */
  datatype State = State(lastProcessed: nat, finished: multiset<nat>, processed: multiset<nat>, ticks: map<nat, Tick>,
    checkpoint: Option<nat>)

  const START := State(0, multiset{}, multiset{}, map[], None)

  /** Start opens a tick; Reply delivers the reported block number to it; Finish ends its processing;
      Save writes its checkpoint; Fail ends it with an error after some blocks of its range. */
  datatype Action =
    | Start(id: nat) | Reply(id: nat, current: nat) | Finish(id: nat) | Save(id: nat) | Fail(id: nat, part: set<nat>)

  /** The blocks of a range, each once. */
  function Blocks(from: nat, to: int): (r: multiset<nat>)
    ensures forall n: nat :: r[n] == (if from <= n <= to then 1 else 0)
    decreases if to < from then 0 else to - from + 1
  {
    if to < from then multiset{} else Blocks(from, to - 1) + multiset{to}
  }

  function PartOf(t: Tick, part: set<nat>): multiset<nat>
    requires t.Processing?
  {
    multiset(set n | n in part && t.from <= n <= t.to)
  }

  /** An action that does not fit the state of its tick changes nothing. */
  function Step(s: State, a: Action): State {
    match a
    case Start(id) => if id in s.ticks then s else s.(ticks := s.ticks[id := Asking])
    case Reply(id, current) =>
      if id !in s.ticks || !s.ticks[id].Asking? then s
      else if current <= s.lastProcessed then s.(ticks := s.ticks - {id})
      else
        var from := if s.lastProcessed == 0 then current else s.lastProcessed + 1;
        s.(ticks := s.ticks[id := Processing(from, current)])
    case Finish(id) =>
      if id !in s.ticks || !s.ticks[id].Processing? then s
      else
        var t := s.ticks[id];
        s.(lastProcessed := t.to,
           finished := s.finished + Blocks(t.from, t.to), processed := s.processed + Blocks(t.from, t.to),
           ticks := s.ticks[id := Saving(t.to)])
    case Save(id) =>
      if id !in s.ticks || !s.ticks[id].Saving? then s
      else s.(checkpoint := Some(s.ticks[id].value), ticks := s.ticks - {id})
    case Fail(id, part) =>
      if id !in s.ticks then s
      else if s.ticks[id].Processing? then
        s.(processed := s.processed + PartOf(s.ticks[id], part), ticks := s.ticks - {id})
      else s.(ticks := s.ticks - {id})
  }

  function Run(s: State, acts: seq<Action>): State
    decreases |acts|
  {
    if acts == [] then s else Run(Step(s, acts[0]), acts[1..])
  }

  lemma {:induction false} RunConcat(s: State, a: seq<Action>, b: seq<Action>)
    ensures Run(s, a + b) == Run(Run(s, a), b)
    decreases |a|
  {
    hide Step;
    if a == [] {
      assert a + b == b;
    } else {
      assert (a + b)[1..] == a[1..] + b;
      RunConcat(Step(s, a[0]), a[1..], b);
    }
  }

  /** The action gives its tick a range of blocks. */
  predicate OpensRange(s: State, a: Action) {
    a.Reply? && a.id in s.ticks && s.ticks[a.id].Asking? && a.current > s.lastProcessed
  }

  // ---------- coverage ----------

  ghost predicate Covered(p: multiset<nat>, from: nat, to: int) {
    forall n :: from <= n <= to ==> n in p
  }

  /** Everything above block h, up to the last processed block, to the block before any open range, to
      any value about to be saved and to the checkpoint, lies in a finished range; nothing below h does. */
  ghost predicate Inv(s: State, h: nat) {
    && Covered(s.finished, h + 1, s.lastProcessed) && (s.lastProcessed > 0 ==> h <= s.lastProcessed)
    && (forall n :: n in s.finished ==> h <= n)
    && (forall id :: id in s.ticks && s.ticks[id].Processing? ==>
         h <= s.ticks[id].from <= s.ticks[id].to && 0 < s.ticks[id].to &&
           Covered(s.finished, h + 1, s.ticks[id].from - 1))
    && (forall id :: id in s.ticks && s.ticks[id].Saving? ==> Covered(s.finished, h + 1, s.ticks[id].value))
    && (s.checkpoint.Some? ==> Covered(s.finished, h + 1, s.checkpoint.value))
  }

  /** A head reported while nothing has finished yet is h or the block after it. */
  predicate HeadFits(s: State, h: nat, a: Action) {
    OpensRange(s, a) && s.lastProcessed == 0 ==> h <= a.current <= h + 1
  }

  lemma FinishKeeps(s: State, h: nat, id: nat)
    requires Inv(s, h) && id in s.ticks && s.ticks[id].Processing?
    ensures Inv(Step(s, Finish(id)), h)
  {
    var t, u := s.ticks[id], Step(s, Finish(id));
    assert Covered(u.finished, h + 1, t.to) by {
      assert Covered(s.finished, h + 1, t.from - 1);
    }
  }

  lemma StepKeeps(s: State, h: nat, a: Action)
    requires Inv(s, h) && HeadFits(s, h, a)
    ensures Inv(Step(s, a), h) && s.finished <= Step(s, a).finished
    ensures s.lastProcessed > 0 ==> Step(s, a).lastProcessed > 0
  {
    if a.Finish? {
      if a.id in s.ticks && s.ticks[a.id].Processing? {
        FinishKeeps(s, h, a.id);
      }
    } else {
      OthersKeep(s, h, a);
    }
  }

  lemma OthersKeep(s: State, h: nat, a: Action)
    requires Inv(s, h) && HeadFits(s, h, a) && !a.Finish?
    ensures Inv(Step(s, a), h) && Step(s, a).finished == s.finished && Step(s, a).lastProcessed == s.lastProcessed
  {
    hide Covered, PartOf, Blocks;
    if OpensRange(s, a) && s.lastProcessed == 0 {
      NoneCovered(s.finished, h + 1, a.current - 1);
    }
  }

  lemma NoneCovered(p: multiset<nat>, from: nat, to: int)
    ensures to < from ==> Covered(p, from, to)
  {}

  lemma {:induction false} RunKeeps(s: State, h: nat, acts: seq<Action>)
    requires Inv(s, h) && s.lastProcessed > 0
    ensures Inv(Run(s, acts), h) && Run(s, acts).lastProcessed > 0 && s.finished <= Run(s, acts).finished
    decreases |acts|
  {
    hide Inv, Step;
    if acts != [] {
      StepKeeps(s, h, acts[0]);
      RunKeeps(Step(s, acts[0]), h, acts[1..]);
    }
  }

  // ---------- before the first tick finishes ----------

  /** While no range has finished nothing is saved, and every open range is one block, its head. */
  ghost predicate Fresh(s: State) {
    && (forall id :: id in s.ticks && s.ticks[id].Processing? ==> 0 < s.ticks[id].from <= s.ticks[id].to)
    && (s.lastProcessed == 0 ==>
         && s.finished == multiset{} && s.checkpoint == None
         && forall id :: id in s.ticks ==>
           !s.ticks[id].Saving? && (s.ticks[id].Processing? ==> s.ticks[id].from == s.ticks[id].to))
  }

  lemma StepFresh(s: State, a: Action)
    requires Fresh(s)
    ensures Fresh(Step(s, a))
  {}

  lemma {:induction false} RunFresh(s: State, acts: seq<Action>)
    requires Fresh(s)
    ensures Fresh(Run(s, acts))
    decreases |acts|
  {
    hide Fresh, Step;
    if acts != [] {
      StepFresh(s, acts[0]);
      RunFresh(Step(s, acts[0]), acts[1..]);
    }
  }

  /** After any number of ticks that failed or are still waiting, the tick id is the only one with a
      range, at head h, and will be the first to finish. */
  ghost predicate FirstAlone(s: State, id: nat, h: nat) {
    && s.lastProcessed == 0 && id in s.ticks && s.ticks[id] == Processing(h, h)
    && forall other :: other in s.ticks && other != id ==> !s.ticks[other].Processing?
  }

  lemma FirstAloneInv(s: State, id: nat, h: nat)
    requires Fresh(s) && FirstAlone(s, id, h)
    ensures h > 0 && Inv(Step(s, Finish(id)), h) && h in Step(s, Finish(id)).finished
    ensures Step(s, Finish(id)).lastProcessed == h && Step(s, Finish(id)).finished == Blocks(h, h)
  {
    assert Blocks(h, h)[h] == 1;
  }

  /** Once the first tick to finish has finished alone at head h, whatever failed before, then in every
      interleaving of overlapping, failing and reordered ticks every block from h to the last
      processed one, and to any saved checkpoint, lies in a range whose processing finished, and no
      block below h does. */
  lemma PollCovers(before: seq<Action>, id: nat, h: nat, acts: seq<Action>, s: State)
    requires FirstAlone(Run(START, before), id, h) && s == Run(Step(Run(START, before), Finish(id)), acts)
    ensures h <= s.lastProcessed && forall n :: h <= n <= s.lastProcessed ==> n in s.finished
    ensures s.checkpoint.Some? ==> forall n :: h <= n <= s.checkpoint.value ==> n in s.finished
    ensures forall n :: n < h ==> n !in s.finished
  {
    RunFresh(START, before);
    FirstAloneInv(Run(START, before), id, h);
    hide Run, Step, Fresh, FirstAlone;
    RunKeeps(Step(Run(START, before), Finish(id)), h, acts);
  }

  /** The run in which the very first tick runs alone and finds block h at the head. */
  function FirstTick(h: nat): seq<Action> {
    [Start(0), Reply(0, h)]
  }

  lemma RunTwo(s: State, a: Action, b: Action)
    ensures Run(s, [a, b]) == Step(Step(s, a), b)
  {
    hide Step;
    assert [a, b][1..] == [b] && [b][1..] == [];
    assert Run(Step(s, a), [b]) == Step(Step(s, a), b);
  }

  lemma FirstTickIs(h: nat)
    requires h > 0
    ensures Run(START, FirstTick(h)) == State(0, multiset{}, multiset{}, map[0 := Processing(h, h)], None)
    ensures FirstAlone(Run(START, FirstTick(h)), 0, h)
  {
    RunTwo(START, Start(0), Reply(0, h));
  }

  function AfterFirstTick(h: nat): State {
    Step(Run(START, FirstTick(h)), Finish(0))
  }

  /** Polling starts at the head it finds, not after the block the historical sync reached. No block
      is ever skipped, in any run, exactly when that head is at most the next block. */
  lemma NoGapIff(synced: nat, h: nat)
    requires h > 0
    ensures (forall acts :: forall n: nat :: synced < n <= Run(AfterFirstTick(h), acts).lastProcessed ==>
      n in Run(AfterFirstTick(h), acts).finished)
       <==> h <= synced + 1
  {
    FirstTickIs(h);
    hide Step;
    if h <= synced + 1 {
      forall acts
        ensures forall n: nat :: synced < n <= Run(AfterFirstTick(h), acts).lastProcessed ==>
          n in Run(AfterFirstTick(h), acts).finished
      {
        PollCovers(FirstTick(h), 0, h, acts, Run(AfterFirstTick(h), acts));
      }
    } else {
      var s := Run(AfterFirstTick(h), []);
      PollCovers(FirstTick(h), 0, h, [], s);
      assert h - 1 !in s.finished && synced < h - 1 <= s.lastProcessed;
    }
  }

  // ---------- first ticks that overlap ----------

  /** Every head reported before any range has finished belongs to the set. */
  ghost predicate HeadsIn(s: State, acts: seq<Action>, heads: set<nat>)
    decreases |acts|
  {
    acts != [] ==>
      && (OpensRange(s, acts[0]) && s.lastProcessed == 0 ==> acts[0].current in heads)
      && HeadsIn(Step(s, acts[0]), acts[1..], heads)
  }

  /** From the first finished block to the last processed one, every block lies in a finished range. */
  ghost predicate NoHole(s: State) {
    forall m, n: nat :: m in s.finished && m <= n <= s.lastProcessed ==> n in s.finished
  }

  /** No two heads are more than one block apart. */
  ghost predicate Close(heads: set<nat>) {
    forall x, y :: x in heads && y in heads ==> y <= x + 1
  }

  lemma LeastOfClose(heads: set<nat>) returns (h: nat)
    requires Close(heads)
    ensures forall x :: x in heads ==> h <= x <= h + 1
  {
    h := 0;
    if y: nat :| y in heads {
      h := if y > 0 && y - 1 in heads then y - 1 else y;
    }
  }

  lemma {:induction false} CloseHeadsKeep(s: State, h: nat, acts: seq<Action>, heads: set<nat>)
    requires Inv(s, h) && HeadsIn(s, acts, heads) && forall x :: x in heads ==> h <= x <= h + 1
    ensures Inv(Run(s, acts), h)
    decreases |acts|
  {
    hide Inv, Step;
    if acts != [] {
      StepKeeps(s, h, acts[0]);
      CloseHeadsKeep(Step(s, acts[0]), h, acts[1..], heads);
    }
  }

  lemma InvHasNoHole(s: State, h: nat)
    requires Inv(s, h)
    ensures NoHole(s)
  {
    forall m, n: nat | m in s.finished && m <= n <= s.lastProcessed
      ensures n in s.finished
    {
      assert n == h ==> m == h;
    }
  }

  /** Two first ticks that both learn their heads before either finishes. */
  function OverlappingStart(x: nat, y: nat): seq<Action> {
    [Start(0), Start(1)] + ([Reply(0, x), Reply(1, y)] + [Finish(0), Finish(1)])
  }

  lemma TwoReplies(s: State, x: nat, y: nat)
    requires s == State(0, multiset{}, multiset{}, map[0 := Asking, 1 := Asking], None) && 0 < x && 0 < y
    ensures Step(Step(s, Reply(0, x)), Reply(1, y)) == s.(ticks := map[0 := Processing(x, x), 1 := Processing(y, y)])
  {}

  lemma TwoFinishes(s: State, x: nat, y: nat)
    requires s == State(0, multiset{}, multiset{}, map[0 := Processing(x, x), 1 := Processing(y, y)], None)
    ensures var p := Blocks(x, x) + Blocks(y, y);
      Step(Step(s, Finish(0)), Finish(1)) == State(y, p, p, map[0 := Saving(x), 1 := Saving(y)], None)
  {
    hide Blocks;
  }

  lemma OverlappingStartIs(x: nat, y: nat)
    requires 0 < x && 0 < y
    ensures var p := Blocks(x, x) + Blocks(y, y);
      Run(START, OverlappingStart(x, y)) == State(y, p, p, map[0 := Saving(x), 1 := Saving(y)], None)
  {
    var s2 := State(0, multiset{}, multiset{}, map[0 := Asking, 1 := Asking], None);
    var s4 := State(0, multiset{}, multiset{}, map[0 := Processing(x, x), 1 := Processing(y, y)], None);
    assert Step(Step(START, Start(0)), Start(1)) == s2;
    hide Blocks, Step, Run;
    RunConcat(START, [Start(0), Start(1)], [Reply(0, x), Reply(1, y)] + [Finish(0), Finish(1)]);
    RunConcat(s2, [Reply(0, x), Reply(1, y)], [Finish(0), Finish(1)]);
    RunTwo(START, Start(0), Start(1));
    RunTwo(s2, Reply(0, x), Reply(1, y));
    RunTwo(s4, Finish(0), Finish(1));
    TwoReplies(s2, x, y);
    TwoFinishes(s4, x, y);
  }

  lemma OverlappingHeads(x: nat, y: nat, heads: set<nat>)
    requires x in heads && y in heads
    ensures HeadsIn(START, OverlappingStart(x, y), heads)
  {
    var acts := OverlappingStart(x, y);
    assert acts == [Start(0), Start(1), Reply(0, x), Reply(1, y), Finish(0), Finish(1)];
    HeadsInFirst(START, Start(0), acts[1..], heads);
    var s1 := Step(START, Start(0));
    HeadsInFirst(s1, Start(1), acts[2..], heads);
    var s2 := Step(s1, Start(1));
    HeadsInFirst(s2, Reply(0, x), acts[3..], heads);
    var s3 := Step(s2, Reply(0, x));
    HeadsInFirst(s3, Reply(1, y), acts[4..], heads);
    var s4 := Step(s3, Reply(1, y));
    HeadsInFirst(s4, Finish(0), acts[5..], heads);
    HeadsInFirst(Step(s4, Finish(0)), Finish(1), [], heads);
  }

  lemma HeadsInFirst(s: State, a: Action, rest: seq<Action>, heads: set<nat>)
    ensures HeadsIn(s, [a] + rest, heads) <==>
      (OpensRange(s, a) && s.lastProcessed == 0 ==> a.current in heads) && HeadsIn(Step(s, a), rest, heads)
  {
    assert ([a] + rest)[1..] == rest;
  }

  /** The heads that overlapping first ticks may report without losing a block: in every run whose
      first heads lie in a set there is no hole exactly when no two of the set are more than one
      block apart. */
  lemma FirstHeadsIff(heads: set<nat>)
    requires 0 !in heads
    ensures (forall acts :: HeadsIn(START, acts, heads) ==> NoHole(Run(START, acts))) <==> Close(heads)
  {
    hide HeadsIn, Run, Step, NoHole;
    if Close(heads) {
      var h := LeastOfClose(heads);
      forall acts | HeadsIn(START, acts, heads)
        ensures NoHole(Run(START, acts))
      {
        CloseHeadsKeep(START, h, acts, heads);
        InvHasNoHole(Run(START, acts), h);
      }
    } else {
      var x, y :| x in heads && y in heads && y > x + 1;
      OverlappingHeads(x, y, heads);
      OverlappingFirstTicksLoseABlock(x, y, x + 1, []);
      assert OverlappingStart(x, y) + [] == OverlappingStart(x, y);
      HoleAt(Run(START, OverlappingStart(x, y)), x, x + 1);
    }
  }

  lemma HoleAt(s: State, m: nat, n: nat)
    requires m in s.finished && m <= n <= s.lastProcessed && n !in s.finished
    ensures !NoHole(s)
  {}

  /** Block n is behind the last processed one and before every open range, and was not processed. */
  ghost predicate Passed(s: State, n: nat) {
    && n < s.lastProcessed && n !in s.processed && n !in s.finished
    && forall id :: id in s.ticks && s.ticks[id].Processing? ==> n < s.ticks[id].from <= s.ticks[id].to
  }

  lemma PassedStays(s: State, n: nat, a: Action)
    requires Passed(s, n)
    ensures Passed(Step(s, a), n)
  {}

  /** A block that was passed over is never processed in any continuation. */
  lemma {:induction false} PassedForever(s: State, n: nat, acts: seq<Action>)
    requires Passed(s, n)
    ensures n !in Run(s, acts).processed && n !in Run(s, acts).finished
    decreases |acts|
  {
    hide Step;
    if acts != [] {
      PassedStays(s, n, acts[0]);
      hide Passed;
      PassedForever(Step(s, acts[0]), n, acts[1..]);
    }
  }

  /** Whenever two first ticks overlap with heads more than one block apart, each block in between is
      passed over for ever: both heads are finished, and no continuation processes it. */
  lemma OverlappingFirstTicksLoseABlock(x: nat, y: nat, n: nat, acts: seq<Action>)
    requires 0 < x < n < y
    ensures var s := Run(START, OverlappingStart(x, y)); s.lastProcessed == y && x in s.finished && y in s.finished
    ensures n !in Run(START, OverlappingStart(x, y) + acts).processed
    ensures n !in Run(START, OverlappingStart(x, y) + acts).finished
  {
    OverlappingStartIs(x, y);
    RunConcat(START, OverlappingStart(x, y), acts);
    assert Blocks(x, x)[x] == 1 && Blocks(y, y)[y] == 1;
    PassedForever(Run(START, OverlappingStart(x, y)), n, acts);
  }

  // ---------- exactly once ----------

  ghost predicate SomeOpen(s: State) {
    exists id :: id in s.ticks && s.ticks[id].Processing?
  }

  /** A step is serial when it opens no range beside another, and a tick that it fails had processed
      no block of its range. */
  ghost predicate SerialStep(s: State, a: Action) {
    && (OpensRange(s, a) ==> !SomeOpen(s))
    && (a.Fail? && a.id in s.ticks && s.ticks[a.id].Processing? ==> PartOf(s.ticks[a.id], a.part) == multiset{})
  }

  ghost predicate Serial(s: State, acts: seq<Action>)
    decreases |acts|
  {
    acts != [] ==> SerialStep(s, acts[0]) && Serial(Step(s, acts[0]), acts[1..])
  }

  ghost predicate AtMostOnce(s: State) {
    forall n: nat :: s.processed[n] <= 1
  }

  /** Every block from some h to the last processed one was processed exactly once, and no other. */
  ghost predicate ExactlyOnce(s: State) {
    if s.lastProcessed == 0 then s.processed == multiset{}
    else exists h: nat :: 0 < h <= s.lastProcessed && s.processed == Blocks(h, s.lastProcessed)
  }

  /** Besides, at most one range is open, and it begins right after the last processed block. */
  ghost predicate SerialInv(s: State) {
    && ExactlyOnce(s)
    && (forall i, j :: i in s.ticks && j in s.ticks && s.ticks[i].Processing? && s.ticks[j].Processing? ==> i == j)
    && (forall i :: i in s.ticks && s.ticks[i].Processing? ==> NextRange(s.lastProcessed, s.ticks[i]))
  }

  predicate NextRange(last: nat, t: Tick) {
    t.Processing? && 0 < t.from <= t.to && t.from == if last == 0 then t.to else last + 1
  }

  lemma JoinBlocks(h: nat, mid: nat, to: nat)
    requires h <= mid + 1 <= to + 1
    ensures Blocks(h, mid) + Blocks(mid + 1, to) == Blocks(h, to)
  {}

  lemma FinishSerial(s: State, id: nat)
    requires SerialInv(s) && id in s.ticks && s.ticks[id].Processing?
    ensures SerialInv(Step(s, Finish(id)))
  {
    var t, u := s.ticks[id], Step(s, Finish(id));
    assert NextRange(s.lastProcessed, t);
    assert ExactlyOnce(u) by {
      if s.lastProcessed == 0 {
        assert u.processed == Blocks(t.from, t.to);
      } else {
        var h: nat :| 0 < h <= s.lastProcessed && s.processed == Blocks(h, s.lastProcessed);
        JoinBlocks(h, s.lastProcessed, t.to);
      }
    }
    hide ExactlyOnce, Blocks;
  }

  lemma OtherSerial(s: State, a: Action)
    requires SerialInv(s) && SerialStep(s, a) && !a.Finish?
    ensures SerialInv(Step(s, a))
  {
    assert Step(s, a).processed == s.processed && Step(s, a).lastProcessed == s.lastProcessed;
    assert ExactlyOnce(Step(s, a));
    hide ExactlyOnce, PartOf, Blocks;
  }

  lemma StepSerial(s: State, a: Action)
    requires SerialInv(s) && SerialStep(s, a)
    ensures SerialInv(Step(s, a))
  {
    hide SerialInv;
    if a.Finish? {
      if a.id in s.ticks && s.ticks[a.id].Processing? {
        FinishSerial(s, a.id);
      }
    } else {
      OtherSerial(s, a);
    }
  }

  lemma {:induction false} RunSerial(s: State, acts: seq<Action>)
    requires SerialInv(s) && Serial(s, acts)
    ensures SerialInv(Run(s, acts))
    decreases |acts|
  {
    hide SerialInv, SerialStep, Step;
    if acts != [] {
      StepSerial(s, acts[0]);
      RunSerial(Step(s, acts[0]), acts[1..]);
    }
  }

  lemma SerialIsOnce(s: State)
    requires SerialInv(s)
    ensures ExactlyOnce(s) && AtMostOnce(s)
  {}

  lemma StartIsSerial()
    ensures SerialInv(START)
  {}

  /** In every run from the start that never opens a range beside another and whose failed ticks had
      processed nothing, each block from the first head to the last processed one is processed
      exactly once, and no other block. */
  lemma SerialRunsOnce(acts: seq<Action>)
    requires Serial(START, acts)
    ensures ExactlyOnce(Run(START, acts))
  {
    StartIsSerial();
    RunSerial(START, acts);
  }

  lemma {:induction false} SerialConcat(s: State, a: seq<Action>, b: seq<Action>)
    ensures Serial(s, a + b) <==> Serial(s, a) && Serial(Run(s, a), b)
    decreases |a|
  {
    hide Step, SerialStep;
    if a == [] {
      assert a + b == b;
    } else {
      assert (a + b)[1..] == a[1..] + b;
      SerialConcat(Step(s, a[0]), a[1..], b);
    }
  }

  lemma FreshTick(used: set<nat>) returns (k: nat)
    ensures forall x :: x in used ==> x < k
    decreases used
  {
    k := 0;
    if x: nat :| x in used {
      k := FreshTick(used - {x});
      assert forall z :: z in used ==> z == x || z in used - {x};
      k := if x < k then k else x + 1;
    }
  }

  /** One more tick that runs alone up to block to. */
  function OneTick(k: nat, to: nat): seq<Action> {
    [Start(k)] + ([Reply(k, to)] + ([Finish(k)] + []))
  }

  lemma FirstStep(s: State, a: Action, rest: seq<Action>)
    ensures Run(s, [a] + rest) == Run(Step(s, a), rest)
    ensures Serial(s, [a] + rest) <==> SerialStep(s, a) && Serial(Step(s, a), rest)
  {
    hide Step, SerialStep;
    assert ([a] + rest)[1..] == rest;
  }

  lemma OneTickAdds(s: State, k: nat, to: nat, n: nat)
    requires k !in s.ticks && !SomeOpen(s) && s.lastProcessed < to
    requires if s.lastProcessed == 0 then n == to else s.lastProcessed < n <= to
    ensures Serial(s, OneTick(k, to)) && Run(s, OneTick(k, to)).processed[n] == s.processed[n] + 1
  {
    var s1 := Step(s, Start(k));
    var s2 := Step(s1, Reply(k, to));
    var t := Step(s2, Finish(k));
    assert SerialStep(s, Start(k)) && SerialStep(s1, Reply(k, to)) && SerialStep(s2, Finish(k));
    assert s2.ticks[k] == Processing(if s.lastProcessed == 0 then to else s.lastProcessed + 1, to) &&
      s2.processed == s.processed;
    assert t.processed == s.processed + Blocks(s2.ticks[k].from, to);
    hide Step, SerialStep, Blocks;
    FirstStep(s, Start(k), [Reply(k, to)] + ([Finish(k)] + []));
    FirstStep(s1, Reply(k, to), [Finish(k)] + []);
    FirstStep(s2, Finish(k), []);
  }

  lemma TwoFinish(s: State, i: nat, j: nat, u: State)
    requires i != j && i in s.ticks && j in s.ticks && s.ticks[i].Processing? && s.ticks[j].Processing?
    requires u == Run(s, [Finish(i), Finish(j)])
    ensures Serial(s, [Finish(i), Finish(j)])
    ensures u.processed == s.processed + Blocks(s.ticks[i].from, s.ticks[i].to) + Blocks(s.ticks[j].from, s.ticks[j].to)
    ensures u.lastProcessed == s.ticks[j].to &&
      u.ticks == s.ticks[i := Saving(s.ticks[i].to)][j := Saving(s.ticks[j].to)]
  {
    hide Blocks;
    RunTwo(s, Finish(i), Finish(j));
    var acts := [Finish(i), Finish(j)];
    assert acts[1..] == [Finish(j)] && [Finish(j)][1..] == [];
    assert Serial(Step(s, Finish(i)), [Finish(j)]);
  }

  /** Two ranges that share a block: finishing both processes it twice. */
  lemma SharedBlockRepeats(s: State, i: nat, j: nat, n: nat) returns (more: seq<Action>)
    requires i != j && i in s.ticks && j in s.ticks && s.ticks[i].Processing? && s.ticks[j].Processing?
    requires s.ticks[i].from <= n <= s.ticks[i].to && s.ticks[j].from <= n <= s.ticks[j].to
    ensures Serial(s, more) && !AtMostOnce(Run(s, more))
  {
    hide Step, Run, Serial;
    more := [Finish(i), Finish(j)];
    var u := Run(s, more);
    TwoFinish(s, i, j, u);
    assert u.processed[n] >= 2;
  }

  /** Two first ranges with different heads: when the lower one finishes last, the next tick processes
      the higher head again. */
  lemma SetBackRepeats(s: State, i: nat, j: nat) returns (more: seq<Action>)
    requires i != j && i in s.ticks && j in s.ticks
    requires s.ticks[i].Processing? && s.ticks[j].Processing? && s.ticks[i].from <= s.ticks[i].to
    requires 0 < s.ticks[j].to < s.ticks[i].to
    requires forall id :: id in s.ticks && s.ticks[id].Processing? ==> id == i || id == j
    ensures Serial(s, more) && !AtMostOnce(Run(s, more))
  {
    var first, n := [Finish(i), Finish(j)], s.ticks[i].to;
    var u := Run(s, first);
    TwoFinish(s, i, j, u);
    var k := FreshTick(u.ticks.Keys);
    hide Step, Run, Serial;
    OneTickAdds(u, k, n, n);
    more := first + OneTick(k, n);
    SerialConcat(s, first, OneTick(k, n));
    RunConcat(s, first, OneTick(k, n));
    assert Run(s, more).processed[n] >= 2;
  }

  /** Whatever ranges two ticks hold, if nobody else holds one, some serial continuation repeats a block. */
  lemma TwoRangesRepeat(s: State, last: nat, i: nat, j: nat) returns (more: seq<Action>)
    requires i != j && i in s.ticks && j in s.ticks && NextRange(last, s.ticks[i]) && NextRange(last, s.ticks[j])
    requires forall id :: id in s.ticks && s.ticks[id].Processing? ==> id == i || id == j
    ensures Serial(s, more) && !AtMostOnce(Run(s, more))
  {
    hide Serial, Run, AtMostOnce;
    if s.ticks[i].from == s.ticks[j].from {
      more := SharedBlockRepeats(s, i, j, s.ticks[i].from);
    } else if s.ticks[j].to < s.ticks[i].to {
      more := SetBackRepeats(s, i, j);
    } else {
      more := SetBackRepeats(s, j, i);
    }
  }

  /** A range that opens beside another lets some serial continuation process a block twice. */
  lemma SecondRangeRepeats(s: State, a: Action) returns (more: seq<Action>)
    requires SerialInv(s) && OpensRange(s, a) && SomeOpen(s)
    ensures Serial(Step(s, a), more) && !AtMostOnce(Run(Step(s, a), more))
  {
    var i :| i in s.ticks && s.ticks[i].Processing?;
    var u := Step(s, a);
    assert NextRange(s.lastProcessed, u.ticks[i]) && NextRange(s.lastProcessed, u.ticks[a.id]);
    hide Step, Serial, Run, AtMostOnce, ExactlyOnce, NextRange;
    more := TwoRangesRepeat(u, s.lastProcessed, i, a.id);
  }

  /** A failed tick that had processed some of its blocks lets the next tick process them again. */
  lemma FailedPartRepeats(s: State, a: Action) returns (more: seq<Action>)
    requires SerialInv(s) && a.Fail? && a.id in s.ticks && s.ticks[a.id].Processing?
    requires PartOf(s.ticks[a.id], a.part) != multiset{}
    ensures Serial(Step(s, a), more) && !AtMostOnce(Run(Step(s, a), more))
  {
    var t, u := s.ticks[a.id], Step(s, a);
    assert NextRange(s.lastProcessed, t);
    var n :| n in PartOf(t, a.part);
    assert t.from <= n <= t.to && u.processed[n] >= 1;
    var k := FreshTick(u.ticks.Keys);
    assert !SomeOpen(u);
    hide Step, Serial, Run, ExactlyOnce, PartOf, SomeOpen;
    OneTickAdds(u, k, t.to, n);
    more := OneTick(k, t.to);
    assert Run(u, more).processed[n] >= 2;
  }

  /** No serial continuation processes a block twice. */
  ghost predicate NeverRepeats(s: State) {
    forall more :: Serial(s, more) ==> AtMostOnce(Run(s, more))
  }

  /** After a serial past, the next step keeps every serial continuation free of repeats exactly when
      it is serial itself. */
  lemma SerialStepIff(s: State, a: Action)
    requires SerialInv(s)
    ensures NeverRepeats(Step(s, a)) <==> SerialStep(s, a)
  {
    hide Serial, Run, AtMostOnce, Step;
    if SerialStep(s, a) {
      StepSerial(s, a);
      SerialNeverRepeats(Step(s, a));
    } else if OpensRange(s, a) {
      var more := SecondRangeRepeats(s, a);
    } else {
      var more := FailedPartRepeats(s, a);
    }
  }

  lemma SerialNeverRepeats(s: State)
    requires SerialInv(s)
    ensures NeverRepeats(s)
  {
    hide Serial, Run, AtMostOnce, SerialInv;
    forall more | Serial(s, more)
      ensures AtMostOnce(Run(s, more))
    {
      RunSerial(s, more);
      SerialIsOnce(Run(s, more));
    }
  }

  /** At every point of the run no serial continuation processes a block twice. */
  ghost predicate RepeatFree(s: State, acts: seq<Action>)
    decreases |acts|
  {
    NeverRepeats(s) && (acts != [] ==> RepeatFree(Step(s, acts[0]), acts[1..]))
  }

  lemma {:induction false} RepeatFreeIff(s: State, acts: seq<Action>)
    requires SerialInv(s)
    ensures RepeatFree(s, acts) <==> Serial(s, acts)
    decreases |acts|
  {
    hide NeverRepeats, SerialInv, Step, SerialStep;
    SerialNeverRepeats(s);
    if acts != [] {
      SerialStepIff(s, acts[0]);
      if SerialStep(s, acts[0]) {
        StepSerial(s, acts[0]);
        RepeatFreeIff(Step(s, acts[0]), acts[1..]);
      }
    }
  }

  /** A run from the start is free of repeats, at every point and however it goes on serially, exactly
      when it never opens a range beside another and its failed ticks had processed nothing. */
  lemma ExactlyOnceIff(acts: seq<Action>)
    ensures RepeatFree(START, acts) <==> Serial(START, acts)
    ensures Serial(START, acts) ==> ExactlyOnce(Run(START, acts))
  {
    hide RepeatFree, Serial, ExactlyOnce, Run;
    StartIsSerial();
    RepeatFreeIff(START, acts);
    if Serial(START, acts) {
      SerialRunsOnce(acts);
    }
  }
}
