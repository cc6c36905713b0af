/**
  What a status override records: when its history entry names the status it really overwrote.
 */
module DeployOverride {
  import opened Common
  import opened DeployStates
  import opened DeployStatus

  // ---- An absorbing status cannot move under an override --------------------------------------------

  // No transition about to swap has read an absorbing status, and an override that has read one still
  // finds it there.
  predicate FrozenInv(s: System) {
    && (forall j :: 0 <= j < |s.callers| && s.callers[j].pc.Swapping? ==> !IsAbsorbing(s.callers[j].pc.seen))
    && (forall j :: 0 <= j < |s.callers| && s.callers[j].pc.ForceWriting? && IsAbsorbing(s.callers[j].pc.seen) ==>
          s.status == s.callers[j].pc.seen)
  }

  // What one caller may do to the status, the other callers standing still.
  predicate StatusMove(s: System, t: System, i: nat)
    requires i < |s.callers|
  {
    && |t.callers| == |s.callers|
    && t.callers == s.callers[i := t.callers[i]]
    && var before, after := s.callers[i].pc, t.callers[i].pc;
       && (after.Swapping? ==> !IsAbsorbing(after.seen))
       && (after.ForceWriting? ==> after.seen == t.status)
       && (t.status == s.status
           || (before.Swapping? && before.seen == s.status)
           || before.ForceWriting?)
  }

  lemma StepIsStatusMove(s: System, i: nat)
    requires i < |s.callers|
    ensures StatusMove(s, StepCaller(s, i), i)
  {
  }

  lemma FailIsStatusMove(s: System, i: nat)
    requires i < |s.callers|
    ensures StatusMove(s, FailCaller(s, i), i)
  {
  }

  lemma MoveKeepsFrozen(s: System, t: System, i: nat)
    requires MutexInv(s) && FrozenInv(s) && i < |s.callers| && StatusMove(s, t, i)
    ensures FrozenInv(t)
  {
    forall j | 0 <= j < |t.callers| && t.callers[j].pc.ForceWriting? && IsAbsorbing(t.callers[j].pc.seen)
      ensures t.status == t.callers[j].pc.seen
    {
      if j != i {
        assert t.callers[j] == s.callers[j];
        assert HoldsMutex(s.callers[j].pc) && s.holder == Some(j);
        assert !HoldsMutex(s.callers[i].pc);
      }
    }
  }

  lemma ApplyKeepsFrozen(s: System, a: Action)
    requires MutexInv(s) && FrozenInv(s)
    ensures FrozenInv(Apply(s, a))
  {
    match a {
      case Spawn(_) =>
      case Step(i) =>
        if i < |s.callers| { StepIsStatusMove(s, i); MoveKeepsFrozen(s, StepCaller(s, i), i); }
      case Fail(i) =>
        if i < |s.callers| { FailIsStatusMove(s, i); MoveKeepsFrozen(s, FailCaller(s, i), i); }
    }
  }

  lemma {:induction false} FrozenHolds(initial: Status, actions: seq<Action>)
    ensures FrozenInv(Run(Fresh(initial), actions))
  {
    if actions != [] {
      var prefix := actions[..|actions| - 1];
      FrozenHolds(initial, prefix);
      MutexHolds(initial, prefix);
      ApplyKeepsFrozen(Run(Fresh(initial), prefix), actions[|actions| - 1]);
    }
  }

  // ---- The exact condition ----------------------------------------------------------------------------

  // The entry that the override caller i, about to write, will record names the status it overwrites.
  predicate RecordsTrueSource(t: System, i: nat)
    requires i < |t.callers| && t.callers[i].pc.ForceWriting?
  {
    StepCaller(t, i).writes == t.writes + [Write(Edge(t.status, t.callers[i].req.to), i)]
  }

  // However the other callers interleave until the override writes, its entry is truthful.
  ghost predicate AlwaysTruthful(s: System, i: nat)
    requires i < |s.callers| && s.callers[i].pc.ForceWriting?
  {
    forall cont: seq<Action> ::
      var t := Run(s, cont);
      i < |t.callers| && t.callers[i] == s.callers[i] ==> RecordsTrueSource(t, i)
  }

  lemma {:induction false} RunAppend(s: System, a: seq<Action>, b: seq<Action>)
    ensures Run(s, a + b) == Run(Run(s, a), b)
  {
    if b == [] {
      assert a + b == a;
    } else {
      assert (a + b)[..|a + b| - 1] == a + b[..|b| - 1];
      RunAppend(s, a, b[..|b| - 1]);
    }
  }

  // A status some transition leads away to.
  function Away(from: Status): (to: Status)
    requires !IsAbsorbing(from)
    ensures to != from && Validate(from, to) == Attempt
  {
    if from.Legacy? then Pending else Targets(from)[0]
  }

  // A transition that starts now and wins its swap.
  function Overtake(s: System, to: Status): seq<Action> {
    [Spawn(Transition(to))] + [Step(|s.callers|)] + [Step(|s.callers|)]
  }

  lemma OvertakeMoves(s: System, i: nat)
    requires i < |s.callers| && !IsAbsorbing(s.status)
    ensures var t := Run(s, Overtake(s, Away(s.status)));
      i < |t.callers| && t.callers[i] == s.callers[i] && t.status == Away(s.status)
  {
    var to, n := Away(s.status), |s.callers|;
    var a1 := [Spawn(Transition(to))];
    RunAppend(s, a1 + [Step(n)], [Step(n)]);
    RunAppend(s, a1, [Step(n)]);
    RunOne(s, Spawn(Transition(to)));
    var s1 := Apply(s, Spawn(Transition(to)));
    assert s1.callers[n] == Caller(Transition(to), |s.writes|, Reading(0));
    RunOne(s1, Step(n));
    var s2 := StepCaller(s1, n);
    assert s2 == Goto(s1, n, Swapping(0, s.status, |s.writes|));
    RunOne(s2, Step(n));
    assert StepCaller(s2, n).status == to;
  }

  lemma RunOne(s: System, a: Action)
    ensures Run(s, [a]) == Apply(s, a)
  {
    assert [a][..0] == [];
  }

  /** An override's entry names the status it overwrites in every continuation if and only if the
      status it read is `failed` or `rolled_back`: any other status can be moved by a compare-and-swap
      between the read and the write. */
  lemma OverrideIsTruthfulExactly(initial: Status, actions: seq<Action>, i: nat)
    requires i < |Run(Fresh(initial), actions).callers|
    requires Run(Fresh(initial), actions).callers[i].pc.ForceWriting?
    ensures var s := Run(Fresh(initial), actions);
      AlwaysTruthful(s, i) <==> IsAbsorbing(s.callers[i].pc.seen)
  {
    var s := Run(Fresh(initial), actions);
    if IsAbsorbing(s.callers[i].pc.seen) {
      forall cont: seq<Action> | var t := Run(s, cont); i < |t.callers| && t.callers[i] == s.callers[i]
        ensures RecordsTrueSource(Run(s, cont), i)
      {
        RunAppend(Fresh(initial), actions, cont);
        FrozenHolds(initial, actions + cont);
      }
    } else {
      MovableIsNotTruthful(s, i);
    }
  }

  lemma MovableIsNotTruthful(s: System, i: nat)
    requires i < |s.callers| && s.callers[i].pc.ForceWriting? && !IsAbsorbing(s.callers[i].pc.seen)
    ensures !AlwaysTruthful(s, i)
  {
    var seen := s.callers[i].pc.seen;
    if s.status != seen {
      var t := Run(s, []);
      assert !RecordsTrueSource(t, i) by { RecordsSeen(t, i); }
    } else {
      OvertakeMoves(s, i);
      var t := Run(s, Overtake(s, Away(seen)));
      assert !RecordsTrueSource(t, i) by { RecordsSeen(t, i); }
    }
  }

  lemma RecordsSeen(t: System, i: nat)
    requires i < |t.callers| && t.callers[i].pc.ForceWriting?
    ensures RecordsTrueSource(t, i) <==> t.callers[i].pc.seen == t.status
  {
    var w := StepCaller(t, i).writes;
    assert w == t.writes + [Write(Edge(t.callers[i].pc.seen, t.callers[i].req.to), i)];
    assert w[|w| - 1].edge.from == t.callers[i].pc.seen;
  }

  // ---- A stale entry in the stored history ---------------------------------------------------------------

  // The statements of both callers once the override has read and taken the mutex.
  const STALE: System := Fresh(Pending).(
    callers := [Caller(Force(Stopped), 0, ForceWriting(Pending, 0)), Caller(Transition(Building), 0, Swapping(0, Pending, 0))],
    holder := Some(0))

  function BothRead(): seq<Action> {
    [Spawn(Force(Stopped))] + [Spawn(Transition(Building))] + [Step(1)] + [Step(0)] + [Step(0)]
  }

  lemma RunSnoc(s: System, actions: seq<Action>, a: Action)
    ensures Run(s, actions + [a]) == Apply(Run(s, actions), a)
  {
    assert (actions + [a])[..|actions|] == actions;
  }

  lemma BothHaveRead()
    ensures Run(Fresh(Pending), BothRead()) == STALE
  {
    var s0 := Fresh(Pending);
    var a1 := [Spawn(Force(Stopped))];
    var a2 := a1 + [Spawn(Transition(Building))];
    var a3 := a2 + [Step(1)];   // the transition reads
    var a4 := a3 + [Step(0)];   // the override takes the mutex
    var forced := Caller(Force(Stopped), 0, ForceLocking);
    var mover := Caller(Transition(Building), 0, Reading(0));
    var swapping := mover.(pc := Swapping(0, Pending, 0));
    assert Run(s0, a2) == s0.(callers := [forced, mover]) by {
      RunOne(s0, Spawn(Force(Stopped)));
      RunSnoc(s0, a1, Spawn(Transition(Building)));
    }
    assert Run(s0, a3) == s0.(callers := [forced, swapping]) by { RunSnoc(s0, a2, Step(1)); }
    assert Run(s0, a4) == s0.(callers := [forced.(pc := ForceReading), swapping], holder := Some(0)) by {
      RunSnoc(s0, a3, Step(0));
    }
    RunSnoc(s0, a4, Step(0));   // the override reads
  }

  // The transition swaps, the override writes, loads and stores.
  function OverrideWins(): seq<Action> {
    [Step(1)] + [Step(0)] + [Step(0)] + [Step(0)]
  }

  lemma OverrideStores()
    ensures var s := Run(STALE, OverrideWins());
      && s.status == Stopped && s.history == [Edge(Pending, Stopped)] && s.holder.None? && s.dropped == []
      && s.writes == [Write(Edge(Pending, Building), 1), Write(Edge(Pending, Stopped), 0)]
      && |s.callers| == 2 && s.callers[0].pc.Returned? && s.callers[1] == Caller(Transition(Building), 0, Locking(Edge(Pending, Building)))
  {
    var s := STALE;
    var edge, forced := Edge(Pending, Building), Edge(Pending, Stopped);
    var mover := Caller(Transition(Building), 0, Locking(edge));
    var s1 := s.(status := Building, writes := [Write(edge, 1)], callers := [s.callers[0], mover]);
    assert Run(s, [Step(1)]) == s1 by { RunOne(s, Step(1)); }
    var s2 := s1.(status := Stopped, writes := [Write(edge, 1), Write(forced, 0)],
                  callers := [Caller(Force(Stopped), 0, LoadHistory(forced)), mover]);
    assert Run(s, [Step(1)] + [Step(0)]) == s2 by { RunSnoc(s, [Step(1)], Step(0)); }
    var s3 := s2.(callers := [Caller(Force(Stopped), 0, StoreHistory(forced, [])), mover]);
    assert Run(s, [Step(1)] + [Step(0)] + [Step(0)]) == s3 by { RunSnoc(s, [Step(1)] + [Step(0)], Step(0)); }
    RunSnoc(s, [Step(1)] + [Step(0)] + [Step(0)], Step(0));
  }

  /** A transition can slip between an override's read and its write: the stored history then holds
      pending -> stopped although the override replaced `building`. */
  lemma OverrideCanRecordStaleSource()
    ensures var s := Run(Fresh(Pending), BothRead() + OverrideWins());
      && s.status == Stopped && s.history == [Edge(Pending, Stopped)]
      && Edges(s.writes) == [Edge(Pending, Building), Edge(Pending, Stopped)]
  {
    RunAppend(Fresh(Pending), BothRead(), OverrideWins());
    BothHaveRead();
    OverrideStores();
    var first, last := Write(Edge(Pending, Building), 1), Write(Edge(Pending, Stopped), 0);
    EdgesSnoc([first], last);
    EdgesSnoc([], first);
    assert [] + [first] == [first] && [first] + [last] == [first, last];
  }
}
