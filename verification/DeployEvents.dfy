/**
  The `deploy.failed` events of one deployment row, and how long a call may take: claims about all
  interleavings of the machine in DeployStatus.
 */
module DeployEvents {
  import opened Common
  import opened DeployStates
  import opened DeployStatus
  import opened DeployOutcomes
  import opened DeployRuns

  // ---- Events are exact ---------------------------------------------------------------------------

  // A write into `failed` made by a transition; an override emits no event.
  predicate Announced(w: Write, callers: seq<Caller>) {
    w.edge.to == Failed && w.writer < |callers| && callers[w.writer].req.Transition?
  }

  function AnnouncedWrites(ws: seq<Write>, callers: seq<Caller>): nat {
    if ws == [] then 0
    else AnnouncedWrites(ws[..|ws| - 1], callers) + Unit(Announced(ws[|ws| - 1], callers))
  }

  // The transition has written `failed` and has not yet come to its event emission.
  predicate OwesFailedEvent(c: Caller) {
    c.req.Transition? &&
    match c.pc
    case Locking(edge) => edge.to == Failed
    case LoadHistory(edge) => edge.to == Failed
    case StoreHistory(edge, _) => edge.to == Failed
    case Emitting(edge) => edge.to == Failed
    case _ => false
  }

  function FailedEventsOwed(callers: seq<Caller>): nat {
    if callers == [] then 0
    else FailedEventsOwed(callers[..|callers| - 1]) + Unit(OwesFailedEvent(callers[|callers| - 1]))
  }

  // Where a caller can be: a transition never writes the status it read, and only transitions emit.
  predicate InPlace(c: Caller) {
    match c.pc
    case Reading(_) => c.req.Transition?
    case Swapping(_, seen, _) => c.req.Transition? && seen != c.req.to
    case Locking(edge) => c.req.Transition? && edge.from != edge.to
    case LoadHistory(edge) => c.req.Transition? ==> edge.from != edge.to
    case StoreHistory(edge, _) => c.req.Transition? ==> edge.from != edge.to
    case Emitting(edge) => c.req.Transition? && edge.from != edge.to
    case ForceLocking => c.req.Force?
    case ForceReading => c.req.Force?
    case ForceWriting(_, _) => c.req.Force?
    case Returned(_, _) => true
  }

  predicate EventInv(s: System) {
    && (forall i :: 0 <= i < |s.callers| ==> InPlace(s.callers[i]))
    && (forall k :: 0 <= k < |s.writes| ==> s.writes[k].writer < |s.callers|)
    && AnnouncedWrites(s.writes, s.callers) == s.failedEvents + FailedEventsOwed(s.callers)
  }

  // What one caller may do to the events: write and start owing one, settle what it owes, or neither.
  predicate EventMove(s: System, t: System, i: nat)
    requires i < |s.callers|
  {
    && |t.callers| == |s.callers| && t.callers == s.callers[i := t.callers[i]]
    && t.callers[i].req == s.callers[i].req && InPlace(t.callers[i])
    && var before, after := OwesFailedEvent(s.callers[i]), OwesFailedEvent(t.callers[i]);
       if t.writes == s.writes then t.failedEvents + Unit(after) == s.failedEvents + Unit(before)
       else
         && |t.writes| == |s.writes| + 1 && t.writes[..|s.writes|] == s.writes && t.writes[|s.writes|].writer == i
         && t.failedEvents == s.failedEvents && !before
         && (after <==> Announced(t.writes[|s.writes|], t.callers))
  }

  lemma StepIsEventMove(s: System, i: nat)
    requires i < |s.callers| && InPlace(s.callers[i])
    ensures EventMove(s, StepCaller(s, i), i)
  {
  }

  lemma FailIsEventMove(s: System, i: nat)
    requires i < |s.callers| && InPlace(s.callers[i])
    ensures EventMove(s, FailCaller(s, i), i)
  {
  }

  lemma {:induction false} EventsOwedUpdate(callers: seq<Caller>, i: nat, c: Caller)
    requires i < |callers|
    ensures FailedEventsOwed(callers[i := c]) + Unit(OwesFailedEvent(callers[i]))
         == FailedEventsOwed(callers) + Unit(OwesFailedEvent(c))
  {
    var n := |callers| - 1;
    if i == n {
      assert callers[i := c][..n] == callers[..n];
    } else {
      assert callers[i := c][..n] == callers[..n][i := c];
      EventsOwedUpdate(callers[..n], i, c);
    }
  }

  // Callers that come later, or move on, do not change who made a write.
  lemma {:induction false} AnnouncedStays(ws: seq<Write>, before: seq<Caller>, after: seq<Caller>)
    requires |before| <= |after| && forall i :: 0 <= i < |before| ==> after[i].req == before[i].req
    requires forall k :: 0 <= k < |ws| ==> ws[k].writer < |before|
    ensures AnnouncedWrites(ws, after) == AnnouncedWrites(ws, before)
  {
    if ws != [] { AnnouncedStays(ws[..|ws| - 1], before, after); }
  }

  lemma MoveKeepsEvents(s: System, t: System, i: nat)
    requires EventInv(s) && i < |s.callers| && EventMove(s, t, i)
    ensures EventInv(t)
  {
    EventsOwedUpdate(s.callers, i, t.callers[i]);
    AnnouncedStays(s.writes, s.callers, t.callers);
    if t.writes != s.writes {
      assert forall k :: 0 <= k < |s.writes| ==> t.writes[k] == t.writes[..|s.writes|][k];
    }
  }

  lemma SpawnKeepsEvents(s: System, req: Request)
    requires EventInv(s)
    ensures EventInv(Apply(s, Spawn(req)))
  {
    var t := Apply(s, Spawn(req));
    assert t.callers[..|t.callers| - 1] == s.callers;
    AnnouncedStays(s.writes, s.callers, t.callers);
  }

  lemma ApplyKeepsEvents(s: System, a: Action)
    requires EventInv(s)
    ensures EventInv(Apply(s, a))
  {
    match a {
      case Spawn(req) => SpawnKeepsEvents(s, req);
      case Step(i) => if i < |s.callers| { StepIsEventMove(s, i); MoveKeepsEvents(s, StepCaller(s, i), i); }
      case Fail(i) => if i < |s.callers| { FailIsEventMove(s, i); MoveKeepsEvents(s, FailCaller(s, i), i); }
    }
  }

  /** In every interleaving, also when statements fail: the `deploy.failed` events emitted and those
      still owed are exactly the writes into `failed` that transitions made. */
  lemma {:induction false} FailedEventsAreExact(initial: Status, actions: seq<Action>)
    ensures EventInv(Run(Fresh(initial), actions))
  {
    if actions != [] {
      FailedEventsAreExact(initial, actions[..|actions| - 1]);
      ApplyKeepsEvents(Run(Fresh(initial), actions[..|actions| - 1]), actions[|actions| - 1]);
    }
  }

  lemma {:induction false} NothingOwedWhenIdle(callers: seq<Caller>)
    requires forall i :: 0 <= i < |callers| ==> callers[i].pc.Returned?
    ensures FailedEventsOwed(callers) == 0
  {
    if callers != [] { NothingOwedWhenIdle(callers[..|callers| - 1]); }
  }

  /** Once all callers have returned, every write of a transition into `failed` has had its event. */
  lemma EveryFailureIsAnnounced(initial: Status, actions: seq<Action>)
    requires Idle(Run(Fresh(initial), actions))
    ensures var s := Run(Fresh(initial), actions); s.failedEvents == AnnouncedWrites(s.writes, s.callers)
  {
    FailedEventsAreExact(initial, actions);
    NothingOwedWhenIdle(Run(Fresh(initial), actions).callers);
  }

  // ---- Runs of transitions only -----------------------------------------------------------------------

  lemma {:induction false} AllAnnounced(ws: seq<Write>, callers: seq<Caller>)
    requires forall i :: 0 <= i < |callers| ==> callers[i].req.Transition?
    requires forall k :: 0 <= k < |ws| ==> ws[k].writer < |callers|
    ensures AnnouncedWrites(ws, callers) == Ins(Edges(ws), Failed)
  {
    if ws != [] {
      AllAnnounced(ws[..|ws| - 1], callers);
      assert Edges(ws)[..|ws| - 1] == Edges(ws[..|ws| - 1]);
    }
  }

  lemma {:induction false} SomeEntry(es: seq<Edge>, state: Status) returns (k: nat)
    requires Ins(es, state) > 0
    ensures k < |es| && es[k].to == state
  {
    k := |es| - 1;
    if es[k].to != state { k := SomeEntry(es[..k], state); }
  }

  // On a path from a state other than `failed`, that state is entered once if the path ends there and
  // never otherwise.
  lemma FailedIsEntered(initial: Status, ws: seq<Write>)
    requires Linked(initial, ws) && IsValidState(initial) && initial != Failed
    requires forall k :: 0 <= k < |ws| ==> !IsAbsorbing(ws[k].edge.from)
    ensures Ins(Edges(ws), Failed) == Unit(StatusAt(initial, ws, |ws|) == Failed)
  {
    FailedAtMostOnce(initial, ws);
    if Ins(Edges(ws), Failed) > 0 {
      var k := SomeEntry(Edges(ws), Failed);
      AbsorbedAtEnd(initial, ws, k + 1);
    }
  }

  /** However many transitions race, `deploy.failed` is emitted at most once per deployment; once all of
      them have returned, it was emitted exactly if the deployment has failed. */
  lemma FailedEventExactlyOnce(initial: Status, actions: seq<Action>)
    requires IsValidState(initial) && initial != Failed && OnlyTransitions(actions)
    ensures var s := Run(Fresh(initial), actions);
      && s.failedEvents <= Unit(s.status == Failed)
      && (Idle(s) ==> s.failedEvents == Unit(s.status == Failed))
  {
    var s := Run(Fresh(initial), actions);
    FailedEventsAreExact(initial, actions);
    StatusFollowsTable(initial, actions);
    TransitionsLink(initial, actions);
    JustifiedHolds(initial, actions);
    AllAnnounced(s.writes, s.callers);
    FailedIsEntered(initial, s.writes);
    if Idle(s) { NothingOwedWhenIdle(s.callers); }
  }

  // ---- Every call ends -----------------------------------------------------------------------------------

  // The steps a caller can still take.
  function StepsLeft(pc: Pc): int {
    match pc
    case Reading(attempt) => 2 * (MAX_ATTEMPTS - attempt) + 4
    case Swapping(attempt, _, _) => 2 * (MAX_ATTEMPTS - attempt) + 3
    case Locking(_) => 4
    case LoadHistory(_) => 3
    case StoreHistory(_, _) => 2
    case Emitting(_) => 1
    case ForceLocking => 6
    case ForceReading => 5
    case ForceWriting(_, _) => 4
    case Returned(_, _) => 0
  }

  predicate Waits(s: System, i: nat)
    requires i < |s.callers|
  {
    (s.callers[i].pc.Locking? || s.callers[i].pc.ForceLocking?) && s.holder.Some?
  }

  // Attempts are counted from 0 and never reach the limit.
  predicate AttemptsOk(s: System) {
    forall i :: 0 <= i < |s.callers| ==>
      && (s.callers[i].pc.Reading? ==> s.callers[i].pc.attempt < MAX_ATTEMPTS)
      && (s.callers[i].pc.Swapping? ==> s.callers[i].pc.attempt < MAX_ATTEMPTS)
  }

  lemma {:induction false} AttemptsHold(initial: Status, actions: seq<Action>)
    ensures AttemptsOk(Run(Fresh(initial), actions))
  {
    if actions != [] {
      AttemptsHold(initial, actions[..|actions| - 1]);
      ApplyKeepsAttempts(Run(Fresh(initial), actions[..|actions| - 1]), actions[|actions| - 1]);
    }
  }

  lemma ApplyKeepsAttempts(s: System, a: Action)
    requires AttemptsOk(s)
    ensures AttemptsOk(Apply(s, a))
  {
    match a {
      case Spawn(_) =>
      case Step(i) => if i < |s.callers| { OnlyCallerMoves(s, i); }
      case Fail(i) => if i < |s.callers| { OnlyCallerMoves(s, i); }
    }
  }

  // The caller's next step brings it closer to its return, unless it waits for the mutex; then the
  // holder is another caller whose next step does so.
  predicate MovesOn(s: System, i: nat)
    requires i < |s.callers|
  {
    && 0 <= StepsLeft(s.callers[i].pc) <= 12
    && (!Waits(s, i) ==> s.callers[i].pc.Returned? || GetsCloser(s, i))
    && (Waits(s, i) ==> var h := s.holder.value; h != i && h < |s.callers| && GetsCloser(s, h))
  }

  predicate GetsCloser(s: System, i: nat)
    requires i < |s.callers|
  {
    && |StepCaller(s, i).callers| == |s.callers|
    && StepsLeft(StepCaller(s, i).callers[i].pc) < StepsLeft(s.callers[i].pc)
  }

  /** In every interleaving calls end: each step of a caller brings it closer to its return, at most
      twelve such steps away, unless it waits for the mutex; and then the holder's next step does. */
  lemma CallsEnd(initial: Status, actions: seq<Action>, i: nat)
    requires i < |Run(Fresh(initial), actions).callers|
    ensures MovesOn(Run(Fresh(initial), actions), i)
  {
    AttemptsHold(initial, actions);
    MutexHolds(initial, actions);
    CallerMovesOn(Run(Fresh(initial), actions), i);
  }

  lemma CallerMovesOn(s: System, i: nat)
    requires AttemptsOk(s) && MutexInv(s) && i < |s.callers|
    ensures MovesOn(s, i)
  {
    if Waits(s, i) {
      var h := s.holder.value;
      assert HoldsMutex(s.callers[h].pc) && !HoldsMutex(s.callers[i].pc);
      StepCloser(s, h);
    } else if !s.callers[i].pc.Returned? {
      StepCloser(s, i);
    }
  }

  lemma StepCloser(s: System, i: nat)
    requires AttemptsOk(s) && i < |s.callers| && !Waits(s, i) && !s.callers[i].pc.Returned?
    ensures GetsCloser(s, i)
  {
  }

  // ---- An override on its own ---------------------------------------------------------------------------------

  function StepN(s: System, i: nat, n: nat): System {
    if n == 0 then s else Apply(StepN(s, i, n - 1), Step(i))
  }

  /** A lone override leaves the row in the requested status and records the edge it took, if the
      status was another; and returns. */
  lemma SoloOverride(s: System, to: Status)
    requires s.holder.None?
    ensures var i := |s.callers|;
      var t := StepN(Apply(s, Spawn(Force(to))), i, 5);
      && t.status == to && t.holder.None? && |t.callers| == i + 1 && t.callers[i].pc.Returned?
      && t.history == if s.status == to then s.history else s.history + [Edge(s.status, to)]
  {
    var i := |s.callers|;
    var s0 := Apply(s, Spawn(Force(to)));
    assert StepN(s0, i, 0) == s0;
    var s1 := StepN(s0, i, 1);
    assert s1 == s0.(holder := Some(i), callers := s0.callers[i := s0.callers[i].(pc := ForceReading)]);
    var s2 := StepN(s0, i, 2);
    assert s2 == ForceReadStep(s1, i);
    var s3 := StepN(s0, i, 3);
    var s4 := StepN(s0, i, 4);
    if s.status != to {
      assert s3 == ForceWriteStep(s2, i);
      assert s4.callers[i].pc == StoreHistory(Edge(s.status, to), s.history);
    }
  }
}
