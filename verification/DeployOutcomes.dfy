/**
  What callers of TransitionState may conclude from its outcome, and what every run of
  transitions does to the row: claims about all interleavings of the machine in DeployStatus.
 */
module DeployOutcomes {
  import opened DeployStates
  import opened DeployStatus

  // ---- Outcomes are justified by an instant inside the call --------------------------------------

  // At some instant between `lo` and `hi` writes the row's status satisfied `p`.
  ghost predicate SomeInstant(initial: Status, ws: seq<Write>, lo: nat, hi: nat, p: Status -> bool) {
    exists k: nat :: lo <= k <= hi && k <= |ws| && p(StatusAt(initial, ws, k))
  }

  predicate NeverWrote(ws: seq<Write>, i: nat) {
    forall k :: 0 <= k < |ws| ==> ws[k].writer != i
  }

  ghost predicate OutcomeJustified(initial: Status, ws: seq<Write>, i: nat, c: Caller)
    requires c.pc.Returned?
  {
    && c.born <= c.pc.at <= |ws|
    && match c.pc.outcome
       case Nil =>
         SomeInstant(initial, ws, c.born, c.pc.at, x => x == c.req.to)
       case InvalidTransition(seen) =>
         && SomeInstant(initial, ws, c.born, c.pc.at, x => x == seen)
         && IsValidState(seen) && seen != c.req.to && !CanTransition(seen, c.req.to)
       case Conflict =>
         c.pc.at - c.born >= MAX_ATTEMPTS && NeverWrote(ws, i)
       case DbFailure => true
  }

  ghost predicate Justified(initial: Status, ws: seq<Write>, i: nat, c: Caller) {
    && c.born <= |ws|
    && match c.pc
       case Reading(attempt) =>
         && c.req.Transition? && attempt < MAX_ATTEMPTS
         && |ws| - c.born >= attempt && NeverWrote(ws, i)
       case Swapping(attempt, seen, readAt) =>
         && c.req.Transition? && attempt < MAX_ATTEMPTS
         && c.born + attempt <= readAt <= |ws| && NeverWrote(ws, i)
         && StatusAt(initial, ws, readAt) == seen
         && Validate(seen, c.req.to) == Attempt
       case Locking(edge) =>
         edge.to == c.req.to && SomeInstant(initial, ws, c.born, |ws|, x => x == edge.to)
       case LoadHistory(edge) =>
         edge.to == c.req.to && SomeInstant(initial, ws, c.born, |ws|, x => x == edge.to)
       case StoreHistory(edge, _) =>
         edge.to == c.req.to && SomeInstant(initial, ws, c.born, |ws|, x => x == edge.to)
       case Emitting(edge) =>
         edge.to == c.req.to && SomeInstant(initial, ws, c.born, |ws|, x => x == edge.to)
       case ForceLocking => c.req.Force?
       case ForceReading => c.req.Force?
       case ForceWriting(seen, readAt) =>
         c.req.Force? && c.born <= readAt <= |ws| && StatusAt(initial, ws, readAt) == seen
       case Returned(_, _) => OutcomeJustified(initial, ws, i, c)
  }

  ghost predicate JustifiedInv(s: System) {
    && s.status == StatusAt(s.initial, s.writes, |s.writes|)
    && (forall k :: 0 <= k < |s.writes| ==> s.writes[k].writer < |s.callers|)
    && forall i :: 0 <= i < |s.callers| ==> Justified(s.initial, s.writes, i, s.callers[i])
  }

  lemma InstantSurvives(initial: Status, ws: seq<Write>, w: Write, lo: nat, hi: nat, hi': nat, p: Status -> bool)
    requires hi <= hi' && SomeInstant(initial, ws, lo, hi, p)
    ensures SomeInstant(initial, ws + [w], lo, hi', p)
  {
    var k: nat :| lo <= k <= hi && k <= |ws| && p(StatusAt(initial, ws, k));
    assert StatusAt(initial, ws + [w], k) == StatusAt(initial, ws, k);
  }

  // Another caller's write changes nothing a caller has already observed.
  lemma JustifiedSurvives(initial: Status, ws: seq<Write>, w: Write, i: nat, c: Caller)
    requires Justified(initial, ws, i, c) && w.writer != i
    ensures Justified(initial, ws + [w], i, c)
  {
    match c.pc {
      case Locking(edge) => InstantSurvives(initial, ws, w, c.born, |ws|, |ws| + 1, x => x == edge.to);
      case LoadHistory(edge) => InstantSurvives(initial, ws, w, c.born, |ws|, |ws| + 1, x => x == edge.to);
      case StoreHistory(edge, _) => InstantSurvives(initial, ws, w, c.born, |ws|, |ws| + 1, x => x == edge.to);
      case Emitting(edge) => InstantSurvives(initial, ws, w, c.born, |ws|, |ws| + 1, x => x == edge.to);
      case Returned(outcome, at) =>
        match outcome {
          case Nil => InstantSurvives(initial, ws, w, c.born, at, at, x => x == c.req.to);
          case InvalidTransition(seen) => InstantSurvives(initial, ws, w, c.born, at, at, x => x == seen);
          case _ =>
        }
      case _ =>
    }
  }

  lemma ReadJustified(s: System, i: nat)
    requires JustifiedInv(s) && i < |s.callers| && s.callers[i].pc.Reading?
    ensures Justified(s.initial, s.writes, i, ReadStep(s, i).callers[i])
  {
    assert Justified(s.initial, s.writes, i, s.callers[i]);
    assert StatusAt(s.initial, s.writes, |s.writes|) == s.status;
  }

  lemma SwapJustified(s: System, i: nat)
    requires JustifiedInv(s) && i < |s.callers| && s.callers[i].pc.Swapping?
    ensures Justified(s.initial, SwapStep(s, i).writes, i, SwapStep(s, i).callers[i])
  {
    assert Justified(s.initial, s.writes, i, s.callers[i]);
    var t := SwapStep(s, i);
    if t.writes != s.writes {
      assert StatusAt(t.initial, t.writes, |t.writes|) == t.callers[i].req.to;
    }
  }

  lemma OtherStepJustified(s: System, i: nat)
    requires JustifiedInv(s) && i < |s.callers|
    requires !s.callers[i].pc.Reading? && !s.callers[i].pc.Swapping?
    ensures Justified(s.initial, StepCaller(s, i).writes, i, StepCaller(s, i).callers[i])
  {
    var t := StepCaller(s, i);
    assert Justified(s.initial, s.writes, i, s.callers[i]);
    assert StatusAt(s.initial, s.writes, |s.writes|) == s.status;
    if s.callers[i].pc.ForceWriting? {
      assert StatusAt(t.initial, t.writes, |t.writes|) == t.callers[i].req.to;
    }
  }

  lemma StepJustified(s: System, i: nat)
    requires JustifiedInv(s) && i < |s.callers|
    ensures Justified(s.initial, StepCaller(s, i).writes, i, StepCaller(s, i).callers[i])
  {
    if s.callers[i].pc.Reading? {
      ReadJustified(s, i);
    } else if s.callers[i].pc.Swapping? {
      SwapJustified(s, i);
    } else {
      OtherStepJustified(s, i);
    }
  }

  lemma FailJustified(s: System, i: nat)
    requires JustifiedInv(s) && i < |s.callers|
    ensures Justified(s.initial, FailCaller(s, i).writes, i, FailCaller(s, i).callers[i])
  {
    assert Justified(s.initial, s.writes, i, s.callers[i]);
  }

  lemma StepMovesLog(s: System, i: nat)
    requires i < |s.callers| && s.status == StatusAt(s.initial, s.writes, |s.writes|)
    ensures var t := StepCaller(s, i);
      && t.initial == s.initial
      && t.status == StatusAt(t.initial, t.writes, |t.writes|)
      && (t.writes == s.writes ||
          (|t.writes| == |s.writes| + 1 && t.writes == s.writes + [t.writes[|s.writes|]] &&
           t.writes[|s.writes|].writer == i))
  {
  }

  lemma MoveKeepsJustified(s: System, t: System, i: nat)
    requires JustifiedInv(s) && i < |s.callers| && LedgerMove(s, t, i)
    requires t.initial == s.initial && t.status == StatusAt(t.initial, t.writes, |t.writes|)
    requires Justified(t.initial, t.writes, i, t.callers[i])
    ensures JustifiedInv(t)
  {
    forall j | 0 <= j < |t.callers| ensures Justified(t.initial, t.writes, j, t.callers[j]) {
      if j != i && t.writes != s.writes {
        JustifiedSurvives(s.initial, s.writes, t.writes[|s.writes|], j, s.callers[j]);
      }
    }
  }

  lemma ApplyKeepsJustified(s: System, a: Action)
    requires MutexInv(s) && JustifiedInv(s)
    ensures JustifiedInv(Apply(s, a))
  {
    match a {
      case Spawn(req) =>
        var t := Apply(s, a);
        forall j | 0 <= j < |t.callers| ensures Justified(t.initial, t.writes, j, t.callers[j]) {
          if j < |s.callers| {
            assert t.callers[j] == s.callers[j];
          }
        }
      case Step(i) =>
        if i < |s.callers| {
          StepIsLedgerMove(s, i);
          StepMovesLog(s, i);
          StepJustified(s, i);
          MoveKeepsJustified(s, StepCaller(s, i), i);
        }
      case Fail(i) =>
        if i < |s.callers| {
          FailIsLedgerMove(s, i);
          FailJustified(s, i);
          MoveKeepsJustified(s, FailCaller(s, i), i);
        }
    }
  }

  lemma {:induction false} JustifiedHolds(initial: Status, actions: seq<Action>)
    ensures JustifiedInv(Run(Fresh(initial), actions))
  {
    if actions != [] {
      var prefix := actions[..|actions| - 1];
      JustifiedHolds(initial, prefix);
      MutexHolds(initial, prefix);
      ApplyKeepsJustified(Run(Fresh(initial), prefix), actions[|actions| - 1]);
    }
  }

  /** In every interleaving, the outcome of a finished TransitionState call is justified inside the
      call: nil means the row was in the requested status at some instant between the call's start
      and its return; invalid-transition means it was, at such an instant, in a declared state
      without that edge; and conflict means at least four status writes, none of them the caller's,
      landed during the call. */
  lemma OutcomesAreJustified(initial: Status, actions: seq<Action>, i: nat)
    requires i < |Run(Fresh(initial), actions).callers|
    requires var c := Run(Fresh(initial), actions).callers[i]; c.req.Transition? && c.pc.Returned?
    ensures var s := Run(Fresh(initial), actions);
      var c := s.callers[i];
      && c.born <= c.pc.at <= |s.writes|
      && (c.pc.outcome.Nil? ==>
            exists k: nat :: c.born <= k <= c.pc.at && StatusAt(initial, s.writes, k) == c.req.to)
      && (c.pc.outcome.InvalidTransition? ==>
            exists k: nat :: c.born <= k <= c.pc.at
              && var seen := StatusAt(initial, s.writes, k);
                 seen == c.pc.outcome.seen && IsValidState(seen) && seen != c.req.to && !CanTransition(seen, c.req.to))
      && (c.pc.outcome.Conflict? ==>
            |s.writes[c.born..c.pc.at]| >= MAX_ATTEMPTS
            && forall w :: w in s.writes[c.born..c.pc.at] ==> w.writer != i)
  {
    JustifiedHolds(initial, actions);
    var s := Run(Fresh(initial), actions);
    assert Justified(s.initial, s.writes, i, s.callers[i]);
    RunKeepsInitial(initial, actions);
  }

  lemma ApplyKeepsInitial(s: System, a: Action)
    ensures Apply(s, a).initial == s.initial
  {
  }

  lemma {:induction false} RunKeepsInitial(initial: Status, actions: seq<Action>)
    ensures Run(Fresh(initial), actions).initial == initial
  {
    if actions != [] {
      var s := Run(Fresh(initial), actions[..|actions| - 1]);
      RunKeepsInitial(initial, actions[..|actions| - 1]);
      ApplyKeepsInitial(s, actions[|actions| - 1]);
    }
  }
}
