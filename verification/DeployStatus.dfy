/**
  Status changes of one deployment row by any number of concurrent callers.

  A caller is one invocation of TransitionState (read, validate, compare-and-swap, then append to
  status_history under a mutex, with at most four attempts) or of forceStatus (read, write and
  append, all under the same mutex).  Every database statement and every mutex operation is one
  atomic step; callers interleave arbitrarily, and any statement may fail.

  `writes`, `dropped`, `born`, `readAt` and `at` are bookkeeping: no step reads them.
 */
module DeployStatus {
  import opened Common
  import opened DeployStates

  const MAX_ATTEMPTS := 4

  datatype Edge = Edge(from: Status, to: Status)

  // A status write that reached the row, and the caller that made it.
  datatype Write = Write(edge: Edge, writer: nat)

  datatype Request = Transition(to: Status) | Force(to: Status)

  datatype Outcome = Nil | InvalidTransition(seen: Status) | Conflict | DbFailure

  datatype Pc =
    | Reading(attempt: nat)
    | Swapping(attempt: nat, seen: Status, readAt: nat)
    | Locking(edge: Edge)
    | LoadHistory(edge: Edge)                       // holds the mutex
    | StoreHistory(edge: Edge, loaded: seq<Edge>)   // holds the mutex
    | Emitting(edge: Edge)
    | ForceLocking
    | ForceReading                                  // holds the mutex
    | ForceWriting(seen: Status, readAt: nat)       // holds the mutex
    | Returned(outcome: Outcome, at: nat)

  datatype Caller = Caller(req: Request, born: nat, pc: Pc)

  datatype System = System(
    initial: Status,
    status: Status,
    history: seq<Edge>,
    holder: Option<nat>,
    callers: seq<Caller>,
    writes: seq<Write>,
    dropped: seq<Edge>,
    failedEvents: nat)

  datatype Action = Spawn(req: Request) | Step(caller: nat) | Fail(caller: nat)

  function Fresh(status: Status): System {
    System(status, status, [], None, [], [], [], 0)
  }

  // ---- Steps -----------------------------------------------------------------------------------

  // The validation between the read and the compare-and-swap.
  datatype Verdict = AlreadyThere | Rejected | Attempt

  function Validate(current: Status, to: Status): Verdict {
    if current == to then AlreadyThere
    else if IsValidState(current) && !CanTransition(current, to) then Rejected
    else Attempt
  }

  function Goto(s: System, i: nat, pc: Pc): System
    requires i < |s.callers|
  {
    s.(callers := s.callers[i := s.callers[i].(pc := pc)])
  }

  function Return(s: System, i: nat, outcome: Outcome): System
    requires i < |s.callers|
  {
    Goto(s, i, Returned(outcome, |s.writes|))
  }

  function WriteStatus(s: System, i: nat, edge: Edge): System {
    s.(status := edge.to, writes := s.writes + [Write(edge, i)])
  }

  function Unlock(s: System): System {
    s.(holder := None)
  }

  // What follows the history append: a transition emits its events, an override is done.
  function AfterAppend(s: System, i: nat, edge: Edge): System
    requires i < |s.callers|
  {
    if s.callers[i].req.Transition? then Goto(s, i, Emitting(edge)) else Return(s, i, Nil)
  }

  function ReadStep(s: System, i: nat): System
    requires i < |s.callers| && s.callers[i].pc.Reading?
  {
    match Validate(s.status, s.callers[i].req.to)
    case AlreadyThere => Return(s, i, Nil)
    case Rejected => Return(s, i, InvalidTransition(s.status))
    case Attempt => Goto(s, i, Swapping(s.callers[i].pc.attempt, s.status, |s.writes|))
  }

  function SwapStep(s: System, i: nat): System
    requires i < |s.callers| && s.callers[i].pc.Swapping?
  {
    var pc := s.callers[i].pc;
    var edge := Edge(pc.seen, s.callers[i].req.to);
    if s.status == pc.seen then Goto(WriteStatus(s, i, edge), i, Locking(edge))
    else if pc.attempt + 1 < MAX_ATTEMPTS then Goto(s, i, Reading(pc.attempt + 1))
    else Return(s, i, Conflict)
  }

  function LockStep(s: System, i: nat): System
    requires i < |s.callers| && (s.callers[i].pc.Locking? || s.callers[i].pc.ForceLocking?)
  {
    if s.holder.Some? then s
    else
      var pc := s.callers[i].pc;
      Goto(s.(holder := Some(i)), i, if pc.Locking? then LoadHistory(pc.edge) else ForceReading)
  }

  function StoreStep(s: System, i: nat): System
    requires i < |s.callers| && s.callers[i].pc.StoreHistory?
  {
    var pc := s.callers[i].pc;
    AfterAppend(Unlock(s.(history := pc.loaded + [pc.edge])), i, pc.edge)
  }

  function EmitStep(s: System, i: nat): System
    requires i < |s.callers| && s.callers[i].pc.Emitting?
  {
    var edge := s.callers[i].pc.edge;
    var emitted := if edge.to == Failed && edge.from != Failed then 1 else 0;
    Return(s.(failedEvents := s.failedEvents + emitted), i, Nil)
  }

  function ForceReadStep(s: System, i: nat): System
    requires i < |s.callers| && s.callers[i].pc.ForceReading?
  {
    if s.status == s.callers[i].req.to then Return(Unlock(s), i, Nil)
    else Goto(s, i, ForceWriting(s.status, |s.writes|))
  }

  function ForceWriteStep(s: System, i: nat): System
    requires i < |s.callers| && s.callers[i].pc.ForceWriting?
  {
    var edge := Edge(s.callers[i].pc.seen, s.callers[i].req.to);
    Goto(WriteStatus(s, i, edge), i, LoadHistory(edge))
  }

  // The next atomic step of caller i; a blocked or finished caller stays where it is.
  function StepCaller(s: System, i: nat): System
    requires i < |s.callers|
  {
    match s.callers[i].pc
    case Reading(_) => ReadStep(s, i)
    case Swapping(_, _, _) => SwapStep(s, i)
    case Locking(_) => LockStep(s, i)
    case LoadHistory(edge) => Goto(s, i, StoreHistory(edge, s.history))
    case StoreHistory(_, _) => StoreStep(s, i)
    case Emitting(_) => EmitStep(s, i)
    case ForceLocking => LockStep(s, i)
    case ForceReading => ForceReadStep(s, i)
    case ForceWriting(_, _) => ForceWriteStep(s, i)
    case Returned(_, _) => s
  }

  // The next database statement of caller i fails.  A failed history read or write is only logged.
  function FailCaller(s: System, i: nat): System
    requires i < |s.callers|
  {
    var pc := s.callers[i].pc;
    match pc
    case Reading(_) => Return(s, i, DbFailure)
    case Swapping(_, _, _) => Return(s, i, DbFailure)
    case LoadHistory(edge) => AfterAppend(Unlock(Drop(s, edge)), i, edge)
    case StoreHistory(edge, _) => AfterAppend(Unlock(Drop(s, edge)), i, edge)
    case ForceReading => Return(Unlock(s), i, DbFailure)
    case ForceWriting(_, _) => Return(Unlock(s), i, DbFailure)
    case _ => s
  }

  function Drop(s: System, edge: Edge): System {
    s.(dropped := s.dropped + [edge])
  }

  function Entry(req: Request): Pc {
    if req.Transition? then Reading(0) else ForceLocking
  }

  function Apply(s: System, a: Action): System {
    match a
    case Spawn(req) => s.(callers := s.callers + [Caller(req, |s.writes|, Entry(req))])
    case Step(i) => if i < |s.callers| then StepCaller(s, i) else s
    case Fail(i) => if i < |s.callers| then FailCaller(s, i) else s
  }

  function Run(s: System, actions: seq<Action>): System
    decreases |actions|
  {
    if actions == [] then s else Apply(Run(s, actions[..|actions| - 1]), actions[|actions| - 1])
  }

  // ---- Vocabulary of the claims ----------------------------------------------------------------

  function Edges(ws: seq<Write>): (es: seq<Edge>)
    ensures |es| == |ws|
    ensures forall k :: 0 <= k < |ws| ==> es[k] == ws[k].edge
  {
    if ws == [] then [] else Edges(ws[..|ws| - 1]) + [ws[|ws| - 1].edge]
  }

  // The row's status after the first k writes.
  function StatusAt(initial: Status, ws: seq<Write>, k: nat): Status
    requires k <= |ws|
  {
    if k == 0 then initial else ws[k - 1].edge.to
  }

  // The history entry a caller still owes: it has written the status and not yet the history.
  function OwedBy(c: Caller): Option<Edge> {
    match c.pc
    case Locking(edge) => Some(edge)
    case LoadHistory(edge) => Some(edge)
    case StoreHistory(edge, _) => Some(edge)
    case _ => None
  }

  // How many callers owe the entry `e`.
  function Owed(callers: seq<Caller>, e: Edge): nat {
    if callers == [] then 0
    else Owed(callers[..|callers| - 1], e) + Unit(OwedBy(callers[|callers| - 1]) == Some(e))
  }

  predicate Idle(s: System) {
    forall i :: 0 <= i < |s.callers| ==> s.callers[i].pc.Returned?
  }

  // ---- Conservation: no status write ever loses its history entry -------------------------------

  lemma {:induction false} OwedUpdate(callers: seq<Caller>, i: nat, c: Caller, e: Edge)
    requires i < |callers|
    ensures Owed(callers[i := c], e) + Unit(OwedBy(callers[i]) == Some(e))
         == Owed(callers, e) + Unit(OwedBy(c) == Some(e))
  {
    var n := |callers| - 1;
    if i == n {
      assert callers[i := c][..n] == callers[..n];
    } else {
      assert callers[i := c][..n] == callers[..n][i := c];
      OwedUpdate(callers[..n], i, c, e);
    }
  }

  predicate HoldsMutex(pc: Pc) {
    pc.LoadHistory? || pc.StoreHistory? || pc.ForceReading? || pc.ForceWriting?
  }

  // The mutex is held exactly by the caller whose position says so, and the history a caller
  // loaded is still the stored one when it writes back.
  predicate MutexInv(s: System) {
    && (s.holder.Some? ==> s.holder.value < |s.callers|)
    && (forall i :: 0 <= i < |s.callers| ==> (HoldsMutex(s.callers[i].pc) <==> s.holder == Some(i)))
    && (forall i :: 0 <= i < |s.callers| && s.callers[i].pc.StoreHistory? ==>
          s.callers[i].pc.loaded == s.history)
  }

  // What one caller may do to the mutex and the history in one step.
  predicate MutexMove(s: System, t: System, i: nat)
    requires i < |s.callers|
  {
    && |t.callers| == |s.callers|
    && t.callers == s.callers[i := t.callers[i]]
    && var before := s.callers[i].pc;
       var after := t.callers[i].pc;
       && (after.StoreHistory? ==> after.loaded == t.history)
       && ((HoldsMutex(after) == HoldsMutex(before) && t.holder == s.holder && t.history == s.history)
           || (HoldsMutex(after) && s.holder == None && t.holder == Some(i) && t.history == s.history)
           || (!HoldsMutex(after) && s.holder == Some(i) && t.holder == None))
  }

  lemma MoveKeepsMutex(s: System, t: System, i: nat)
    requires MutexInv(s) && i < |s.callers| && MutexMove(s, t, i)
    ensures MutexInv(t)
  {
    forall j | 0 <= j < |t.callers|
      ensures HoldsMutex(t.callers[j].pc) <==> t.holder == Some(j)
      ensures t.callers[j].pc.StoreHistory? ==> t.callers[j].pc.loaded == t.history
    {
      assert HoldsMutex(s.callers[j].pc) <==> s.holder == Some(j);
      assert HoldsMutex(s.callers[i].pc) <==> s.holder == Some(i);
    }
  }

  lemma StepIsMutexMove(s: System, i: nat)
    requires MutexInv(s) && i < |s.callers|
    ensures MutexMove(s, StepCaller(s, i), i)
  {
    assert HoldsMutex(s.callers[i].pc) <==> s.holder == Some(i);
  }

  lemma FailIsMutexMove(s: System, i: nat)
    requires MutexInv(s) && i < |s.callers|
    ensures MutexMove(s, FailCaller(s, i), i)
  {
    assert HoldsMutex(s.callers[i].pc) <==> s.holder == Some(i);
  }

  lemma ApplyKeepsMutex(s: System, a: Action)
    requires MutexInv(s)
    ensures MutexInv(Apply(s, a))
  {
    match a {
      case Spawn(req) =>
      case Step(i) =>
        if i < |s.callers| { StepIsMutexMove(s, i); MoveKeepsMutex(s, StepCaller(s, i), i); }
      case Fail(i) =>
        if i < |s.callers| { FailIsMutexMove(s, i); MoveKeepsMutex(s, FailCaller(s, i), i); }
    }
  }

  lemma {:induction false} MutexHolds(initial: Status, actions: seq<Action>)
    ensures MutexInv(Run(Fresh(initial), actions))
  {
    if actions != [] {
      MutexHolds(initial, actions[..|actions| - 1]);
      ApplyKeepsMutex(Run(Fresh(initial), actions[..|actions| - 1]), actions[|actions| - 1]);
    }
  }

  function Count(es: seq<Edge>, e: Edge): nat {
    if es == [] then 0 else Count(es[..|es| - 1], e) + Unit(es[|es| - 1] == e)
  }

  lemma {:induction false} CountIsMultiplicity(es: seq<Edge>, e: Edge)
    ensures Count(es, e) == multiset(es)[e]
  {
    if es != [] {
      CountIsMultiplicity(es[..|es| - 1], e);
      assert es == es[..|es| - 1] + [es[|es| - 1]];
    }
  }

  // Entries of `e` that are recorded, owed or lost to a failed history write.
  function Accounted(s: System, e: Edge): nat {
    Count(s.history, e) + Owed(s.callers, e) + Count(s.dropped, e)
  }

  function Written(s: System, e: Edge): nat {
    Count(Edges(s.writes), e)
  }

  lemma CountSnoc(es: seq<Edge>, x: Edge, e: Edge)
    ensures Count(es + [x], e) == Count(es, e) + Unit(x == e)
  {
    assert (es + [x])[..|es|] == es;
  }

  lemma EdgesSnoc(ws: seq<Write>, w: Write)
    ensures Edges(ws + [w]) == Edges(ws) + [w.edge]
  {
    assert (ws + [w])[..|ws|] == ws;
  }

  // What one caller may do to the ledger in one step: write the status and start owing the entry,
  // settle the entry it owes in the history or among the dropped ones, or neither.
  predicate LedgerMove(s: System, t: System, i: nat)
    requires i < |s.callers|
  {
    && |t.callers| == |s.callers|
    && t.callers == s.callers[i := t.callers[i]]
    && var before := OwedBy(s.callers[i]);
       var after := OwedBy(t.callers[i]);
       if t.writes != s.writes then
         && before.None? && after.Some?
         && t.writes == s.writes + [Write(after.value, i)]
         && t.history == s.history && t.dropped == s.dropped
       else if before == after then
         t.history == s.history && t.dropped == s.dropped
       else
         && before.Some? && after.None?
         && ((t.history == s.history + [before.value] && t.dropped == s.dropped)
             || (t.history == s.history && t.dropped == s.dropped + [before.value]))
  }

  lemma StepIsLedgerMove(s: System, i: nat)
    requires MutexInv(s) && i < |s.callers|
    ensures LedgerMove(s, StepCaller(s, i), i)
  {
  }

  lemma FailIsLedgerMove(s: System, i: nat)
    requires i < |s.callers|
    ensures LedgerMove(s, FailCaller(s, i), i)
  {
  }

  lemma MoveConserves(s: System, t: System, i: nat, e: Edge)
    requires i < |s.callers| && LedgerMove(s, t, i)
    ensures Written(t, e) - Accounted(t, e) == Written(s, e) - Accounted(s, e)
  {
    OwedUpdate(s.callers, i, t.callers[i], e);
    var before, after := OwedBy(s.callers[i]), OwedBy(t.callers[i]);
    if t.writes != s.writes {
      EdgesSnoc(s.writes, Write(after.value, i));
      CountSnoc(Edges(s.writes), after.value, e);
    } else if before != after {
      CountSnoc(s.history, before.value, e);
      CountSnoc(s.dropped, before.value, e);
    }
  }

  lemma SpawnConserves(s: System, req: Request, e: Edge)
    ensures Owed(Apply(s, Spawn(req)).callers, e) == Owed(s.callers, e)
  {
    var t := Apply(s, Spawn(req));
    assert t.callers[..|t.callers| - 1] == s.callers;
  }

  lemma ApplyConserves(s: System, a: Action, e: Edge)
    requires MutexInv(s)
    ensures Written(Apply(s, a), e) - Accounted(Apply(s, a), e) == Written(s, e) - Accounted(s, e)
  {
    match a {
      case Spawn(req) => SpawnConserves(s, req, e);
      case Step(i) =>
        if i < |s.callers| { StepIsLedgerMove(s, i); MoveConserves(s, StepCaller(s, i), i, e); }
      case Fail(i) =>
        if i < |s.callers| { FailIsLedgerMove(s, i); MoveConserves(s, FailCaller(s, i), i, e); }
    }
  }

  lemma {:induction false} RunConserves(initial: Status, actions: seq<Action>, e: Edge)
    ensures Written(Run(Fresh(initial), actions), e) == Accounted(Run(Fresh(initial), actions), e)
  {
    if actions != [] {
      var prefix := actions[..|actions| - 1];
      RunConserves(initial, prefix, e);
      MutexHolds(initial, prefix);
      ApplyConserves(Run(Fresh(initial), prefix), actions[|actions| - 1], e);
    }
  }

  /** Every interleaving of transitions, overrides and statement failures: the applied status
      writes along an edge are exactly the recorded history entries, plus the entries still owed by
      callers between their status write and their history write, plus the entries whose history
      write failed. */
  lemma HistoryIsConserved(initial: Status, actions: seq<Action>, e: Edge)
    ensures var s := Run(Fresh(initial), actions);
      multiset(Edges(s.writes))[e] == multiset(s.history)[e] + Owed(s.callers, e) + multiset(s.dropped)[e]
  {
    var s := Run(Fresh(initial), actions);
    RunConserves(initial, actions, e);
    CountIsMultiplicity(Edges(s.writes), e);
    CountIsMultiplicity(s.history, e);
    CountIsMultiplicity(s.dropped, e);
  }
}
