/**
  Whole runs of a deployment row: which statuses it can pass through, how often it can fail, and how
  its recorded history balances.
 */
module DeployRuns {
  import opened Common
  import opened DeployStates
  import opened DeployStatus
  import opened DeployOutcomes

  predicate OnlyTransitions(actions: seq<Action>) {
    forall k :: 0 <= k < |actions| ==> actions[k].Spawn? ==> actions[k].req.Transition?
  }

  predicate NoFailures(actions: seq<Action>) {
    forall k :: 0 <= k < |actions| ==> !actions[k].Fail?
  }

  // ---- Runs of TransitionState only: the write log is a path of the edge table --------------------

  predicate TransitionCallers(s: System) {
    forall i :: 0 <= i < |s.callers| ==> s.callers[i].req.Transition?
  }

  // Every write leaves the status it found there, along an edge the machine declares (a legacy
  // status may be left towards anything).
  predicate Linked(initial: Status, ws: seq<Write>) {
    forall k :: 0 <= k < |ws| ==>
      && ws[k].edge.from == StatusAt(initial, ws, k)
      && (IsValidState(ws[k].edge.from) ==> CanTransition(ws[k].edge.from, ws[k].edge.to))
  }

  lemma LinkedExtends(initial: Status, ws: seq<Write>, w: Write)
    requires Linked(initial, ws)
    requires w.edge.from == StatusAt(initial, ws, |ws|)
    requires IsValidState(w.edge.from) ==> CanTransition(w.edge.from, w.edge.to)
    ensures Linked(initial, ws + [w])
  {
    var after := ws + [w];
    forall k | 0 <= k < |after|
      ensures after[k].edge.from == StatusAt(initial, after, k)
      ensures IsValidState(after[k].edge.from) ==> CanTransition(after[k].edge.from, after[k].edge.to)
    {
      assert k > 0 ==> after[k - 1] == ws[k - 1];
      assert after[k] == if k < |ws| then ws[k] else w;
    }
  }

  lemma StepKeepsLinked(s: System, i: nat)
    requires JustifiedInv(s) && TransitionCallers(s) && i < |s.callers|
    requires Linked(s.initial, s.writes)
    ensures Linked(s.initial, StepCaller(s, i).writes)
  {
    assert Justified(s.initial, s.writes, i, s.callers[i]);
    if s.callers[i].pc.Swapping? && s.status == s.callers[i].pc.seen {
      LinkedExtends(s.initial, s.writes, Write(Edge(s.callers[i].pc.seen, s.callers[i].req.to), i));
    }
  }

  lemma ApplyKeepsTransitionCallers(s: System, a: Action)
    requires TransitionCallers(s) && (a.Spawn? ==> a.req.Transition?)
    ensures TransitionCallers(Apply(s, a))
  {
    match a {
      case Spawn(_) =>
      case Step(i) => if i < |s.callers| { OnlyCallerMoves(s, i); StepKeepsRequest(s, i); }
      case Fail(i) => if i < |s.callers| { OnlyCallerMoves(s, i); StepKeepsRequest(s, i); }
    }
  }

  lemma OnlyCallerMoves(s: System, i: nat)
    requires i < |s.callers|
    ensures |StepCaller(s, i).callers| == |s.callers| && StepCaller(s, i).callers == s.callers[i := StepCaller(s, i).callers[i]]
    ensures |FailCaller(s, i).callers| == |s.callers| && FailCaller(s, i).callers == s.callers[i := FailCaller(s, i).callers[i]]
  {
  }

  lemma StepKeepsRequest(s: System, i: nat)
    requires i < |s.callers|
    ensures |StepCaller(s, i).callers| == |s.callers| && StepCaller(s, i).callers[i].req == s.callers[i].req
    ensures |FailCaller(s, i).callers| == |s.callers| && FailCaller(s, i).callers[i].req == s.callers[i].req
  {
  }

  predicate LinkedInv(s: System, initial: Status) {
    TransitionCallers(s) && s.initial == initial && Linked(initial, s.writes)
  }

  lemma ApplyKeepsLinked(s: System, a: Action, initial: Status)
    requires JustifiedInv(s) && LinkedInv(s, initial) && (a.Spawn? ==> a.req.Transition?)
    ensures LinkedInv(Apply(s, a), initial)
  {
    ApplyKeepsTransitionCallers(s, a);
    ApplyKeepsInitial(s, a);
    if a.Step? && a.caller < |s.callers| {
      StepKeepsLinked(s, a.caller);
    }
  }

  lemma {:induction false} TransitionsLink(initial: Status, actions: seq<Action>)
    requires OnlyTransitions(actions)
    ensures LinkedInv(Run(Fresh(initial), actions), initial)
  {
    if actions != [] {
      var prefix, a := actions[..|actions| - 1], actions[|actions| - 1];
      TransitionsLink(initial, prefix);
      JustifiedHolds(initial, prefix);
      ApplyKeepsLinked(Run(Fresh(initial), prefix), a, initial);
    }
  }

  ghost function States(initial: Status, ws: seq<Write>): (p: seq<Status>)
    ensures |p| == |ws| + 1
    ensures forall k :: 0 <= k <= |ws| ==> p[k] == StatusAt(initial, ws, k)
  {
    seq(|ws| + 1, k requires 0 <= k <= |ws| => StatusAt(initial, ws, k))
  }

  lemma LinkedPrefix(initial: Status, ws: seq<Write>, n: nat)
    requires Linked(initial, ws) && n <= |ws|
    ensures Linked(initial, ws[..n])
    ensures StatusAt(initial, ws[..n], n) == StatusAt(initial, ws, n)
  {
    forall k | 0 <= k < n ensures ws[..n][k].edge.from == StatusAt(initial, ws[..n], k) {
      assert StatusAt(initial, ws[..n], k) == StatusAt(initial, ws, k);
    }
  }

  lemma LinkedIsPath(initial: Status, ws: seq<Write>)
    requires Linked(initial, ws) && IsValidState(initial)
    ensures Path(States(initial, ws))
    decreases |ws|
  {
    var p := States(initial, ws);
    if ws != [] {
      var shorter := ws[..|ws| - 1];
      LinkedPrefix(initial, ws, |ws| - 1);
      LinkedIsPath(initial, shorter);
      var q := States(initial, shorter);
      PathStaysDeclared(q);
      PathExtends(q, p);
    }
  }

  lemma PathExtends(q: seq<Status>, p: seq<Status>)
    requires Path(q) && |p| == |q| + 1 && p[..|q|] == q && CanTransition(p[|q| - 1], p[|q|])
    ensures Path(p)
  {
    forall k | 0 <= k < |p| - 1 ensures CanTransition(p[k], p[k + 1]) {
      if k + 1 < |q| { assert CanTransition(q[k], q[k + 1]) && q[k] == p[k] && q[k + 1] == p[k + 1]; }
    }
  }

  /** From any declared initial status, every run of TransitionState calls keeps the row in
      declared states and moves it only along table edges. */
  lemma StatusFollowsTable(initial: Status, actions: seq<Action>)
    requires IsValidState(initial) && OnlyTransitions(actions)
    ensures var s := Run(Fresh(initial), actions);
      && Path(States(initial, s.writes))
      && s.status == States(initial, s.writes)[|s.writes|]
      && IsValidState(s.status)
      && forall k :: 0 <= k < |s.writes| ==> !IsAbsorbing(s.writes[k].edge.from)
  {
    var s := Run(Fresh(initial), actions);
    TransitionsLink(initial, actions);
    JustifiedHolds(initial, actions);
    LinkedIsPath(initial, s.writes);
    PathStaysDeclared(States(initial, s.writes));
    forall k | 0 <= k < |s.writes| ensures !IsAbsorbing(s.writes[k].edge.from) {
      assert s.writes[k].edge.from == States(initial, s.writes)[k];
    }
  }

  lemma ApplyGrowsWrites(s: System, a: Action)
    ensures s.writes <= Apply(s, a).writes
  {
  }

  lemma {:induction false} WritesGrow(initial: Status, actions: seq<Action>, m: nat)
    requires m <= |actions|
    ensures Run(Fresh(initial), actions[..m]).writes <= Run(Fresh(initial), actions).writes
    decreases |actions|
  {
    if m == |actions| {
      assert actions[..m] == actions;
    } else {
      var prefix := actions[..|actions| - 1];
      assert prefix[..m] == actions[..m];
      WritesGrow(initial, prefix, m);
      ApplyGrowsWrites(Run(Fresh(initial), prefix), actions[|actions| - 1]);
    }
  }

  lemma AbsorbedAtEnd(initial: Status, ws: seq<Write>, k: nat)
    requires Linked(initial, ws) && IsValidState(initial) && k <= |ws|
    requires IsAbsorbing(StatusAt(initial, ws, k))
    ensures k == |ws|
  {
    LinkedIsPath(initial, ws);
    PathStaysDeclared(States(initial, ws));
    assert IsAbsorbing(States(initial, ws)[k]);
  }

  /** `failed` and `rolled_back` are absorbing: once a run of TransitionState calls has put the row
      there, no later call changes the status again. */
  lemma TerminalFailureIsFinal(initial: Status, actions: seq<Action>, m: nat)
    requires IsValidState(initial) && OnlyTransitions(actions) && m <= |actions|
    requires IsAbsorbing(Run(Fresh(initial), actions[..m]).status)
    ensures Run(Fresh(initial), actions).status == Run(Fresh(initial), actions[..m]).status
    ensures Run(Fresh(initial), actions).writes == Run(Fresh(initial), actions[..m]).writes
  {
    var s, t := Run(Fresh(initial), actions[..m]), Run(Fresh(initial), actions);
    WritesGrow(initial, actions, m);
    TransitionsLink(initial, actions);
    JustifiedHolds(initial, actions);
    RunKeepsInitial(initial, actions[..m]);
    JustifiedHolds(initial, actions[..m]);
    AbsorbedAtEnd(initial, t.writes, |s.writes|);
  }

  // ---- Entering and leaving states ---------------------------------------------------------------

  // The number of entries among the writes that lead into `state`.
  function Ins(es: seq<Edge>, state: Status): nat {
    if es == [] then 0
    else Ins(es[..|es| - 1], state) + Unit(es[|es| - 1].to == state)
  }

  function Outs(es: seq<Edge>, state: Status): nat {
    if es == [] then 0
    else Outs(es[..|es| - 1], state) + Unit(es[|es| - 1].from == state)
  }

  lemma {:induction false} NoEntryIntoState(es: seq<Edge>, state: Status)
    requires forall k :: 0 <= k < |es| ==> es[k].to != state
    ensures Ins(es, state) == 0
  {
    if es != [] {
      NoEntryIntoState(es[..|es| - 1], state);
    }
  }

  // A path that never leaves an absorbing state enters `failed` at most once.
  lemma {:induction false} FailedAtMostOnce(initial: Status, ws: seq<Write>)
    requires Linked(initial, ws) && forall k :: 0 <= k < |ws| ==> !IsAbsorbing(ws[k].edge.from)
    ensures Ins(Edges(ws), Failed) <= 1
  {
    var es := Edges(ws);
    if es != [] {
      forall k | 0 <= k < |es| - 1 ensures es[k].to != Failed {
        assert ws[k + 1].edge.from == StatusAt(initial, ws, k + 1);
      }
      NoEntryIntoState(es[..|es| - 1], Failed);
    }
  }

  // ---- The recorded history balances --------------------------------------------------------------

  lemma {:induction false} LinkedBalances(initial: Status, ws: seq<Write>, state: Status)
    requires Linked(initial, ws)
    ensures Outs(Edges(ws), state) - Ins(Edges(ws), state)
         == Unit(state == initial) - Unit(state == StatusAt(initial, ws, |ws|))
    decreases |ws|
  {
    if ws != [] {
      var n := |ws| - 1;
      LinkedPrefix(initial, ws, n);
      LinkedBalances(initial, ws[..n], state);
      assert ws[n].edge.from == StatusAt(initial, ws, n);
    }
  }

  lemma {:induction false} DegreesAdd(a: seq<Edge>, b: seq<Edge>, state: Status)
    ensures Outs(a + b, state) == Outs(a, state) + Outs(b, state)
    ensures Ins(a + b, state) == Ins(a, state) + Ins(b, state)
  {
    if b == [] {
      assert a + b == a;
    } else {
      var n := |b| - 1;
      assert (a + b)[..|a + b| - 1] == a + b[..n];
      DegreesAdd(a, b[..n], state);
    }
  }

  lemma DegreesOfThree(low: seq<Edge>, e: Edge, high: seq<Edge>, state: Status)
    ensures Outs(low + ([e] + high), state) == Outs(low + high, state) + Unit(e.from == state)
    ensures Ins(low + ([e] + high), state) == Ins(low + high, state) + Unit(e.to == state)
  {
    DegreesAdd(low, [e] + high, state);
    DegreesAdd([e], high, state);
    DegreesAdd(low, high, state);
    assert [e][..0] == [];
  }

  lemma RemoveEdge(es: seq<Edge>, k: nat, state: Status)
    requires k < |es|
    ensures Outs(es, state) == Outs(es[..k] + es[k + 1..], state) + Unit(es[k].from == state)
    ensures Ins(es, state) == Ins(es[..k] + es[k + 1..], state) + Unit(es[k].to == state)
  {
    DegreesOfThree(es[..k], es[k], es[k + 1..], state);
    assert es == es[..k] + ([es[k]] + es[k + 1..]);
  }

  lemma RemoveCommon(a: seq<Edge>, b: seq<Edge>) returns (k: nat)
    requires a != [] && multiset(a) == multiset(b)
    ensures k < |b| && b[k] == a[|a| - 1]
    ensures multiset(a[..|a| - 1]) == multiset(b[..k] + b[k + 1..])
  {
    var n := |a| - 1;
    assert a == a[..n] + [a[n]];
    assert a[n] in multiset(b);
    k :| k < |b| && b[k] == a[n];
    assert b == b[..k] + ([b[k]] + b[k + 1..]);
    assert multiset(a[..n]) == multiset(a) - multiset{a[n]};
    assert multiset(b[..k] + b[k + 1..]) == multiset(b) - multiset{b[k]};
  }

  // Degrees depend only on which entries occur how often, not on their order.
  lemma {:induction false} DegreesIgnoreOrder(a: seq<Edge>, b: seq<Edge>, state: Status)
    requires multiset(a) == multiset(b)
    ensures Outs(a, state) == Outs(b, state) && Ins(a, state) == Ins(b, state)
    decreases |a|
  {
    if a == [] {
      assert |b| == |multiset(b)| == 0;
    } else {
      var k := RemoveCommon(a, b);
      DegreesIgnoreOrder(a[..|a| - 1], b[..k] + b[k + 1..], state);
      RemoveEdge(b, k, state);
    }
  }

  lemma {:induction false} IdleOwesNothing(callers: seq<Caller>, e: Edge)
    requires forall i :: 0 <= i < |callers| ==> callers[i].pc.Returned?
    ensures Owed(callers, e) == 0
  {
    if callers != [] {
      IdleOwesNothing(callers[..|callers| - 1], e);
    }
  }

  lemma {:induction false} NothingDropped(initial: Status, actions: seq<Action>)
    requires NoFailures(actions)
    ensures Run(Fresh(initial), actions).dropped == []
  {
    if actions != [] {
      NothingDropped(initial, actions[..|actions| - 1]);
    }
  }

  /** Whatever the interleaving, once all TransitionState callers have returned, the recorded
      history is a permutation of the status writes, so every state is left exactly as often as it
      is entered, except for the initial status (once more) and the current one (once less).
      The order of the entries is not claimed: the swap is not taken under the mutex. */
  lemma IdleHistoryBalances(initial: Status, actions: seq<Action>, state: Status)
    requires OnlyTransitions(actions) && NoFailures(actions)
    requires Idle(Run(Fresh(initial), actions))
    ensures var s := Run(Fresh(initial), actions);
      && multiset(s.history) == multiset(Edges(s.writes))
      && Outs(s.history, state) - Ins(s.history, state)
         == Unit(state == initial) - Unit(state == s.status)
  {
    var s := Run(Fresh(initial), actions);
    IdleHistoryIsComplete(initial, actions);
    TransitionsLink(initial, actions);
    JustifiedHolds(initial, actions);
    LinkedBalances(initial, s.writes, state);
    DegreesIgnoreOrder(s.history, Edges(s.writes), state);
  }

  lemma IdleHistoryIsComplete(initial: Status, actions: seq<Action>)
    requires NoFailures(actions) && Idle(Run(Fresh(initial), actions))
    ensures var s := Run(Fresh(initial), actions);
      multiset(s.history) == multiset(Edges(s.writes))
  {
    var s := Run(Fresh(initial), actions);
    NothingDropped(initial, actions);
    forall e: Edge ensures multiset(s.history)[e] == multiset(Edges(s.writes))[e] {
      HistoryIsConserved(initial, actions, e);
      IdleOwesNothing(s.callers, e);
    }
  }
}
