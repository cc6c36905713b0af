/**
  The handshake between a deployment's restart loop (Run) and a concurrent Stop.

  Run checks a flag, spawns an instance, registers it, checks the flag again and waits for the
  instance to exit; Stop sets the flag and captures the registered instance under one lock, then
  tells that instance to stop.  Each locked section, spawn and stop signal is one step; any number
  of Stop calls interleave with the one Run of a deployment id (which may be started again after it
  returned).  Instances exit whenever they like, and the health check may tell the current one to
  stop.  `tellers` and `spawnedAtFlag` are bookkeeping that no step reads.
 */
module Supervisor {
  import opened Common

  datatype Teller = ByStop | ByRecheck | ByHealth

  datatype Instance = Instance(live: bool, tellers: set<Teller>)

  datatype RunPc =
    | Returned
    | TopCheck
    | Spawning
    | Registering(x: nat)
    | Rechecking(x: nat)
    | StoppingOwn(x: nat)
    | ClearingOwn(x: nat)
    | Waiting(x: nat)
    | Clearing(x: nat)
    | ExitCheck
    | Deciding       // crash-loop test
    | Sleeping       // backoff

  datatype StopPc = Entering | Telling(captured: Option<nat>) | Done

  datatype System = System(
    stopping: bool,
    registry: Option<nat>,
    instances: seq<Instance>,
    run: RunPc,
    stops: seq<StopPc>,
    spawnedAtFlag: nat)

  // `choice` resolves what the environment decides: whether a spawn succeeds, whether the crash
  // loop trips.
  datatype Action =
    | StartRun
    | RunStep(choice: bool)
    | CallStop
    | StopStep(call: nat)
    | InstanceExits(x: nat)
    | HealthCheckStops

  const BOOT := System(false, None, [], Returned, [], 0)

  function Tell(s: System, x: nat, who: Teller): System {
    if x < |s.instances| then
      s.(instances := s.instances[x := s.instances[x].(tellers := s.instances[x].tellers + {who})])
    else s
  }

  function StepRun(s: System, choice: bool): System {
    match s.run
    case Returned => s
    case TopCheck => s.(run := if s.stopping then Returned else Spawning)
    case Spawning =>
      if choice then
        s.(instances := s.instances + [Instance(true, {})], run := Registering(|s.instances|))
      else s.(run := Deciding)
    case Registering(x) => s.(registry := Some(x), run := Rechecking(x))
    case Rechecking(x) => s.(run := if s.stopping then StoppingOwn(x) else Waiting(x))
    case StoppingOwn(x) => Tell(s, x, ByRecheck).(run := ClearingOwn(x))
    case ClearingOwn(x) => s.(registry := None, run := Returned)
    case Waiting(x) =>
      if x < |s.instances| && !s.instances[x].live then s.(run := Clearing(x)) else s
    case Clearing(x) => s.(registry := None, run := ExitCheck)
    case ExitCheck => s.(run := if s.stopping then Returned else Deciding)
    case Deciding => s.(run := if choice then Returned else Sleeping)
    case Sleeping => s.(run := TopCheck)
  }

  function StepStop(s: System, j: nat): System
    requires j < |s.stops|
  {
    match s.stops[j]
    case Entering =>
      s.(stopping := true,
         stops := s.stops[j := Telling(s.registry)],
         spawnedAtFlag := if s.stopping then s.spawnedAtFlag else |s.instances|)
    case Telling(captured) =>
      (if captured.Some? then Tell(s, captured.value, ByStop) else s).(stops := s.stops[j := Done])
    case Done => s
  }

  function Apply(s: System, a: Action): System {
    match a
    case StartRun => if s.run.Returned? then s.(run := TopCheck) else s
    case RunStep(choice) => StepRun(s, choice)
    case CallStop => s.(stops := s.stops + [Entering])
    case StopStep(j) => if j < |s.stops| then StepStop(s, j) else s
    case InstanceExits(x) =>
      if x < |s.instances| then s.(instances := s.instances[x := s.instances[x].(live := false)]) else s
    case HealthCheckStops => if s.run.Waiting? then Tell(s, s.run.x, ByHealth) else s
  }

  function Run(s: System, actions: seq<Action>): System
    decreases |actions|
  {
    if actions == [] then s else Apply(Run(s, actions[..|actions| - 1]), actions[|actions| - 1])
  }

  // ---- Invariant -----------------------------------------------------------------------------------

  // The instance Run is busy with.
  function Current(pc: RunPc): Option<nat> {
    match pc
    case Registering(x) => Some(x)
    case Rechecking(x) => Some(x)
    case StoppingOwn(x) => Some(x)
    case ClearingOwn(x) => Some(x)
    case Waiting(x) => Some(x)
    case Clearing(x) => Some(x)
    case _ => None
  }

  // Told to stop by the shutdown handshake (a health-check stop does not count).
  predicate ToldToStop(i: Instance) {
    ByStop in i.tellers || ByRecheck in i.tellers
  }

  predicate Handled(i: Instance) {
    !i.live || ToldToStop(i)
  }

  // Run itself will look at the flag again before it waits for x.
  predicate RunWillLook(pc: RunPc) {
    pc.Registering? || pc.Rechecking? || pc.StoppingOwn?
  }

  ghost predicate SomeStopHolds(s: System, x: nat) {
    exists j :: 0 <= j < |s.stops| && s.stops[j] == Telling(Some(x))
  }

  predicate RegistryOk(s: System) {
    && (Current(s.run).Some? ==> Current(s.run).value < |s.instances|)
    && s.registry == (if s.run.Registering? then None else Current(s.run))
  }

  // Instances Run has left behind are dead or were told to stop.
  predicate PastHandled(s: System) {
    forall x :: 0 <= x < |s.instances| && Current(s.run) != Some(x) ==> Handled(s.instances[x])
  }

  // Once the flag is up, the current instance is dead, told, about to be told by a Stop call that
  // captured it, or about to be looked at by Run's own re-check.
  ghost predicate CurrentCovered(s: System) {
    s.stopping && Current(s.run).Some? && Current(s.run).value < |s.instances| ==>
      var x := Current(s.run).value;
      RunWillLook(s.run) || Handled(s.instances[x]) || SomeStopHolds(s, x)
  }

  predicate SpawnsBounded(s: System) {
    s.stopping ==>
      && s.spawnedAtFlag <= |s.instances| <= s.spawnedAtFlag + 1
      && (s.run.Spawning? ==> |s.instances| == s.spawnedAtFlag)
  }

  predicate LeavingHandled(s: System) {
    && (s.run.ClearingOwn? && s.run.x < |s.instances| ==> ToldToStop(s.instances[s.run.x]))
    && (s.run.Clearing? && s.run.x < |s.instances| ==> !s.instances[s.run.x].live)
    && (s.run.StoppingOwn? || s.run.ClearingOwn? ==> s.stopping)
  }

  ghost predicate Inv(s: System) {
    RegistryOk(s) && PastHandled(s) && CurrentCovered(s) && SpawnsBounded(s) && LeavingHandled(s)
  }

  // Stop signals and exits only make instances more handled.
  predicate Advanced(before: Instance, after: Instance) {
    before.tellers <= after.tellers && (after.live ==> before.live)
  }

  predicate InstancesAdvance(s: System, t: System) {
    |t.instances| == |s.instances| && forall x :: 0 <= x < |s.instances| ==> Advanced(s.instances[x], t.instances[x])
  }

  // A step that leaves Run where it is and only advances instances.
  lemma AdvanceKeepsInv(s: System, t: System)
    requires Inv(s) && InstancesAdvance(s, t)
    requires t.run == s.run && t.registry == s.registry && t.stopping == s.stopping
    requires t.spawnedAtFlag == s.spawnedAtFlag
    requires CurrentCovered(t)
    ensures Inv(t)
  {
    forall x | 0 <= x < |t.instances| && Current(t.run) != Some(x) ensures Handled(t.instances[x]) {
      assert Handled(s.instances[x]) && Advanced(s.instances[x], t.instances[x]);
    }
    if Current(t.run).Some? {
      assert Advanced(s.instances[Current(t.run).value], t.instances[Current(t.run).value]);
    }
  }

  lemma TellAdvances(s: System, x: nat, who: Teller)
    ensures InstancesAdvance(s, Tell(s, x, who))
  {
  }

  lemma HoldsSurvive(s: System, stops: seq<StopPc>, x: nat)
    requires SomeStopHolds(s, x)
    requires forall j :: 0 <= j < |s.stops| && s.stops[j] == Telling(Some(x)) ==> j < |stops| && stops[j] == s.stops[j]
    ensures SomeStopHolds(s.(stops := stops), x)
  {
    var j :| 0 <= j < |s.stops| && s.stops[j] == Telling(Some(x));
    assert stops[j] == Telling(Some(x));
  }

  lemma StopOwnKeepsInv(s: System, choice: bool)
    requires Inv(s) && s.run.StoppingOwn?
    ensures Inv(StepRun(s, choice))
  {
    var t := StepRun(s, choice);
    TellAdvances(s, s.run.x, ByRecheck);
    forall x | 0 <= x < |t.instances| && Current(t.run) != Some(x) ensures Handled(t.instances[x]) {
      assert Handled(s.instances[x]);
    }
  }

  lemma SpawnKeepsInv(s: System, choice: bool)
    requires Inv(s) && s.run.Spawning?
    ensures Inv(StepRun(s, choice))
  {
    var t := StepRun(s, choice);
    forall x | 0 <= x < |t.instances| && Current(t.run) != Some(x) ensures Handled(t.instances[x]) {
      assert x < |s.instances| && Handled(s.instances[x]);
    }
  }

  lemma RunKeepsInv(s: System, choice: bool)
    requires Inv(s)
    ensures Inv(StepRun(s, choice))
  {
    var t := StepRun(s, choice);
    if s.run.StoppingOwn? {
      StopOwnKeepsInv(s, choice);
    } else if s.run.Spawning? {
      SpawnKeepsInv(s, choice);
    } else {
      QuietRunKeepsInv(s, t);
    }
  }

  // A move of Run that touches neither instances nor Stop calls nor the flag.
  lemma QuietRunKeepsInv(s: System, t: System)
    requires Inv(s) && t == s.(run := t.run, registry := t.registry)
    requires t.registry == (if t.run.Registering? then None else Current(t.run))
    requires Current(t.run) == Current(s.run) || (Current(t.run).None? && (s.run.Clearing? || s.run.ClearingOwn?))
    requires !t.run.Spawning? || !s.stopping
    requires s.stopping && RunWillLook(s.run) ==> RunWillLook(t.run)
    requires t.run.ClearingOwn? ==> s.run.ClearingOwn?
    requires t.run.StoppingOwn? ==> s.stopping
    requires t.run.Clearing? && !s.run.Clearing? ==> t.run.x < |s.instances| && !s.instances[t.run.x].live
    ensures Inv(t)
  {
    forall x | 0 <= x < |t.instances| && Current(t.run) != Some(x) ensures Handled(t.instances[x]) {
      assert Current(s.run) != Some(x) ==> Handled(s.instances[x]);
    }
    if Current(t.run).Some? && SomeStopHolds(s, Current(t.run).value) {
      HoldsSurvive(s, t.stops, Current(t.run).value);
    }
  }

  lemma EnterKeepsInv(s: System, j: nat)
    requires Inv(s) && j < |s.stops| && s.stops[j].Entering?
    ensures Inv(StepStop(s, j))
  {
    var t := StepStop(s, j);
    if Current(s.run).Some? && !s.run.Registering? {
      assert t.stops[j] == Telling(Some(Current(s.run).value));
    }
  }

  lemma TellingKeepsInv(s: System, j: nat)
    requires Inv(s) && j < |s.stops| && s.stops[j].Telling?
    ensures Inv(StepStop(s, j))
  {
    var captured := s.stops[j].captured;
    var t := StepStop(s, j);
    if captured.Some? { TellAdvances(s, captured.value, ByStop); }
    if Current(s.run).Some? {
      var x := Current(s.run).value;
      assert Advanced(s.instances[x], t.instances[x]);
      if SomeStopHolds(s, x) {
        var k :| 0 <= k < |s.stops| && s.stops[k] == Telling(Some(x));
        assert k != j ==> t.stops[k] == Telling(Some(x));
      }
    }
    AdvanceKeepsInv(s, t);
  }

  lemma ApplyKeepsInv(s: System, a: Action)
    requires Inv(s)
    ensures Inv(Apply(s, a))
  {
    var t := Apply(s, a);
    match a {
      case StartRun =>
      case RunStep(choice) => RunKeepsInv(s, choice);
      case CallStop =>
        if Current(s.run).Some? && SomeStopHolds(s, Current(s.run).value) {
          HoldsSurvive(s, t.stops, Current(s.run).value);
        }
      case StopStep(j) =>
        if j < |s.stops| && s.stops[j].Entering? { EnterKeepsInv(s, j); }
        if j < |s.stops| && s.stops[j].Telling? { TellingKeepsInv(s, j); }
      case InstanceExits(x) => AdvanceCovered(s, t);
      case HealthCheckStops => AdvanceCovered(s, t);
    }
  }

  lemma AdvanceCovered(s: System, t: System)
    requires Inv(s) && InstancesAdvance(s, t) && t.stops == s.stops
    requires t.run == s.run && t.registry == s.registry && t.stopping == s.stopping
    requires t.spawnedAtFlag == s.spawnedAtFlag
    ensures Inv(t)
  {
    if Current(s.run).Some? {
      var x := Current(s.run).value;
      assert Advanced(s.instances[x], t.instances[x]);
      if SomeStopHolds(s, x) { HoldsSurvive(s, t.stops, x); }
    }
    AdvanceKeepsInv(s, t);
  }

  lemma {:induction false} InvHolds(s: System, actions: seq<Action>)
    requires Inv(s)
    ensures Inv(Run(s, actions))
  {
    if actions != [] {
      InvHolds(s, actions[..|actions| - 1]);
      ApplyKeepsInv(Run(s, actions[..|actions| - 1]), actions[|actions| - 1]);
    }
  }

  // ---- Claims ----------------------------------------------------------------------------------------

  lemma FlagStaysUp(s: System, a: Action)
    requires s.stopping
    ensures Apply(s, a).stopping && Apply(s, a).spawnedAtFlag == s.spawnedAtFlag
  {
  }

  lemma {:induction false} FlagStaysUpForever(s: System, actions: seq<Action>)
    requires s.stopping
    ensures Run(s, actions).stopping && Run(s, actions).spawnedAtFlag == s.spawnedAtFlag
  {
    if actions != [] {
      FlagStaysUpForever(s, actions[..|actions| - 1]);
      FlagStaysUp(Run(s, actions[..|actions| - 1]), actions[|actions| - 1]);
    }
  }

  /** After Stop has set the flag, the deployment spawns at most one more instance, whatever the
      interleaving and however often Run is started again. */
  lemma AtMostOneMoreSpawn(before: seq<Action>, after: seq<Action>)
    requires Run(BOOT, before).stopping
    ensures |Run(Run(BOOT, before), after).instances| <= |Run(BOOT, before).instances| + 1
  {
    var s := Run(BOOT, before);
    InvHolds(BOOT, before);
    FlagStaysUpForever(s, after);
    InvHolds(s, after);
  }

  predicate NobodyBusy(s: System) {
    && (forall j :: 0 <= j < |s.stops| ==> s.stops[j].Done?)
    && !RunWillLook(s.run)
  }

  /** In every interleaving, once the flag is up, the Stop calls have returned and Run is past its
      re-check, every instance still live has been told to stop by one of the two. */
  lemma NoInstanceEscapes(actions: seq<Action>)
    requires Run(BOOT, actions).stopping && NobodyBusy(Run(BOOT, actions))
    ensures forall x :: 0 <= x < |Run(BOOT, actions).instances| && Run(BOOT, actions).instances[x].live ==>
      ToldToStop(Run(BOOT, actions).instances[x])
  {
    InvHolds(BOOT, actions);
    EveryoneTold(Run(BOOT, actions));
  }

  lemma EveryoneTold(s: System)
    requires Inv(s) && s.stopping && NobodyBusy(s)
    ensures forall x :: 0 <= x < |s.instances| ==> Handled(s.instances[x])
  {
    forall x | 0 <= x < |s.instances| ensures Handled(s.instances[x]) {
      if Current(s.run) == Some(x) {
        assert RunWillLook(s.run) || Handled(s.instances[x]) || SomeStopHolds(s, x);
      }
    }
  }

  // The number of steps of its own Run can still take once the flag is up.
  function Remaining(pc: RunPc): nat {
    match pc
    case Returned => 0
    case TopCheck => 1
    case Sleeping => 2
    case Deciding => 3
    case ExitCheck => 1
    case Clearing(_) => 2
    case Waiting(_) => 3
    case ClearingOwn(_) => 1
    case StoppingOwn(_) => 2
    case Rechecking(_) => 3
    case Registering(_) => 4
    case Spawning => 5
  }

  predicate Blocked(s: System) {
    s.run.Returned? || (s.run.Waiting? && s.run.x < |s.instances| && s.instances[s.run.x].live)
  }

  /** Once the flag is up, every step of Run that is not waiting for a live instance brings it
      closer to returning, so Run returns within five steps of its own plus the instance's exit. */
  lemma StoppedRunReturns(actions: seq<Action>, choice: bool)
    requires Run(BOOT, actions).stopping && !Blocked(Run(BOOT, actions))
    ensures Remaining(StepRun(Run(BOOT, actions), choice).run) < Remaining(Run(BOOT, actions).run) <= 5
  {
    InvHolds(BOOT, actions);
    StoppedStepAdvances(Run(BOOT, actions), choice);
  }

  lemma StoppedStepAdvances(s: System, choice: bool)
    requires Inv(s) && s.stopping && !Blocked(s)
    ensures Remaining(StepRun(s, choice).run) < Remaining(s.run) <= 5
  {
  }

  // ---- While nobody stops it -----------------------------------------------------------------------

  // Run went from its crash-loop test to its return at step m, on a verdict that the loop has tripped.
  predicate TrippedAt(actions: seq<Action>, m: nat)
    requires m < |actions|
  {
    actions[m] == RunStep(true) && Run(BOOT, actions[..m]).run.Deciding?
  }

  // Run has not moved since.
  predicate QuietSince(actions: seq<Action>, m: nat)
    requires m <= |actions|
  {
    forall k :: m <= k <= |actions| ==> Run(BOOT, actions[..k]).run.Returned?
  }

  ghost predicate TrippedLast(actions: seq<Action>) {
    exists m :: 0 <= m < |actions| && TrippedAt(actions, m) && QuietSince(actions, m + 1)
  }

  lemma StillTripped(actions: seq<Action>, a: Action)
    requires TrippedLast(actions) && Run(BOOT, actions + [a]).run.Returned?
    ensures TrippedLast(actions + [a])
  {
    var longer := actions + [a];
    var m :| 0 <= m < |actions| && TrippedAt(actions, m) && QuietSince(actions, m + 1);
    assert longer[..m] == actions[..m];
    forall k | m + 1 <= k <= |longer| ensures Run(BOOT, longer[..k]).run.Returned? {
      if k <= |actions| { assert longer[..k] == actions[..k]; } else { assert longer[..k] == longer; }
    }
    assert TrippedAt(longer, m) && QuietSince(longer, m + 1);
  }

  lemma JustTripped(actions: seq<Action>)
    requires Run(BOOT, actions).run.Deciding? && Run(BOOT, actions + [RunStep(true)]).run.Returned?
    ensures TrippedLast(actions + [RunStep(true)])
  {
    var longer := actions + [RunStep(true)];
    assert longer[..|actions|] == actions && longer[..|longer|] == longer;
    assert TrippedAt(longer, |actions|) && QuietSince(longer, |actions| + 1);
  }

  predicate NeverStarted(actions: seq<Action>) { forall k :: 0 <= k < |actions| ==> !actions[k].StartRun? }

  // A step that brings Run to its return: it saw the flag up, or tripped.
  lemma ReturningStep(s: System, a: Action)
    requires Inv(s) && !s.run.Returned? && Apply(s, a).run.Returned?
    ensures Apply(s, a).stopping || (s.run.Deciding? && a == RunStep(true))
  {
  }

  /** Run never gives up on its own: if it is not running although it was started and nobody has asked
      for a stop, its last own step was a crash-loop test that tripped. */
  lemma {:induction false} ReturnsOnlyWhenStoppedOrTripped(actions: seq<Action>)
    ensures Run(BOOT, actions).run.Returned? ==>
      Run(BOOT, actions).stopping || NeverStarted(actions) || TrippedLast(actions)
  {
    if actions != [] {
      var n := |actions| - 1;
      var before, a := actions[..n], actions[n];
      var s := Run(BOOT, before);
      assert actions == before + [a];
      ReturnsOnlyWhenStoppedOrTripped(before);
      InvHolds(BOOT, before);
      if Run(BOOT, actions).run.Returned? && !Run(BOOT, actions).stopping {
        if s.run.Returned? {
          assert !s.stopping by { if s.stopping { FlagStaysUp(s, a); } }
          if TrippedLast(before) { StillTripped(before, a); }
        } else {
          ReturningStep(s, a);
          JustTripped(before);
        }
      }
    }
  }

  /** A tripped loop stays down: nothing is spawned until Run is started again. */
  lemma {:induction false} TripIsFinal(s: System, after: seq<Action>)
    requires s.run.Deciding? && NeverStarted(after)
    ensures var t := Run(Apply(s, RunStep(true)), after);
      t.run.Returned? && |t.instances| == |s.instances|
  {
    if after != [] { TripIsFinal(s, after[..|after| - 1]); }
  }

  // Run's own steps, spawns succeeding and the loop not tripping.
  function Onward(s: System, n: nat): System
    decreases n
  {
    if n == 0 then s else Onward(StepRun(s, s.run.Spawning?), n - 1)
  }

  // How many of them lead from a dead instance to a new one.
  function ToNewInstance(pc: RunPc): nat {
    match pc
    case Waiting(_) => 9
    case Clearing(_) => 8
    case ExitCheck => 7
    case Deciding => 6
    case Sleeping => 5
    case TopCheck => 4
    case Spawning => 3
    case Registering(_) => 2
    case Rechecking(_) => 1
    case _ => 0
  }

  // Run holds no instance that is alive.
  predicate IsDown(s: System) {
    && !s.run.Returned?
    && (Current(s.run).Some? ==> s.run.Waiting? || s.run.Clearing?)
    && (s.run.Waiting? ==> s.run.x < |s.instances| && !s.instances[s.run.x].live)
  }

  /** A crash is made good: from any unstopped state in which Run is started and holds no live instance,
      at most nine of its own steps lead to a new instance, live, registered and waited for. */
  lemma CrashIsRestarted(s: System)
    requires !s.stopping && IsDown(s)
    ensures var n := ToNewInstance(s.run);
      var t := Onward(s, n);
      && 3 <= n <= 9
      && t.instances == s.instances + [Instance(true, {})]
      && t.run == Waiting(|s.instances|) && t.registry == Some(|s.instances|) && !t.stopping
  {
    OnwardToSpawning(s);
    var u := Onward(s, ToNewInstance(s.run) - 3);
    OnwardAdds(s, ToNewInstance(s.run) - 3, 3);
    var u1 := StepRun(u, true);
    var u2 := StepRun(u1, false);
    var u3 := StepRun(u2, false);
    assert Onward(u, 3) == Onward(u1, 2) == Onward(u2, 1) == Onward(u3, 0);
  }

  lemma {:induction false} OnwardToSpawning(s: System)
    requires !s.stopping && IsDown(s)
    ensures 3 <= ToNewInstance(s.run) <= 9
    ensures var u := Onward(s, ToNewInstance(s.run) - 3);
      u.run.Spawning? && u.instances == s.instances && !u.stopping
    decreases ToNewInstance(s.run)
  {
    if !s.run.Spawning? {
      OnwardToSpawning(StepRun(s, false));
    }
  }

  lemma {:induction false} OnwardAdds(s: System, m: nat, n: nat)
    ensures Onward(s, m + n) == Onward(Onward(s, m), n)
    decreases m
  {
    if m > 0 { OnwardAdds(StepRun(s, s.run.Spawning?), m - 1, n); }
  }

  // A spawn that fails counts as a crash: it is followed by the same test and a new attempt.
  lemma FailedSpawnIsRetried(s: System)
    requires !s.stopping && s.run.Spawning?
    ensures StepRun(s, false).run.Deciding? && IsDown(StepRun(s, false)) && StepRun(s, false).instances == s.instances
  {
  }

  /** An instance the health check gives up on is told to stop, which is no shutdown: no other is told,
      and when it has exited it is made good like any crash. */
  lemma HealthStopIsRestarted(s: System)
    requires !s.stopping && s.run.Waiting? && s.run.x < |s.instances|
    ensures var x := s.run.x;
      var told := Apply(s, HealthCheckStops);
      var t := Onward(Apply(told, InstanceExits(x)), 9);
      && ByHealth in told.instances[x].tellers
      && (ToldToStop(told.instances[x]) <==> ToldToStop(s.instances[x]))
      && told == s.(instances := s.instances[x := told.instances[x]]) && told.instances[x].live == s.instances[x].live
      && |t.instances| == |s.instances| + 1 && t.instances[|s.instances|] == Instance(true, {})
      && t.run == Waiting(|s.instances|) && t.registry == Some(|s.instances|) && !t.stopping
  {
    var exited := Apply(Apply(s, HealthCheckStops), InstanceExits(s.run.x));
    CrashIsRestarted(exited);
  }
}
