/**
  The life of CI runs: rows written by trigger requests, by the workers those start, and by the
  reconciliation at boot, over any interleaving with failing statements and process restarts.
 */
module CiRuns {
  import opened Common

  // ---- The run state machine ---------------------------------------------------------------------------

  // Pending is the legacy spelling of Queued; Other is anything else found in an old table.
  datatype Status = Queued | Running | Success | Failure | Cancelled | Pending | Other(name: string)

  function Targets(s: Status): set<Status> {
    match s
    case Queued => {Running, Failure, Cancelled}
    case Running => {Success, Failure, Cancelled}
    case _ => {}
  }

  predicate IsKnown(s: Status) { !s.Pending? && !s.Other? }

  predicate IsTerminal(s: Status) { s.Success? || s.Failure? || s.Cancelled? }

  predicate CanTransition(from: Status, to: Status) { from != to && to in Targets(from) }

  /** The table read by target: runs start once, succeed only while running, and fail or are cancelled
      from anywhere before that. */
  lemma EntriesByTarget(from: Status, to: Status)
    ensures CanTransition(from, to) <==>
      match to
      case Running => from == Queued
      case Success => from == Running
      case Failure => from == Queued || from == Running
      case Cancelled => from == Queued || from == Running
      case _ => false
  {
  }

  function Normalize(s: Status): Status { if s.Pending? then Queued else s }

  datatype Verdict = Fine | UnknownSource | UnknownTarget | SameStatus | NoEdge

  function ValidateTransition(from: Status, to: Status): (v: Verdict)
    ensures v.Fine? <==> CanTransition(from, to)
  {
    if !IsKnown(from) then UnknownSource
    else if !IsKnown(to) then UnknownTarget
    else if from == to then SameStatus
    else if !CanTransition(from, to) then NoEdge
    else Fine
  }

  // ---- The table -----------------------------------------------------------------------------------------

  datatype Row = Row(status: Status, finishedAt: Option<int>)

  type Rows = map<string, Row>

  // Rows the terminal writes may touch.
  predicate IsOpen(s: Status) { s.Queued? || s.Running? || s.Pending? }

  function Moved(rows: Rows, id: string, from: Status, to: Status): Rows {
    if id in rows && rows[id].status == from then rows[id := rows[id].(status := to)] else rows
  }

  function Finished(rows: Rows, id: string, status: Status, now: int): Rows {
    if id in rows && IsOpen(rows[id].status) then rows[id := Row(status, Some(now))] else rows
  }

  function Renamed(rows: Rows): Rows {
    map id | id in rows :: rows[id].(status := Normalize(rows[id].status))
  }

  function Reconciled(rows: Rows, now: int): Rows {
    map id | id in rows :: Settled(rows[id], now)
  }

  // What a boot makes of a row for good.
  function Settled(row: Row, now: int): Row {
    if IsOpen(row.status) then Row(Failure, Some(now)) else row
  }

  function OpenIds(rows: Rows): set<string> { set id | id in rows && IsOpen(rows[id].status) }

  // Where the reconciliation stands when the rows in todo are still to be seen.
  predicate Reconciling(was: Rows, table: Rows, todo: set<string>, now: int) {
    && table.Keys == was.Keys && todo <= was.Keys
    && forall id :: id in was ==> table[id] == if id in todo then was[id] else Settled(was[id], now)
  }

  lemma ReconcileOne(was: Rows, table: Rows, todo: set<string>, id: string, now: int)
    requires Reconciling(was, table, todo, now) && id in todo
    ensures table[id] == was[id]
    ensures Reconciling(was, if IsOpen(was[id].status) then table[id := Row(Failure, Some(now))] else table, todo - {id}, now)
  {
  }

  lemma OneMoreSeen(all: set<string>, todo: set<string>, id: string)
    requires id in todo
    ensures |all - (todo - {id})| == |all - todo| + (if id in all then 1 else 0)
  {
    assert all - (todo - {id}) == if id in all then (all - todo) + {id} else all - todo;
  }

  datatype FinishResult = Recorded | Ignored | NotKnown | NotTerminal

  class RunTable {
    var rows: Rows

    constructor ()
      ensures rows == map[]
    {
      rows := map[];
    }

    method InsertRun(id: string) returns (ok: bool)
      modifies this
      ensures ok <==> id !in old(rows)
      ensures rows == if ok then old(rows)[id := Row(Queued, None)] else old(rows)
    {
      ok := id !in rows;
      if ok {
        rows := rows[id := Row(Queued, None)];
      }
    }

    // Some(v) when validation refuses the change; None, with `affected` telling whether the row was
    // still in the source state, when the guarded update was made.
    method TransitionRun(id: string, from: Status, to: Status) returns (refused: Option<Verdict>, affected: bool)
      modifies this
      ensures refused.None? <==> CanTransition(from, to)
      ensures affected <==> refused.None? && id in old(rows) && old(rows)[id].status == from
      ensures rows == if refused.None? then Moved(old(rows), id, from, to) else old(rows)
    {
      var v := ValidateTransition(from, to);
      if !v.Fine? {
        return Some(v), false;
      }
      affected := id in rows && rows[id].status == from;
      if affected {
        rows := rows[id := rows[id].(status := to)];
      }
      return None, affected;
    }

    method FinishRun(id: string, status: Status, now: int) returns (r: FinishResult)
      modifies this
      ensures rows == if IsTerminal(status) then Finished(old(rows), id, status, now) else old(rows)
      ensures r.Recorded? <==> IsTerminal(status) && id in old(rows) && IsOpen(old(rows)[id].status)
      ensures r.Ignored? ==> rows == old(rows) && IsTerminal(status)
    {
      if !IsKnown(status) {
        return NotKnown;
      }
      if !IsTerminal(status) {
        return NotTerminal;
      }
      if id in rows && IsOpen(rows[id].status) {
        rows := rows[id := Row(status, Some(now))];
        return Recorded;
      }
      return Ignored;
    }

    // The rows are failed one by one, in whatever order the table yields them.
    method ReconcileOrphanedRuns(now: int) returns (affected: nat)
      modifies this
      ensures rows == Reconciled(old(rows), now)
      ensures affected == |OpenIds(old(rows))|
      ensures forall id :: id in rows && !IsTerminal(rows[id].status) ==> rows[id] == old(rows)[id] && rows[id].status.Other?
    {
      affected := 0;
      ghost var was, open := rows, OpenIds(rows);
      var table, todo := rows, rows.Keys;
      while todo != {}
        invariant Reconciling(was, table, todo, now)
        invariant affected == |open - todo|
        decreases |todo|
      {
        var id :| id in todo;
        ReconcileOne(was, table, todo, id, now);
        OneMoreSeen(open, todo, id);
        if IsOpen(table[id].status) {
          table, affected := table[id := Row(Failure, Some(now))], affected + 1;
        }
        todo := todo - {id};
      }
      assert open - todo == open;
      assert table == Reconciled(was, now);
      rows := table;
    }
  }

  // ---- What a worker reports --------------------------------------------------------------------------------

  // A step of a workflow and whether its command succeeds; steps without a command are passed over.
  datatype Step = Step(run: string, succeeds: bool)

  predicate Fails(s: Step) { s.run != "" && !s.succeeds }

  // The commands run, in order, up to and including the first that fails.
  function Commands(steps: seq<Step>): seq<Step> {
    if steps == [] then []
    else if steps[0].run == "" then Commands(steps[1..])
    else if Fails(steps[0]) then [steps[0]]
    else [steps[0]] + Commands(steps[1..])
  }

  function Flatten(jobs: seq<seq<Step>>): seq<Step> {
    if jobs == [] then [] else jobs[0] + Flatten(jobs[1..])
  }

  predicate AnyFails(steps: seq<Step>) { exists i :: 0 <= i < |steps| && Fails(steps[i]) }

  lemma {:induction false} CommandsAppend(a: seq<Step>, b: seq<Step>)
    ensures Commands(a + b) == if AnyFails(a) then Commands(a) else Commands(a) + Commands(b)
  {
    if a == [] {
      assert a + b == b;
    } else {
      assert (a + b)[1..] == a[1..] + b;
      CommandsAppend(a[1..], b);
      AnyFailsHead(a);
    }
  }

  lemma AnyFailsHead(a: seq<Step>)
    requires a != []
    ensures AnyFails(a) <==> Fails(a[0]) || AnyFails(a[1..])
  {
    assert a == [a[0]] + a[1..];
    FailsSomewhere([a[0]], a[1..]);
  }

  method RunJob(steps: seq<Step>) returns (failed: bool, log: seq<Step>)
    ensures failed <==> AnyFails(steps)
    ensures log == Commands(steps)
  {
    failed, log := false, [];
    var i := 0;
    while i < |steps|
      invariant 0 <= i <= |steps|
      invariant forall j :: 0 <= j < i ==> !Fails(steps[j])
      invariant log + Commands(steps[i..]) == Commands(steps)
      invariant !failed
    {
      assert steps[i..][1..] == steps[i + 1..];
      if steps[i].run != "" {
        log := log + [steps[i]];
        if !steps[i].succeeds {
          assert Fails(steps[i]);
          failed := true;
          return;
        }
      }
      i := i + 1;
    }
  }

  // The outcome of running a workflow; None is one that does not parse.
  function VerdictOf(workflow: Option<seq<seq<Step>>>): Status {
    if workflow.Some? && !AnyFails(Flatten(workflow.value)) then Success else Failure
  }

  /** The outcome of a run, for whatever order its jobs come in: success exactly when the workflow
      parses and no command fails, and nothing is run after the first failure. */
  method ExecuteRun(workflow: Option<seq<seq<Step>>>) returns (status: Status, log: seq<Step>)
    ensures status == VerdictOf(workflow)
    ensures log == if workflow.Some? then Commands(Flatten(workflow.value)) else []
  {
    if workflow.None? {
      return Failure, [];
    }
    var jobs := workflow.value;
    status, log := Success, [];
    var i := 0;
    while i < |jobs|
      invariant 0 <= i <= |jobs|
      invariant status == Success
      invariant RanUpTo(jobs, i, log)
    {
      NextJob(jobs, i, log);
      var failed, part := RunJob(jobs[i]);
      log := log + part;
      if failed {
        return Failure, log;
      }
      i := i + 1;
    }
  }

  lemma FirstJob(jobs: seq<seq<Step>>, i: nat)
    requires i < |jobs|
    ensures AnyFails(jobs[i]) ==> Commands(Flatten(jobs[i..])) == Commands(jobs[i])
    ensures !AnyFails(jobs[i]) ==>
      Commands(Flatten(jobs[i..])) == Commands(jobs[i]) + Commands(Flatten(jobs[i + 1..]))
    ensures AnyFails(Flatten(jobs[i..])) <==> AnyFails(jobs[i]) || AnyFails(Flatten(jobs[i + 1..]))
  {
    assert jobs[i..][1..] == jobs[i + 1..];
    CommandsAppend(jobs[i], Flatten(jobs[i + 1..]));
    FailsSomewhere(jobs[i], Flatten(jobs[i + 1..]));
  }

  // No job before the i-th has failed, and their commands are logged.
  predicate RanUpTo(jobs: seq<seq<Step>>, i: nat, log: seq<Step>)
    requires i <= |jobs|
  {
    && log + Commands(Flatten(jobs[i..])) == Commands(Flatten(jobs))
    && (AnyFails(Flatten(jobs)) <==> AnyFails(Flatten(jobs[i..])))
  }

  lemma NextJob(jobs: seq<seq<Step>>, i: nat, log: seq<Step>)
    requires i < |jobs| && RanUpTo(jobs, i, log)
    ensures AnyFails(jobs[i]) ==> AnyFails(Flatten(jobs)) && log + Commands(jobs[i]) == Commands(Flatten(jobs))
    ensures !AnyFails(jobs[i]) ==> RanUpTo(jobs, i + 1, log + Commands(jobs[i]))
  {
    FirstJob(jobs, i);
    Regroup(log, Commands(jobs[i]), Commands(Flatten(jobs[i + 1..])));
  }

  lemma Regroup<T>(a: seq<T>, b: seq<T>, c: seq<T>)
    ensures a + b + c == a + (b + c)
  {
  }

  lemma FailsSomewhere(a: seq<Step>, b: seq<Step>)
    ensures AnyFails(a + b) <==> AnyFails(a) || AnyFails(b)
  {
    if AnyFails(a) {
      var i :| 0 <= i < |a| && Fails(a[i]);
      assert Fails((a + b)[i]);
    }
    if AnyFails(b) {
      var i :| 0 <= i < |b| && Fails(b[i]);
      assert Fails((a + b)[|a| + i]);
    }
  }

  // ---- The system over time -----------------------------------------------------------------------------------

  datatype Write = Write(id: string, from: Status, to: Status)

  // `starting`, `failing` and `workers` are the runs a live goroutine is about to start, to give up on,
  // or is executing; `lost` are those whose last write failed.
  datatype System = System(
    rows: Rows, up: bool,
    starting: set<string>, failing: set<string>, workers: set<string>, lost: set<string>,
    writes: seq<Write>)

  // How a statement went: done, not done, or done although it reported an error.
  datatype Reply = Done | NotDone | DoneWithError

  datatype Action =
    | Trigger(id: string)
    | Start(id: string, reply: Reply)
    | GiveUp(id: string, now: int, done: bool)
    | Complete(id: string, success: bool, now: int, done: bool)
    | Crash
    | Boot(now: int, renamed: bool, reconciled: bool)

  function Log(s: System, id: string, to: Status): System
    requires id in s.rows
  {
    s.(writes := s.writes + [Write(id, s.rows[id].status, to)])
  }

  // finishRun: the update is guarded by the open statuses only.
  function FinishIn(s: System, id: string, status: Status, now: int, done: bool): System {
    if !done then s.(lost := s.lost + {id})
    else if id in s.rows && IsOpen(s.rows[id].status) then
      Log(s, id, status).(rows := Finished(s.rows, id, status, now))
    else s
  }

  function Next(s: System, a: Action): System {
    match a
    case Trigger(id) =>
      if !s.up || id in s.rows then s
      else s.(rows := s.rows[id := Row(Queued, None)], starting := s.starting + {id})
    case Start(id, reply) =>
      if id !in s.starting then s
      else
        var t := s.(starting := s.starting - {id});
        var hit := id in s.rows && s.rows[id].status == Queued && !reply.NotDone?;
        var u := if hit then Log(t, id, Running).(rows := Moved(s.rows, id, Queued, Running)) else t;
        if hit && reply.Done? then u.(workers := u.workers + {id}) else u.(failing := u.failing + {id})
    case GiveUp(id, now, done) =>
      if id !in s.failing then s
      else FinishIn(s.(failing := s.failing - {id}), id, Failure, now, done)
    case Complete(id, success, now, done) =>
      if id !in s.workers then s
      else FinishIn(s.(workers := s.workers - {id}), id, if success then Success else Failure, now, done)
    case Crash => s.(up := false, starting := {}, failing := {}, workers := {}, lost := {})
    case Boot(now, renamed, reconciled) =>
      if s.up || !renamed then s
      else if !reconciled then s.(rows := Renamed(s.rows))
      else s.(rows := Reconciled(Renamed(s.rows), now), up := true)
  }

  function After(s: System, acts: seq<Action>): System {
    if acts == [] then s else Next(After(s, acts[..|acts| - 1]), acts[|acts| - 1])
  }

  // A table as an earlier version may have left it, with no process running.
  predicate Initial(s: System) {
    && !s.up && s.starting == s.failing == s.workers == s.lost == {} && s.writes == []
    && StampsMatch(s)
  }

  // ---- What always holds -------------------------------------------------------------------------------------------

  predicate StampsMatch(s: System) {
    forall id :: id in s.rows ==> (s.rows[id].finishedAt.Some? <==> IsTerminal(s.rows[id].status))
  }

  // Every run a goroutine holds is where that goroutine left it, and held by no other.
  predicate Owned(s: System) {
    && s.starting !! s.failing !! s.workers
    && (forall id :: id in s.starting ==> id in s.rows && s.rows[id].status == Queued)
    && (forall id :: id in s.failing ==> id in s.rows && (s.rows[id].status == Queued || s.rows[id].status == Running))
    && (forall id :: id in s.workers ==> id in s.rows && s.rows[id].status == Running)
    && (!s.up ==> s.starting == s.failing == s.workers == s.lost == {})
  }

  // While a process runs, an open row is held by a goroutine unless its last write failed.
  predicate Accounted(s: System) {
    forall id :: s.up && id in s.rows && !IsTerminal(s.rows[id].status) && !s.rows[id].status.Other? ==>
      id in s.starting + s.failing + s.workers + s.lost
  }

  predicate WritesAreEdges(s: System) {
    forall k :: 0 <= k < |s.writes| ==> CanTransition(Normalize(s.writes[k].from), s.writes[k].to)
  }

  predicate Inv(s: System) { StampsMatch(s) && Owned(s) && Accounted(s) && WritesAreEdges(s) }

  // A terminal write to a row in one of the expected states.
  lemma FinishKeeps(s: System, id: string, status: Status, now: int, done: bool)
    requires StampsMatch(s) && WritesAreEdges(s) && s.up && id in s.rows && id !in s.starting + s.failing + s.workers
    requires Owned(s) && IsTerminal(status) && CanTransition(s.rows[id].status, status)
    requires forall k :: k in s.rows && k != id && !IsTerminal(s.rows[k].status) && !s.rows[k].status.Other? ==>
      k in s.starting + s.failing + s.workers + s.lost
    ensures Inv(FinishIn(s, id, status, now, done))
  {
  }

  lemma TriggerKeeps(s: System, id: string)
    requires Inv(s)
    ensures Inv(Next(s, Trigger(id)))
  {
  }

  lemma StartKeeps(s: System, id: string, reply: Reply)
    requires Inv(s)
    ensures Inv(Next(s, Start(id, reply)))
  {
  }

  lemma BootKeeps(s: System, now: int, renamed: bool, reconciled: bool)
    requires Inv(s)
    ensures Inv(Next(s, Boot(now, renamed, reconciled)))
  {
  }

  lemma NextKeeps(s: System, a: Action)
    requires Inv(s)
    ensures Inv(Next(s, a))
  {
    match a
    case Trigger(id) => TriggerKeeps(s, id);
    case Start(id, reply) => StartKeeps(s, id, reply);
    case GiveUp(id, now, done) =>
      if id in s.failing { FinishKeeps(s.(failing := s.failing - {id}), id, Failure, now, done); }
    case Complete(id, success, now, done) =>
      if id in s.workers { FinishKeeps(s.(workers := s.workers - {id}), id, if success then Success else Failure, now, done); }
    case Crash =>
    case Boot(now, renamed, reconciled) => BootKeeps(s, now, renamed, reconciled);
  }

  lemma {:induction false} RunsKeep(s: System, acts: seq<Action>)
    requires Initial(s)
    ensures Inv(After(s, acts))
  {
    if acts != [] {
      RunsKeep(s, acts[..|acts| - 1]);
      NextKeeps(After(s, acts[..|acts| - 1]), acts[|acts| - 1]);
    }
  }

  /** In every history: rows carry a finish time exactly when terminal; every status write of a request
      or worker, legacy spelling read as queued, is an edge of the state machine, so success comes only from
      running although the guard of the terminal write would also let it follow queued; and with no
      run in hand and no failed write behind it, a live process has only terminal rows. */
  lemma RunsAreSound(s: System, acts: seq<Action>)
    requires Initial(s)
    ensures var t := After(s, acts);
      && (forall id :: id in t.rows ==> (t.rows[id].finishedAt.Some? <==> IsTerminal(t.rows[id].status)))
      && (forall k :: 0 <= k < |t.writes| ==> CanTransition(Normalize(t.writes[k].from), t.writes[k].to))
      && (forall k :: 0 <= k < |t.writes| && t.writes[k].to == Success ==> t.writes[k].from == Running)
      && (t.up && t.starting + t.failing + t.workers + t.lost == {} ==>
            forall id :: id in t.rows ==> IsTerminal(t.rows[id].status) || t.rows[id].status.Other?)
  {
    RunsKeep(s, acts);
  }

  // ---- Terminal rows -----------------------------------------------------------------------------------------------------

  predicate IsFinal(s: System, id: string) { id in s.rows && IsTerminal(s.rows[id].status) }

  lemma NextKeepsFinal(s: System, a: Action, id: string)
    requires IsFinal(s, id)
    ensures IsFinal(Next(s, a), id) && Next(s, a).rows[id] == s.rows[id]
  {
  }

  /** A terminal row never changes again, neither its status nor its finish time. */
  lemma {:induction false} TerminalIsFinal(s: System, acts: seq<Action>, id: string)
    requires IsFinal(s, id)
    ensures IsFinal(After(s, acts), id) && After(s, acts).rows[id] == s.rows[id]
  {
    if acts != [] {
      TerminalIsFinal(s, acts[..|acts| - 1], id);
      NextKeepsFinal(After(s, acts[..|acts| - 1]), acts[|acts| - 1], id);
    }
  }

  /** A worker's terminal write is never ignored: its run is still running when it is made, and then has
      the worker's verdict for good. */
  lemma VerdictsStick(s: System, before: seq<Action>, id: string, success: bool, now: int, later: seq<Action>)
    requires Initial(s) && id in After(s, before).workers
    ensures var t := After(Next(After(s, before), Complete(id, success, now, true)), later);
      id in t.rows && t.rows[id] == Row(if success then Success else Failure, Some(now))
  {
    RunsKeep(s, before);
    TerminalIsFinal(Next(After(s, before), Complete(id, success, now, true)), later, id);
  }

  // ---- The life of one run ---------------------------------------------------------------------------------------------------

  // Actions of other runs only, in one process.
  predicate IsApart(a: Action, id: string) {
    match a
    case Crash => false
    case Boot(_, _, _) => true
    case _ => a.id != id
  }

  predicate AllApart(acts: seq<Action>, id: string) { forall k :: 0 <= k < |acts| ==> IsApart(acts[k], id) }

  // Two states of a live process that agree on a run.
  predicate SameRun(s: System, t: System, id: string) {
    && s.up && t.up
    && (id in s.rows <==> id in t.rows) && (id in s.rows ==> s.rows[id] == t.rows[id])
    && (id in s.starting <==> id in t.starting) && (id in s.failing <==> id in t.failing)
    && (id in s.workers <==> id in t.workers) && (id in s.lost <==> id in t.lost)
  }

  lemma {:induction false} OthersLeaveRun(s: System, acts: seq<Action>, id: string)
    requires s.up && AllApart(acts, id)
    ensures SameRun(s, After(s, acts), id)
  {
    if acts != [] {
      var n := |acts| - 1;
      OthersLeaveRun(s, acts[..n], id);
      assert IsApart(acts[n], id);
    }
  }

  /** The intended life of a run: a new one is triggered, its start succeeds and its worker reports, in
      one process, while other runs do whatever they do in between; at the end its row has the
      verdict of its workflow, with the time of the report, and no goroutine holds it. */
  lemma TriggeredRunGetsItsVerdict(
      s: System, id: string, workflow: Option<seq<seq<Step>>>, now: int, one: seq<Action>, two: seq<Action>, three: seq<Action>)
    requires s.up && id !in s.rows && id !in s.starting + s.failing + s.workers + s.lost
    requires AllApart(one, id) && AllApart(two, id) && AllApart(three, id)
    ensures var queued := After(Next(s, Trigger(id)), one);
      var running := After(Next(queued, Start(id, Done)), two);
      var t := After(Next(running, Complete(id, VerdictOf(workflow).Success?, now, true)), three);
      && queued.up && id in queued.rows && queued.rows[id] == Row(Queued, None) && id in queued.starting
      && running.up && id in running.rows && running.rows[id] == Row(Running, None) && id in running.workers
      && t.up && id in t.rows && t.rows[id] == Row(VerdictOf(workflow), Some(now))
      && id !in t.starting + t.failing + t.workers + t.lost
  {
    var queued := Next(s, Trigger(id));
    OthersLeaveRun(queued, one, id);
    var started := Next(After(queued, one), Start(id, Done));
    OthersLeaveRun(started, two, id);
    var done := Next(After(started, two), Complete(id, VerdictOf(workflow).Success?, now, true));
    OthersLeaveRun(done, three, id);
  }

  /** A run whose start fails stays queued, and one whose start only reports an error is running; either
      is failed by the goroutine that gives up on it. */
  lemma FailedStartFailsRun(
      s: System, id: string, reply: Reply, now: int, one: seq<Action>, two: seq<Action>, three: seq<Action>)
    requires s.up && id !in s.rows && id !in s.starting + s.failing + s.workers + s.lost && !reply.Done?
    requires AllApart(one, id) && AllApart(two, id) && AllApart(three, id)
    ensures var queued := After(Next(s, Trigger(id)), one);
      var failing := After(Next(queued, Start(id, reply)), two);
      var t := After(Next(failing, GiveUp(id, now, true)), three);
      && failing.up && id in failing.failing && id in failing.rows
      && failing.rows[id] == Row(if reply.NotDone? then Queued else Running, None)
      && t.up && id in t.rows && t.rows[id] == Row(Failure, Some(now))
      && id !in t.starting + t.failing + t.workers + t.lost
  {
    var queued := Next(s, Trigger(id));
    OthersLeaveRun(queued, one, id);
    var started := Next(After(queued, one), Start(id, reply));
    OthersLeaveRun(started, two, id);
    var done := Next(After(started, two), GiveUp(id, now, true));
    OthersLeaveRun(done, three, id);
  }

  // ---- Orphans ---------------------------------------------------------------------------------------------------------------

  // No step touches such a row: it is terminal, or its status is one no version of the program knows.
  predicate IsSettled(s: System, id: string) {
    id in s.rows && (IsTerminal(s.rows[id].status) || s.rows[id].status.Other?)
  }

  lemma NextKeepsSettled(s: System, a: Action, id: string)
    requires IsSettled(s, id)
    ensures IsSettled(Next(s, a), id) && Next(s, a).rows[id] == s.rows[id]
  {
  }

  lemma {:induction false} SettledStays(s: System, acts: seq<Action>, id: string)
    requires IsSettled(s, id)
    ensures IsSettled(After(s, acts), id) && After(s, acts).rows[id] == s.rows[id]
  {
    if acts != [] {
      SettledStays(s, acts[..|acts| - 1], id);
      NextKeepsSettled(After(s, acts[..|acts| - 1]), acts[|acts| - 1], id);
    }
  }

  lemma BootSettles(s: System, now: int, id: string)
    requires !s.up && id in s.rows
    ensures var t := Next(s, Boot(now, true, true));
      IsSettled(t, id) && t.rows[id] == Settled(s.rows[id], now)
  {
  }

  /** A boot decides every row it finds once and for all: whatever happens later, in this process or
      after further crashes and boots, an orphaned run stays failed as of this boot and every other row
      stays what it was; so any row that is open later belongs to a run triggered since. */
  lemma BootDecidesOrphans(s: System, now: int, later: seq<Action>, id: string)
    requires !s.up
    ensures var t := After(Next(s, Boot(now, true, true)), later);
      && (id in s.rows ==> id in t.rows && t.rows[id] == Settled(s.rows[id], now))
      && (id in t.rows && IsOpen(t.rows[id].status) ==> id !in s.rows)
  {
    if id in s.rows {
      BootSettles(s, now, id);
      SettledStays(Next(s, Boot(now, true, true)), later, id);
    }
  }

  predicate NoLegacySpelling(s: System) { forall id :: id in s.rows ==> !s.rows[id].status.Pending? }

  lemma NextKeepsSpelling(s: System, a: Action)
    requires NoLegacySpelling(s)
    ensures NoLegacySpelling(Next(s, a))
  {
  }

  lemma {:induction false} SpellingStays(s: System, acts: seq<Action>)
    requires NoLegacySpelling(s)
    ensures NoLegacySpelling(After(s, acts))
  {
    if acts != [] {
      SpellingStays(s, acts[..|acts| - 1]);
      NextKeepsSpelling(After(s, acts[..|acts| - 1]), acts[|acts| - 1]);
    }
  }

  /** Once a boot has renamed the legacy spelling, even one whose reconciliation then fails, no row ever
      has it again, and until then the boot changes nothing else.  The process is up only when both
      statements were made. */
  lemma LegacySpellingIsGone(s: System, now: int, reconciled: bool, later: seq<Action>)
    requires !s.up
    ensures NoLegacySpelling(After(Next(s, Boot(now, true, reconciled)), later))
    ensures Next(s, Boot(now, false, reconciled)) == s && Next(s, Boot(now, true, reconciled)).up == reconciled
    ensures var t := Next(s, Boot(now, true, false));
      t.up == s.up && t.rows.Keys == s.rows.Keys
      && forall id :: id in s.rows ==>
        t.rows[id].finishedAt == s.rows[id].finishedAt
        && t.rows[id].status == if s.rows[id].status.Pending? then Queued else s.rows[id].status
  {
    SpellingStays(Next(s, Boot(now, true, reconciled)), later);
  }

  /** While a process is up, an open row is in the hands of one of its goroutines, or its last write
      failed; the next boot then fails it. */
  lemma OpenRowsAreHeld(s: System, acts: seq<Action>, id: string)
    requires Initial(s)
    ensures var t := After(s, acts);
      t.up && id in t.rows && IsOpen(t.rows[id].status) ==> id in t.starting + t.failing + t.workers + t.lost
  {
    RunsKeep(s, acts);
  }
}
