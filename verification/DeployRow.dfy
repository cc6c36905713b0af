/**
  TransitionState as the code runs it: a retry loop over one mutable row.  What other writers do
  between its statements is an input, so the loop's contract speaks about every interference.
 */
module DeployRow {
  import opened Common
  import opened DeployStates
  import opened DeployStatus

  datatype Row = Row(status: Status, history: seq<Edge>)

  // One TransitionState call with no other writer around.
  function Sequential(row: Row, to: Status): Row {
    if Validate(row.status, to).Attempt? then Row(to, row.history + [Edge(row.status, to)]) else row
  }

  function SequentialRun(row: Row, requests: seq<Status>): Row {
    if requests == [] then row
    else Sequential(SequentialRun(row, requests[..|requests| - 1]), requests[|requests| - 1])
  }

  // The entries follow one another from `first` to `last`, each along a declared edge (or out of a
  // legacy status).
  predicate Chain(es: seq<Edge>, first: Status, last: Status) {
    if es == [] then first == last
    else
      var e := es[|es| - 1];
      && e.to == last
      && (IsValidState(e.from) ==> CanTransition(e.from, e.to))
      && Chain(es[..|es| - 1], first, e.from)
  }

  /** Calls that do not overlap leave a history that is one chain from the initial status to the
      current one. */
  lemma {:induction false} SequentialHistoryIsChain(initial: Status, requests: seq<Status>)
    ensures var row := SequentialRun(Row(initial, []), requests);
      Chain(row.history, initial, row.status)
  {
    if requests != [] {
      var n := |requests| - 1;
      SequentialHistoryIsChain(initial, requests[..n]);
      var before := SequentialRun(Row(initial, []), requests[..n]);
      var after := Sequential(before, requests[n]);
      if after != before {
        assert after.history[..|before.history|] == before.history;
      }
    }
  }

  // ---- The sequential form is the interleaving machine with one caller running alone -------------

  // A caller's program is at most: read, swap, lock, load, store, emit.
  function Solo(s: System, to: Status): System {
    var i := |s.callers|;
    var s1 := Apply(s, Spawn(Transition(to)));
    var s2 := Apply(Apply(s1, Step(i)), Step(i));
    var s3 := Apply(Apply(s2, Step(i)), Step(i));
    Apply(Apply(s3, Step(i)), Step(i))
  }

  lemma SoloReadSwap(s: System, to: Status)
    requires s.holder.None?
    ensures var i := |s.callers|;
      var s1 := Apply(s, Spawn(Transition(to)));
      var s2 := Apply(Apply(s1, Step(i)), Step(i));
      && |s2.callers| == i + 1 && s2.history == s.history && s2.holder.None?
      && s2.callers[i].req == Transition(to)
      && (if Validate(s.status, to).Attempt? then
            s2.status == to && s2.callers[i].pc == Locking(Edge(s.status, to))
          else s2.status == s.status && s2.callers[i].pc.Returned? && s2.callers[i].pc.outcome == Answer(s.status, to))
  {
    var i := |s.callers|;
    var s1 := Apply(s, Spawn(Transition(to)));
    assert s1.callers[i] == Caller(Transition(to), |s.writes|, Reading(0));
    var s1a := StepCaller(s1, i);
    assert s1a == ReadStep(s1, i);
  }

  lemma SoloLockLoad(s: System, i: nat)
    requires i < |s.callers| && s.holder.None? && (s.callers[i].pc.Locking? || s.callers[i].pc.Returned?)
    ensures var t := Apply(Apply(s, Step(i)), Step(i));
      && t.status == s.status && t.history == s.history && |t.callers| == |s.callers|
      && t.callers[i].req == s.callers[i].req
      && (if s.callers[i].pc.Locking? then t.callers[i].pc == StoreHistory(s.callers[i].pc.edge, s.history)
          else t.callers[i].pc == s.callers[i].pc && t.holder.None?)
  {
    var t := StepCaller(s, i);
    if s.callers[i].pc.Locking? {
      assert t == LockStep(s, i);
    } else {
      assert t == s;
    }
  }

  lemma SoloStoreEmit(s: System, i: nat)
    requires i < |s.callers| && s.callers[i].req.Transition?
    requires (s.callers[i].pc.Returned? && s.holder.None?)
      || (s.callers[i].pc.StoreHistory? && s.callers[i].pc.loaded == s.history)
    ensures var t := Apply(Apply(s, Step(i)), Step(i));
      && t.status == s.status && t.holder.None?
      && |t.callers| == |s.callers| && t.callers[i].pc.Returned?
      && t.callers[i].pc.outcome == (if s.callers[i].pc.Returned? then s.callers[i].pc.outcome else Nil)
      && t.history == if s.callers[i].pc.StoreHistory? then s.history + [s.callers[i].pc.edge] else s.history
  {
    var t := StepCaller(s, i);
    if s.callers[i].pc.StoreHistory? {
      assert t == StoreStep(s, i);
    } else {
      assert t == s;
    }
  }

  // The answer of a call with no other writer around.
  function Answer(current: Status, to: Status): Outcome {
    if Validate(current, to).Rejected? then InvalidTransition(current) else Nil
  }

  /** A call that nothing interrupts does to the row exactly what the sequential form says, answers nil
      unless the edge is refused, and leaves the mutex free for the next. */
  lemma SoloCallIsSequential(s: System, to: Status)
    requires s.holder.None?
    ensures var t := Solo(s, to);
      && Row(t.status, t.history) == Sequential(Row(s.status, s.history), to)
      && |t.callers| == |s.callers| + 1 && t.callers[|s.callers|].pc.Returned? && t.holder.None?
      && t.callers[|s.callers|].pc.outcome == Answer(s.status, to)
  {
    var i := |s.callers|;
    SoloReadSwap(s, to);
    var s2 := Apply(Apply(Apply(s, Spawn(Transition(to))), Step(i)), Step(i));
    SoloLockLoad(s2, i);
    var s3 := Apply(Apply(s2, Step(i)), Step(i));
    SoloStoreEmit(s3, i);
  }

  // Calls of the machine that do not overlap.
  function SoloRun(s: System, requests: seq<Status>): System {
    if requests == [] then s else Solo(SoloRun(s, requests[..|requests| - 1]), requests[|requests| - 1])
  }

  lemma {:induction false} SoloRunIsSequential(initial: Status, requests: seq<Status>)
    ensures var s := SoloRun(Fresh(initial), requests);
      s.holder.None? && Row(s.status, s.history) == SequentialRun(Row(initial, []), requests)
  {
    if requests != [] {
      var n := |requests| - 1;
      SoloRunIsSequential(initial, requests[..n]);
      SoloCallIsSequential(SoloRun(Fresh(initial), requests[..n]), requests[n]);
    }
  }

  /** Runs of the machine in which calls do not overlap leave a history that is one chain of allowed
      edges from the initial status to the current one. */
  lemma NonOverlappingHistoryIsChain(initial: Status, requests: seq<Status>)
    ensures var s := SoloRun(Fresh(initial), requests);
      Chain(s.history, initial, s.status)
  {
    SoloRunIsSequential(initial, requests);
    SequentialHistoryIsChain(initial, requests);
  }

  // The history of a row that has walked the path.
  function Walked(p: seq<Status>): seq<Edge> {
    if |p| <= 1 then [] else Walked(p[..|p| - 1]) + [Edge(p[|p| - 2], p[|p| - 1])]
  }

  lemma PathInit(p: seq<Status>)
    requires Path(p) && |p| > 1
    ensures Path(p[..|p| - 1]) && CanTransition(p[|p| - 2], p[|p| - 1])
  {
    var q := p[..|p| - 1];
    assert CanTransition(p[|p| - 2], p[|p| - 2 + 1]);
    forall k | 0 <= k < |q| - 1 ensures CanTransition(q[k], q[k + 1]) {
      assert CanTransition(p[k], p[k + 1]);
    }
  }

  lemma {:induction false} PathIsWalkedInOrder(p: seq<Status>)
    requires Path(p)
    ensures SequentialRun(Row(p[0], []), p[1..]) == Row(p[|p| - 1], Walked(p))
    decreases |p|
  {
    if |p| > 1 {
      PathInit(p);
      PathIsWalkedInOrder(p[..|p| - 1]);
      assert p[..|p| - 1][1..] == p[1..][..|p[1..]| - 1];
    }
  }

  /** Requests along a table path that do not overlap are all granted: each answers nil and writes its
      target, and the history lists the path's edges in order. */
  lemma PathIsWalked(p: seq<Status>)
    requires Path(p)
    ensures var s := SoloRun(Fresh(p[0]), p[1..]);
      s.status == p[|p| - 1] && s.history == Walked(p)
    ensures forall k :: 0 <= k < |p| - 1 ==> Answer(p[k], p[k + 1]) == Nil
  {
    PathIsWalkedInOrder(p);
    SoloRunIsSequential(p[0], p[1..]);
    forall k | 0 <= k < |p| - 1 ensures Answer(p[k], p[k + 1]) == Nil {
      assert CanTransition(p[k], p[k + 1]);
    }
  }

  // The life of a deployment that builds, runs, is stopped, resumed and at last rolled back.
  const LIFECYCLE := [Pending, Building, Deploying, Running, Draining, Stopped, Running, RolledBack]

  /** That life is a path of the table, so calls for its states that do not overlap are all granted,
      from the first to the terminal one. */
  lemma LifecycleIsGranted()
    ensures Path(LIFECYCLE)
    ensures var s := SoloRun(Fresh(Pending), LIFECYCLE[1..]);
      s.status == RolledBack && s.history == Walked(LIFECYCLE)
  {
    PathIsWalked(LIFECYCLE);
  }

  // ---- The loop ---------------------------------------------------------------------------------

  // What other callers do meanwhile: statuses they install and history entries they append.
  datatype Foreign = Foreign(statuses: seq<Status>, entries: seq<Edge>)

  // What happens before the caller's read of an attempt, between that read and the attempt's
  // compare-and-swap, and between a successful swap and the history append; and which of the three
  // statements fail.
  datatype Interference = Interference(
    beforeRead: Foreign, beforeSwap: Foreign, afterSwap: Foreign,
    readFails: bool, swapFails: bool, appendFails: bool)

  const NOTHING := Foreign([], [])

  const QUIET := Interference(NOTHING, NOTHING, NOTHING, false, false, false)

  // The history holds the caller's own entries and those of others, in some order.
  predicate Mixes(history: seq<Edge>, own: seq<Edge>, others: seq<Edge>) {
    multiset(history) == multiset(own) + multiset(others)
  }

  predicate Undisturbed(others: seq<Interference>) {
    forall k :: 0 <= k < |others| ==> others[k] == QUIET
  }

  // The status x was in force at some instant from index `from` of `past` on.
  ghost predicate Held(past: seq<Status>, from: nat, x: Status) {
    exists k :: from <= k < |past| && past[k] == x
  }

  lemma HeldLast(past: seq<Status>, from: nat)
    requires from < |past|
    ensures Held(past, from, past[|past| - 1])
  {
  }

  lemma HeldSurvives(past: seq<Status>, longer: seq<Status>, from: nat, x: Status)
    requires past <= longer && Held(past, from, x)
    ensures Held(longer, from, x)
  {
    var k :| from <= k < |past| && past[k] == x;
    assert longer[k] == x;
  }

  lemma HeldEarlier(past: seq<Status>, from: nat, later: nat, x: Status)
    requires from <= later && Held(past, later, x)
    ensures Held(past, from, x)
  {
    var k :| later <= k < |past| && past[k] == x;
    assert past[k] == x;
  }

  // What one finished attempt, or the whole call, may report: `entry` indexes the status in force when
  // it began, `before` and `after` are its entries then and now.
  ghost predicate Justifies(outcome: Outcome, to: Status, past: seq<Status>, entry: nat, before: seq<Edge>, after: seq<Edge>) {
    match outcome
    case Nil =>
      && Held(past, entry, to)
      && (after == before ||
          exists from :: after == before + [Edge(from, to)] && Validate(from, to) == Attempt && Held(past, entry, from))
    case InvalidTransition(seen) =>
      && after == before
      && Held(past, entry, seen) && IsValidState(seen) && seen != to && !CanTransition(seen, to)
    case Conflict => after == before
    case DbFailure => after == before
  }

  lemma JustifiesEarlier(outcome: Outcome, to: Status, past: seq<Status>, entry: nat, later: nat, before: seq<Edge>, after: seq<Edge>)
    requires entry <= later && Justifies(outcome, to, past, later, before, after)
    ensures Justifies(outcome, to, past, entry, before, after)
  {
    forall x | Held(past, later, x) ensures Held(past, entry, x) {
      HeldEarlier(past, entry, later, x);
    }
  }

  lemma WriteJustifies(from: Status, to: Status, past: seq<Status>, entry: nat, before: seq<Edge>, after: seq<Edge>)
    requires Held(past, entry, to) && Held(past, entry, from) && Validate(from, to) == Attempt
    requires after == before || after == before + [Edge(from, to)]
    ensures Justifies(Nil, to, past, entry, before, after)
  {
  }

  class Deployment {
    var status: Status
    var history: seq<Edge>
    // Every status the row has had, oldest first.
    ghost var past: seq<Status>
    // Entries appended by the calls of this object, and by others.
    ghost var own: seq<Edge>
    ghost var others: seq<Edge>

    ghost predicate Valid()
      reads this
    {
      past != [] && past[|past| - 1] == status && Mixes(history, own, others)
    }

    constructor (initial: Status)
      ensures Valid() && status == initial && history == own == others == [] && past == [initial]
    {
      status, history, past := initial, [], [initial];
      own, others := [], [];
    }

    method Interfere(f: Foreign)
      requires Valid()
      modifies this
      ensures Valid() && past == old(past) + f.statuses && own == old(own)
      ensures history == old(history) + f.entries
    {
      if f.statuses != [] {
        status := f.statuses[|f.statuses| - 1];
      }
      past := past + f.statuses;
      history := history + f.entries;
      others := others + f.entries;
    }

    // UPDATE deployments SET status = to WHERE id = ? AND status = from
    method CompareAndSwap(from: Status, to: Status) returns (updated: bool)
      requires Valid()
      modifies this`status, this`past
      ensures Valid()
      ensures updated <==> old(status) == from
      ensures past == if updated then old(past) + [to] else old(past)
    {
      updated := status == from;
      if updated {
        status := to;
        past := past + [to];
      }
    }

    method AppendHistory(e: Edge)
      requires Valid()
      modifies this`history, this`own
      ensures Valid() && history == old(history) + [e] && own == old(own) + [e]
    {
      history := history + [e];
      own := own + [e];
    }

    // One pass of the loop: read, validate, compare-and-swap, append; None means the race was lost.
    method TryOnce(to: Status, other: Interference) returns (done: Option<Outcome>)
      requires Valid()
      modifies this
      ensures Valid() && old(past) <= past && old(history) <= history
      ensures done.None? ==> |past| > |old(past)| && own == old(own)
      ensures done.Some? ==> !done.value.Conflict? && Justifies(done.value, to, past, |old(past)| - 1, old(own), own)
      ensures done == Some(DbFailure) ==> other.readFails || other.swapFails
      ensures other == QUIET ==> done.Some? && Row(status, history) == Sequential(Row(old(status), old(history)), to)
    {
      ghost var entry := |past| - 1;
      var current;
      done, current := ReadAndValidate(to, other);
      if done.Some? {
        return;
      }
      ghost var read := past;
      done := SwapAndRecord(current, to, other);
      HeldSurvives(read, past, entry, current);
      if done == Some(Nil) {
        HeldEarlier(past, entry, |read| - 1, to);
        WriteJustifies(current, to, past, entry, old(own), own);
      }
    }

    // The first half of a pass: None means that the swap is to be tried.
    method ReadAndValidate(to: Status, other: Interference) returns (done: Option<Outcome>, current: Status)
      requires Valid()
      modifies this
      ensures Valid() && old(past) <= past && old(history) <= history && own == old(own)
      ensures done.None? ==> status == current && Validate(current, to) == Attempt && Held(past, |old(past)| - 1, current)
      ensures done.Some? ==> !done.value.Conflict? && Justifies(done.value, to, past, |old(past)| - 1, old(own), own)
      ensures done == Some(DbFailure) <==> other.readFails
      ensures other == QUIET ==> past == old(past) && history == old(history) && (done.None? <==> Validate(old(status), to) == Attempt)
    {
      Interfere(other.beforeRead);
      current := status;
      HeldLast(past, |old(past)| - 1);
      if other.readFails {
        return Some(DbFailure), current;
      }
      if current == to {
        return Some(Nil), current;
      }
      if IsValidState(current) && !CanTransition(current, to) {
        return Some(InvalidTransition(current)), current;
      }
      return None, current;
    }

    // The second half of a pass: compare-and-swap, and on success the history append, whose failure
    // is only logged.
    method SwapAndRecord(current: Status, to: Status, other: Interference) returns (done: Option<Outcome>)
      requires Valid() && status == current
      modifies this
      ensures Valid() && old(past) <= past && old(history) <= history
      ensures done.None? ==> |past| > |old(past)| && own == old(own)
      ensures done.Some? ==> done.value == Nil || (done.value == DbFailure && other.swapFails && own == old(own))
      ensures done == Some(Nil) ==>
        && Held(past, |old(past)| - 1, to)
        && own == if other.appendFails then old(own) else old(own) + [Edge(current, to)]
      ensures other == QUIET ==> done == Some(Nil) && status == to && history == old(history) + [Edge(current, to)]
    {
      ghost var entry := |past| - 1;
      Interfere(other.beforeSwap);
      if other.swapFails {
        return Some(DbFailure);
      }
      var updated := CompareAndSwap(current, to);
      if !updated {
        return None;
      }
      HeldLast(past, entry);
      ghost var swapped := past;
      Record(Edge(current, to), other);
      HeldSurvives(swapped, past, entry, to);
      return Some(Nil);
    }

    // The history append that follows a successful swap.
    method Record(e: Edge, other: Interference)
      requires Valid()
      modifies this
      ensures Valid() && old(past) <= past && old(history) <= history
      ensures own == if other.appendFails then old(own) else old(own) + [e]
      ensures other == QUIET ==> status == old(status) && past == old(past) && history == old(history) + [e]
    {
      Interfere(other.afterSwap);
      if !other.appendFails {
        AppendHistory(e);
      }
    }

    /** The retry loop.  Instants of the call are the indices of `past` from the entry status on. */
    method TransitionState(to: Status, meanwhile: seq<Interference>) returns (outcome: Outcome)
      requires Valid() && |meanwhile| == MAX_ATTEMPTS
      modifies this
      ensures Valid() && old(past) <= past && old(history) <= history
      ensures Justifies(outcome, to, past, |old(past)| - 1, old(own), own)
      ensures outcome.Conflict? ==> |past| - |old(past)| >= MAX_ATTEMPTS
      ensures outcome.DbFailure? ==> exists k :: 0 <= k < |meanwhile| && (meanwhile[k].readFails || meanwhile[k].swapFails)
      ensures Undisturbed(meanwhile) ==>
        Row(status, history) == Sequential(Row(old(status), old(history)), to)
    {
      var attempt := 0;
      while attempt < MAX_ATTEMPTS
        invariant 0 <= attempt <= MAX_ATTEMPTS
        invariant Valid() && old(past) <= past && old(history) <= history && own == old(own)
        invariant |past| - |old(past)| >= attempt
        invariant Undisturbed(meanwhile) ==> attempt == 0 && status == old(status) && history == old(history)
      {
        ghost var later := |past| - 1;
        var done := TryOnce(to, meanwhile[attempt]);
        if done.Some? {
          JustifiesEarlier(done.value, to, past, |old(past)| - 1, later, old(own), own);
          return done.value;
        }
        attempt := attempt + 1;
      }
      return Conflict;
    }
  }
}
