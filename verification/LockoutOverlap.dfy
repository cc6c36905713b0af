/**
  Login failures recorded by calls that overlap.  RecordFailure loads the row in one statement and
  stores it in another, with no lock between them; any number of calls for one e-mail interleave,
  with clears and failing statements.
 */
module LockoutOverlap {
  import opened Common
  import opened Clock
  import opened LoginLockout

  // A call that has loaded the row and is about to store; `now` is the clock it read at its start.
  datatype Call = Pending(now: int, snapshot: Option<Row>) | Returned

  // `stored` counts the failures that reached the row.
  datatype System = System(row: Option<Row>, calls: seq<Call>, stored: nat)

  datatype Action = Load(now: int) | Store(call: nat) | Lose(call: nat) | Wipe

  const EMPTY := System(None, [], 0)

  function Return(s: System, i: nat): System
    requires i < |s.calls|
  {
    s.(calls := s.calls[i := Returned])
  }

  // A first failure is inserted, and the insertion fails if there is a row by now; any other updates
  // the row, if there still is one.
  function StoreStep(s: System, i: nat): System
    requires i < |s.calls| && s.calls[i].Pending?
  {
    var call, t := s.calls[i], Return(s, i);
    if call.snapshot.Some? == s.row.Some? then
      t.(row := Some(Failed(call.snapshot, call.now)), stored := s.stored + 1)
    else t
  }

  function Next(s: System, a: Action): System {
    match a
    case Load(now) => s.(calls := s.calls + [if IsLocked(s.row, now) then Returned else Pending(now, s.row)])
    case Store(i) => if i < |s.calls| && s.calls[i].Pending? then StoreStep(s, i) else s
    case Lose(i) => if i < |s.calls| then Return(s, i) else s
    case Wipe => s.(row := None)
  }

  function Run(s: System, acts: seq<Action>): System {
    if acts == [] then s else Next(Run(s, acts[..|acts| - 1]), acts[|acts| - 1])
  }

  lemma RunSnoc(s: System, acts: seq<Action>, a: Action)
    ensures Run(s, acts + [a]) == Next(Run(s, acts), a)
  {
    assert (acts + [a])[..|acts|] == acts;
  }

  predicate Counts(c: Call) { c.Pending? ==> !IsLocked(c.snapshot, c.now) }

  /** A call that finds the account locked leaves nothing to store: every pending call of a run counts a
      failure, and what it stores has the count one higher than what it loaded, or starts at one. */
  lemma {:induction false} PendingCallsCount(acts: seq<Action>, i: nat)
    requires i < |Run(EMPTY, acts).calls| && Run(EMPTY, acts).calls[i].Pending?
    ensures var c := Run(EMPTY, acts).calls[i];
      && Counts(c)
      && (Failed(c.snapshot, c.now).count == 1
          || (c.snapshot.Some? && Failed(c.snapshot, c.now).count == c.snapshot.value.count + 1))
  {
    if acts != [] {
      var n := |acts| - 1;
      var s := Run(EMPTY, acts[..n]);
      if i < |s.calls| && s.calls[i].Pending? { PendingCallsCount(acts[..n], i); }
    }
  }

  // A call ends once: after it stored, or its statement failed, a further attempt does nothing.
  lemma CallsEndOnce(s: System, i: nat, end: Action)
    requires i < |s.calls| && (end == Lose(i) || end == Store(i))
    ensures Next(Next(s, end), Store(i)) == Next(s, end)
    ensures Next(s, Lose(i)).row == s.row && Next(s, Lose(i)).stored == s.stored
  {
  }

  // ---- When a lock survives -----------------------------------------------------------------------

  // Nothing is cleared, and every call that starts reads a clock before the lock ends.
  predicate WhileLocked(acts: seq<Action>, until: int) {
    forall k :: 0 <= k < |acts| ==> !acts[k].Wipe? && (acts[k].Load? ==> acts[k].now < until)
  }

  ghost predicate LockSurvives(s: System, until: int) {
    forall acts: seq<Action> :: WhileLocked(acts, until) ==> Run(s, acts).row == s.row
  }

  // A pending call that loaded an earlier row and would store something else than what is there.
  predicate IsStale(s: System, i: nat)
    requires i < |s.calls|
  {
    && s.calls[i].Pending? && s.calls[i].snapshot.Some?
    && Some(Failed(s.calls[i].snapshot, s.calls[i].now)) != s.row
  }

  predicate NoneStale(s: System) { forall i :: 0 <= i < |s.calls| ==> !IsStale(s, i) }

  predicate HasLock(s: System, until: int) { s.row.Some? && s.row.value.lockedUntil == Some(until) }

  lemma NextKeepsLock(s: System, a: Action, until: int)
    requires HasLock(s, until) && NoneStale(s) && !a.Wipe? && (a.Load? ==> a.now < until)
    ensures Next(s, a).row == s.row && NoneStale(Next(s, a))
  {
    assert a.Store? && a.call < |s.calls| ==> !IsStale(s, a.call);
    var t := Next(s, a);
    forall i | 0 <= i < |t.calls| ensures !IsStale(t, i) {
      if i < |s.calls| { assert !IsStale(s, i); }
    }
  }

  lemma {:induction false} RunKeepsLock(s: System, acts: seq<Action>, until: int)
    requires HasLock(s, until) && NoneStale(s) && WhileLocked(acts, until)
    ensures Run(s, acts).row == s.row && NoneStale(Run(s, acts))
  {
    if acts != [] {
      RunKeepsLock(s, acts[..|acts| - 1], until);
      NextKeepsLock(Run(s, acts[..|acts| - 1]), acts[|acts| - 1], until);
    }
  }

  /** A lock survives every continuation in which nothing is cleared and no call starts after its end,
      if and only if no pending call holds an earlier row that it would store differently. */
  lemma LockSurvivesExactly(s: System, until: int)
    requires HasLock(s, until)
    ensures LockSurvives(s, until) <==> NoneStale(s)
  {
    if NoneStale(s) {
      forall acts: seq<Action> | WhileLocked(acts, until) ensures Run(s, acts).row == s.row {
        RunKeepsLock(s, acts, until);
      }
    } else {
      var i :| 0 <= i < |s.calls| && IsStale(s, i);
      var acts := [Store(i)];
      assert acts[..0] == [];
      assert Run(s, acts) == Next(s, Store(i));
      assert WhileLocked(acts, until) && Run(s, acts).row != s.row;
    }
  }

  // ---- A stale store lifts a lock ----------------------------------------------------------------------

  function Counted(n: nat): Option<Row> { Some(Row(n, None, 0)) }

  // One call on its own.
  function Solo(s: System, now: int): System { Next(Next(s, Load(now)), Store(|s.calls|)) }

  lemma SoloStores(s: System, now: int)
    ensures Solo(s, now).row == Some(Failed(s.row, now))
    ensures Solo(s, now).calls == s.calls + [Returned]
  {
    var t := Next(s, Load(now));
    if !IsLocked(s.row, now) {
      assert t.calls[|s.calls|] == Pending(now, s.row);
      assert t.calls[|s.calls| := Returned] == s.calls + [Returned];
    }
  }

  lemma SoloIsRun(s: System, acts: seq<Action>, now: int)
    ensures Solo(Run(s, acts), now) == Run(s, acts + [Load(now)] + [Store(|Run(s, acts).calls|)])
  {
    RunSnoc(s, acts, Load(now));
    RunSnoc(s, acts + [Load(now)], Store(|Run(s, acts).calls|));
  }

  // Three failures, a fourth call that has loaded, and two more that overtake it.
  function Overtaken(): System {
    var three := Solo(Solo(Solo(EMPTY, 0), 0), 0);
    Solo(Solo(Next(three, Load(0)), 0), 0)
  }

  lemma OvertakenIsLocked()
    ensures var s := Overtaken();
      && HasLock(s, LOCKOUT) && s.row.value.count == MAX_FAILURES
      && |s.calls| == 6 && s.calls[3] == Pending(0, Counted(3))
  {
    var s1 := Solo(EMPTY, 0);
    SoloStores(EMPTY, 0);
    var s2 := Solo(s1, 0);
    SoloStores(s1, 0);
    var s3 := Solo(s2, 0);
    SoloStores(s2, 0);
    assert s3.row == Counted(3) && s3.calls == [Returned, Returned, Returned];
    var s4 := Next(s3, Load(0));
    var s5 := Solo(s4, 0);
    SoloStores(s4, 0);
    SoloStores(s5, 0);
    assert s5.row == Counted(4);
  }

  /** A lock can be lifted by a failure: the fifth failure has locked the account, a call that loaded
      the third then stores its fourth, and the account is open again. */
  lemma StaleStoreLiftsLock()
    ensures var s := Overtaken();
      && IsLocked(s.row, 0) && Next(s, Store(3)).row == Counted(4) && !IsLocked(Next(s, Store(3)).row, 0)
  {
    OvertakenIsLocked();
  }

  // The state above is reached by a run.
  lemma OvertakenIsReached() returns (acts: seq<Action>)
    ensures Run(EMPTY, acts) == Overtaken()
  {
    acts := [];
    SoloIsRun(EMPTY, acts, 0);
    acts := acts + [Load(0)] + [Store(|Run(EMPTY, acts).calls|)];
    SoloIsRun(EMPTY, acts, 0);
    acts := acts + [Load(0)] + [Store(|Run(EMPTY, acts).calls|)];
    SoloIsRun(EMPTY, acts, 0);
    acts := acts + [Load(0)] + [Store(|Run(EMPTY, acts).calls|)];
    RunSnoc(EMPTY, acts, Load(0));
    acts := acts + [Load(0)];
    SoloIsRun(EMPTY, acts, 0);
    acts := acts + [Load(0)] + [Store(|Run(EMPTY, acts).calls|)];
    SoloIsRun(EMPTY, acts, 0);
    acts := acts + [Load(0)] + [Store(|Run(EMPTY, acts).calls|)];
  }

  // ---- When a clear lasts ---------------------------------------------------------------------------------

  predicate NoneStart(acts: seq<Action>) { forall k :: 0 <= k < |acts| ==> !acts[k].Load? }

  ghost predicate ClearLasts(s: System) {
    forall acts: seq<Action> :: NoneStart(acts) ==> Run(Next(s, Wipe), acts).row.None?
  }

  // A pending call that found no row and would insert one.
  predicate WouldInsert(s: System, i: nat)
    requires i < |s.calls|
  {
    s.calls[i].Pending? && s.calls[i].snapshot.None?
  }

  predicate NoneWouldInsert(s: System) { forall i :: 0 <= i < |s.calls| ==> !WouldInsert(s, i) }

  lemma NextStaysClear(s: System, a: Action)
    requires s.row.None? && NoneWouldInsert(s) && !a.Load?
    ensures Next(s, a).row.None? && NoneWouldInsert(Next(s, a))
  {
    assert a.Store? && a.call < |s.calls| ==> !WouldInsert(s, a.call);
    var t := Next(s, a);
    forall i | 0 <= i < |t.calls| ensures !WouldInsert(t, i) { assert !WouldInsert(s, i); }
  }

  lemma {:induction false} RunStaysClear(s: System, acts: seq<Action>)
    requires s.row.None? && NoneWouldInsert(s) && NoneStart(acts)
    ensures Run(s, acts).row.None? && NoneWouldInsert(Run(s, acts))
  {
    if acts != [] {
      RunStaysClear(s, acts[..|acts| - 1]);
      NextStaysClear(Run(s, acts[..|acts| - 1]), acts[|acts| - 1]);
    }
  }

  /** A successful login's clear lasts until another call starts, if and only if no pending call found the
      table without a row; the updates of all other pending calls find nothing to update. */
  lemma ClearLastsExactly(s: System)
    ensures ClearLasts(s) <==> NoneWouldInsert(s)
  {
    var t := Next(s, Wipe);
    if NoneWouldInsert(s) {
      assert NoneWouldInsert(t) by {
        forall i | 0 <= i < |t.calls| ensures !WouldInsert(t, i) { assert !WouldInsert(s, i); }
      }
      forall acts: seq<Action> | NoneStart(acts) ensures Run(t, acts).row.None? { RunStaysClear(t, acts); }
    } else {
      var i :| 0 <= i < |s.calls| && WouldInsert(s, i);
      var acts := [Store(i)];
      assert acts[..0] == [];
      assert Run(t, acts) == Next(t, Store(i));
      assert NoneStart(acts) && Run(t, acts).row.Some?;
    }
  }

  // ---- Overlapping calls defeat the count -----------------------------------------------------------------

  // n calls load a row with one failure; then the first m of them store.
  function Loaded(n: nat): System {
    if n == 0 then Solo(EMPTY, 0) else Next(Loaded(n - 1), Load(0))
  }

  function Stored(n: nat, m: nat): System {
    if m == 0 then Loaded(n) else Next(Stored(n, m - 1), Store(m))
  }

  lemma {:induction false} LoadedShape(n: nat)
    ensures Loaded(n).row == Counted(1) && |Loaded(n).calls| == n + 1 && Loaded(n).stored == 1
    ensures forall i :: 1 <= i <= n ==> Loaded(n).calls[i] == Pending(0, Counted(1))
  {
    if n == 0 { SoloStores(EMPTY, 0); } else { LoadedShape(n - 1); }
  }

  /** However many failures overlap, they count as one: for every n there is a run in which n failures
      after the first are all stored in one instant and the count is two. */
  lemma {:induction false} OverlapDefeatsCount(n: nat, m: nat)
    requires m <= n
    ensures var s := Stored(n, m);
      && s.stored == m + 1 && s.row == Counted(if m == 0 then 1 else 2)
      && |s.calls| == n + 1 && forall i :: m < i <= n ==> s.calls[i] == Pending(0, Counted(1))
  {
    if m == 0 { LoadedShape(n); } else { OverlapDefeatsCount(n, m - 1); }
  }

  // ---- Without overlap --------------------------------------------------------------------------------------

  function SoloRun(es: seq<Event>): System {
    if es == [] then EMPTY
    else
      var s, e := SoloRun(es[..|es| - 1]), es[|es| - 1];
      if e.Clear? then Next(s, Wipe) else Solo(s, e.now)
  }

  /** Calls that do not overlap leave the row of the sequential runs, and nothing pending: what is
      proved of those holds of them. */
  lemma {:induction false} SoloRunIsSequential(es: seq<Event>)
    ensures SoloRun(es).row == After(es)
    ensures forall i :: 0 <= i < |SoloRun(es).calls| ==> SoloRun(es).calls[i].Returned?
  {
    if es != [] {
      var n := |es| - 1;
      SoloRunIsSequential(es[..n]);
      SoloStores(SoloRun(es[..n]), es[n].now);
    }
  }
}
