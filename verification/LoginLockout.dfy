/**
  Login lockout: failed logins are counted per e-mail in a window that opens with the first failure,
  and the fifth locks the account.  Times are integer nanoseconds; stored times lose their fraction
  of a second.
 */
module LoginLockout {
  import opened Common
  import opened Clock

  const MAX_FAILURES: nat := 5
  const WINDOW: nat := 900 * SECOND
  const LOCKOUT: nat := 900 * SECOND

  // Windows open strictly more than this apart.
  const GAP: nat := 899 * SECOND

  datatype Row = Row(count: nat, lockedUntil: Option<int>, windowStart: int)

  datatype Outcome = Open | Locked(retryAfter: int)

  // What a time becomes when it is stored.
  function Trunc(t: int): int { t - t % SECOND }

  predicate IsLocked(row: Option<Row>, now: int) {
    row.Some? && row.value.lockedUntil.Some? && now < row.value.lockedUntil.value
  }

  function Failed(row: Option<Row>, now: int): Row {
    if IsLocked(row, now) then row.value
    else
      var counting := row.Some? && now - row.value.windowStart < WINDOW;
      var count := if counting then row.value.count + 1 else 1;
      Row(
        count,
        if count >= MAX_FAILURES then Some(Trunc(now + LOCKOUT)) else None,
        if counting then row.value.windowStart else Trunc(now))
  }

  function FailureOutcome(row: Option<Row>, now: int): Outcome {
    if IsLocked(row, now) then Locked(row.value.lockedUntil.value - now)
    else if Failed(row, now).count >= MAX_FAILURES then Locked(LOCKOUT)
    else Open
  }

  // ---- The store ------------------------------------------------------------------------------------

  class LockoutStore {
    var rows: map<string, Row>

    constructor ()
      ensures rows == map[]
    {
      rows := map[];
    }

    function Find(email: string): Option<Row>
      reads this
    {
      if email in rows then Some(rows[email]) else None
    }

    method CheckLocked(email: string, now: int) returns (r: Outcome)
      ensures r == if IsLocked(Find(email), now) then Locked(rows[email].lockedUntil.value - now) else Open
    {
      if email in rows && rows[email].lockedUntil.Some? && now < rows[email].lockedUntil.value {
        return Locked(rows[email].lockedUntil.value - now);
      }
      return Open;
    }

    method RecordFailure(email: string, now: int) returns (r: Outcome)
      modifies this
      ensures rows == old(rows)[email := Failed(old(Find(email)), now)]
      ensures r == FailureOutcome(old(Find(email)), now)
    {
      var count, windowStart := 1, now;
      if email in rows {
        var row := rows[email];
        if row.lockedUntil.Some? && now < row.lockedUntil.value {
          assert rows == rows[email := row];
          return Locked(row.lockedUntil.value - now);
        }
        if now - row.windowStart < WINDOW {
          count, windowStart := row.count + 1, row.windowStart;
        } else {
          windowStart := Trunc(windowStart);
        }
      } else {
        windowStart := Trunc(windowStart);
      }
      var lockedUntil: Option<int> := None;
      if count >= MAX_FAILURES {
        lockedUntil := Some(Trunc(now + LOCKOUT));
      }
      rows := rows[email := Row(count, lockedUntil, windowStart)];
      return if lockedUntil.Some? then Locked(LOCKOUT) else Open;
    }

    method ClearFailures(email: string)
      modifies this
      ensures rows == old(rows) - {email}
    {
      rows := rows - {email};
    }
  }

  // ---- Every run ---------------------------------------------------------------------------------------

  datatype Event = Fail(now: int) | Clear(now: int)

  // What a run of calls for one e-mail leaves in its row.
  function After(es: seq<Event>): Option<Row> {
    if es == [] then None
    else
      var before, e := After(es[..|es| - 1]), es[|es| - 1];
      if e.Clear? then None else Some(Failed(before, e.now))
  }

  predicate InOrder(es: seq<Event>) {
    forall i, j :: 0 <= i < j < |es| ==> es[i].now <= es[j].now
  }

  // Stored times are whole seconds, the count is 1 to 5 and a row carries a lock exactly at 5; the
  // lock never ends before the window does.
  predicate Sound(row: Row) {
    && 1 <= row.count <= MAX_FAILURES
    && (row.count == MAX_FAILURES <==> row.lockedUntil.Some?)
    && row.windowStart == Trunc(row.windowStart)
    && (row.lockedUntil.Some? ==> row.lockedUntil.value == Trunc(row.lockedUntil.value)
                                  && row.windowStart + WINDOW <= row.lockedUntil.value)
  }

  lemma FailedIsSound(row: Option<Row>, now: int)
    requires row.Some? ==> Sound(row.value) && row.value.windowStart <= now
    ensures Sound(Failed(row, now)) && Failed(row, now).windowStart <= now
  {
    TruncShift(now);
  }

  // Both durations are whole seconds, so truncation commutes with adding them.
  lemma TruncShift(t: int)
    ensures Trunc(t + LOCKOUT) == Trunc(t) + LOCKOUT
    ensures Trunc(Trunc(t)) == Trunc(t) <= t < Trunc(t) + SECOND
  {
    assert (t + LOCKOUT) % SECOND == t % SECOND;
    assert (t - t % SECOND) % SECOND == 0;
  }

  lemma {:induction false} RowsAreSound(es: seq<Event>)
    requires InOrder(es)
    ensures After(es).Some? ==> Sound(After(es).value) && After(es).value.windowStart <= es[|es| - 1].now
  {
    if es != [] {
      var n := |es| - 1;
      RowsAreSound(es[..n]);
      if es[n].Fail? {
        FailedIsSound(After(es[..n]), es[n].now);
      }
    }
  }

  /** In every run the count is 1 to 5 and a row carries a lock exactly at 5; and the first failure
      after a lock has run out always starts counting again from 1. */
  lemma LockoutRestarts(es: seq<Event>, now: int)
    requires InOrder(es) && After(es).Some?
    ensures 1 <= After(es).value.count <= MAX_FAILURES
    ensures After(es).value.lockedUntil.Some? <==> After(es).value.count == MAX_FAILURES
    ensures After(es).value.lockedUntil.Some? && !IsLocked(After(es), now) ==>
      Failed(After(es), now) == Row(1, None, Trunc(now))
  {
    RowsAreSound(es);
  }

  /** A failure that locks the account keeps it locked for more than 14m59s and at most 15m, during
      which the row does not change. */
  lemma LockLasts(es: seq<Event>, now: int, t: int)
    requires InOrder(es) && (es != [] ==> es[|es| - 1].now <= now <= t)
    requires !IsLocked(After(es), now) && FailureOutcome(After(es), now).Locked?
    ensures var row := Failed(After(es), now);
      && (t <= now + GAP ==> IsLocked(Some(row), t) && Failed(Some(row), t) == row)
      && (t >= now + LOCKOUT ==> !IsLocked(Some(row), t))
  {
    RowsAreSound(es);
    TruncShift(now);
  }

  // The i-th call was the fifth failure of its window, nothing was cleared since, and its lock still
  // runs at t.
  predicate LockedBy(es: seq<Event>, i: nat, t: int)
    requires i < |es|
  {
    && es[i].Fail? && !IsLocked(After(es[..i]), es[i].now)
    && After(es[..i + 1]).value.count == MAX_FAILURES
    && (forall j :: i < j < |es| ==> es[j].Fail?)
    && t < Trunc(es[i].now) + LOCKOUT
  }

  ghost predicate SomeLocks(es: seq<Event>, t: int) { exists i :: 0 <= i < |es| && LockedBy(es, i, t) }

  lemma LockedByLonger(es: seq<Event>, e: Event, i: nat, t: int)
    requires i < |es|
    ensures LockedBy(es + [e], i, t) <==> LockedBy(es, i, t) && e.Fail?
  {
    var longer := es + [e];
    assert longer[..i] == es[..i] && longer[..i + 1] == es[..i + 1];
    assert LockedBy(longer, i, t) ==> longer[|es|].Fail?;
    if LockedBy(longer, i, t) {
      forall j | i < j < |es| ensures es[j].Fail? { assert longer[j].Fail?; }
    }
  }

  lemma {:induction false} SomeLocksLonger(es: seq<Event>, e: Event, t: int)
    ensures SomeLocks(es + [e], t) <==> (e.Fail? && SomeLocks(es, t)) || LockedBy(es + [e], |es|, t)
  {
    forall i: nat | i < |es| ensures LockedBy(es + [e], i, t) <==> LockedBy(es, i, t) && e.Fail? {
      LockedByLonger(es, e, i, t);
    }
  }

  lemma AfterSnoc(es: seq<Event>, e: Event)
    ensures After(es + [e]) == if e.Clear? then None else Some(Failed(After(es), e.now))
  {
    assert (es + [e])[..|es|] == es;
  }

  // The lock a failure sets ends fifteen minutes after the second it fell in.
  lemma {:induction false} LocksNow(es: seq<Event>, now: int, t: int)
    requires InOrder(es) && (es != [] ==> es[|es| - 1].now <= now) && now <= t
    ensures var longer := es + [Fail(now)];
      LockedBy(longer, |es|, t) <==> !IsLocked(After(es), now) && IsLocked(After(longer), t)
  {
    var longer := es + [Fail(now)];
    assert longer[..|es|] == es && longer[..|es| + 1] == longer;
    AfterSnoc(es, Fail(now));
    RowsAreSound(es);
    if After(es).Some? { FailedIsSound(After(es), now); }
    TruncShift(now);
  }

  // One more call, given what is known of the calls before it.
  lemma {:induction false} LockedStep(es: seq<Event>, e: Event, t: int)
    requires InOrder(es) && (es != [] ==> es[|es| - 1].now <= e.now) && e.now <= t
    requires IsLocked(After(es), t) <==> SomeLocks(es, t)
    requires IsLocked(After(es), e.now) <==> SomeLocks(es, e.now)
    ensures IsLocked(After(es + [e]), t) <==> SomeLocks(es + [e], t)
  {
    SomeLocksLonger(es, e, t);
    AfterSnoc(es, e);
    if e.Fail? {
      LocksNow(es, e.now, t);
      LockOutlives(es, e.now, t);
      if IsLocked(After(es), e.now) {
        assert After(es + [e]) == After(es);
      }
    } else {
      assert !LockedBy(es + [e], |es|, t);
    }
  }

  /** What a check answers, in terms of what happened: the account is locked exactly when some failure
      was the fifth recorded of its window, nothing was cleared since, and less than fifteen minutes
      have passed since the second it fell in. */
  lemma {:induction false} LockedExactly(es: seq<Event>, t: int)
    requires InOrder(es) && (es != [] ==> es[|es| - 1].now <= t)
    ensures IsLocked(After(es), t) <==> SomeLocks(es, t)
  {
    if es != [] {
      var n := |es| - 1;
      LockedExactly(es[..n], t);
      LockedExactly(es[..n], es[n].now);
      LockedStep(es[..n], es[n], t);
      assert es == es[..n] + [es[n]];
    }
  }

  // A lock that runs at t ran before.
  lemma {:induction false} LockOutlives(es: seq<Event>, now: int, t: int)
    requires now <= t
    ensures SomeLocks(es, t) ==> SomeLocks(es, now)
  {
    if SomeLocks(es, t) {
      var i :| 0 <= i < |es| && LockedBy(es, i, t);
      assert LockedBy(es, i, now);
    }
  }

  lemma {:induction false} ClearStartsAfresh(es: seq<Event>, now: int, later: seq<Event>)
    ensures After(es + [Clear(now)] + later) == After(later)
  {
    var all := es + [Clear(now)] + later;
    var n := |all| - 1;
    if later == [] {
      assert all[n] == Clear(now);
    } else {
      var m := |later| - 1;
      assert all[..n] == es + [Clear(now)] + later[..m] && all[n] == later[m];
      ClearStartsAfresh(es, now, later[..m]);
    }
  }

  /** What a failure answers: locked exactly when the row it leaves is locked, with the time that row's
      lock still runs, up to the second lost when it is stored. */
  lemma FailureAnswersForRow(es: seq<Event>, now: int)
    requires InOrder(es) && (es != [] ==> es[|es| - 1].now <= now)
    ensures var row, r := Failed(After(es), now), FailureOutcome(After(es), now);
      && (r.Locked? <==> IsLocked(Some(row), now))
      && (r.Locked? ==> 0 <= now + r.retryAfter - row.lockedUntil.value < SECOND)
      && (IsLocked(After(es), now) ==> row == After(es).value && r == Locked(row.lockedUntil.value - now))
  {
    RowsAreSound(es);
    TruncShift(now);
  }

  // ---- How many failures an attacker gets -------------------------------------------------------------------

  predicate Nonclearing(es: seq<Event>) {
    forall i :: 0 <= i < |es| ==> es[i].Fail?
  }

  // Failures recorded (as opposed to refused by a lock) at times in lo..hi.
  function Recorded(es: seq<Event>, lo: int, hi: int): nat {
    if es == [] then 0
    else
      var n := |es| - 1;
      Recorded(es[..n], lo, hi)
        + (if es[n].Fail? && lo <= es[n].now <= hi && !IsLocked(After(es[..n]), es[n].now) then 1 else 0)
  }

  // Where the counting stands: the current window opened at `start`, its last failure was recorded at
  // `last`, and `earlier` windows with failures since lo came before it.
  datatype Ledger = Ledger(start: int, last: int, earlier: nat, late: bool)

  // Failures that must have fallen before lo, or never happened, given where the windows lie.
  function Missing(l: Ledger): nat {
    if l.late then 0 else if l.earlier == 0 then 1 else 2
  }

  ghost predicate Accounts(row: Row, l: Ledger, lo: int, recorded: nat) {
    && Sound(row)
    && row.windowStart == Trunc(l.start) && l.start <= l.last < row.windowStart + WINDOW
    && (row.lockedUntil.Some? ==> row.lockedUntil.value == Trunc(l.last) + LOCKOUT)
    && (l.last < lo ==> recorded == 0)
    && (recorded > 0 ==>
          && recorded + Missing(l) <= row.count + MAX_FAILURES * l.earlier
          && (l.late || l.earlier > 0 ==> lo + l.earlier * (GAP + 1) <= l.start + (if l.late then 0 else GAP)))
    && (recorded == 0 ==> l.earlier == 0 && (l.late <==> lo <= l.start))
  }

  lemma SameWindow(row: Row, l: Ledger, lo: int, recorded: nat, now: int)
    requires Accounts(row, l, lo, recorded) && l.last <= now
    requires !IsLocked(Some(row), now) && now - row.windowStart < WINDOW
    ensures Accounts(Failed(Some(row), now), l.(last := now), lo, recorded + if lo <= now then 1 else 0)
  {
    TruncShift(now);
  }

  // The ledger entry for a window opening now.
  function Reopened(l: Ledger, lo: int, recorded: nat, locked: bool, now: int): Ledger {
    if recorded == 0 then Ledger(now, now, 0, lo <= now)
    else Ledger(now, now, l.earlier + 1, l.late || (l.earlier == 0 && locked))
  }

  lemma NewWindow(row: Row, l: Ledger, lo: int, recorded: nat, now: int)
    requires Accounts(row, l, lo, recorded) && l.last <= now
    requires !IsLocked(Some(row), now) && now - row.windowStart >= WINDOW
    ensures Accounts(Failed(Some(row), now), Reopened(l, lo, recorded, row.lockedUntil.Some?, now), lo,
                     recorded + if lo <= now then 1 else 0)
  {
    TruncShift(now);
    TruncShift(l.start);
    TruncShift(l.last);
  }

  lemma {:induction false} RunAccounts(es: seq<Event>, lo: int, hi: int) returns (l: Ledger)
    requires InOrder(es) && Nonclearing(es) && es != [] && es[|es| - 1].now <= hi
    ensures After(es).Some? && l.last <= es[|es| - 1].now
    ensures Accounts(After(es).value, l, lo, Recorded(es, lo, hi))
    decreases |es|
  {
    var n := |es| - 1;
    var before, now := es[..n], es[n].now;
    if n == 0 {
      TruncShift(now);
      assert before == [];
      return Ledger(now, now, 0, lo <= now);
    }
    l := RunAccounts(before, lo, hi);
    var row, recorded := After(before).value, Recorded(before, lo, hi);
    if !IsLocked(Some(row), now) {
      if now - row.windowStart < WINDOW {
        SameWindow(row, l, lo, recorded, now);
        l := l.(last := now);
      } else {
        NewWindow(row, l, lo, recorded, now);
        l := Reopened(l, lo, recorded, row.lockedUntil.Some?, now);
      }
    }
  }

  // The most failures an interval of n gaps can see.
  function Most(n: nat): nat { if n == 0 then MAX_FAILURES else MAX_FAILURES * n + MAX_FAILURES - 2 }

  /** Without a clear, at most eight failures are recorded in any interval of up to 14m59s, and five
      more for every further 14m59s. */
  lemma {:induction false} FailuresAreBounded(es: seq<Event>, lo: int, n: nat)
    requires InOrder(es) && Nonclearing(es)
    ensures Recorded(es, lo, lo + n * GAP) <= Most(n)
    decreases |es|
  {
    var hi := lo + n * GAP;
    if es != [] && es[|es| - 1].now > hi {
      FailuresAreBounded(es[..|es| - 1], lo, n);
    } else if es != [] {
      var l := RunAccounts(es, lo, hi);
      AccountsBound(After(es).value, l, lo, Recorded(es, lo, hi), n);
    }
  }

  lemma AccountsBound(row: Row, l: Ledger, lo: int, recorded: nat, n: nat)
    requires Accounts(row, l, lo, recorded) && l.last <= lo + n * GAP
    ensures recorded <= Most(n)
  {
    if recorded > 0 && (l.late || l.earlier > 0) {
      var windows := if l.late then n else n + 1;
      OpeningsFit(GAP, windows, l.earlier, lo, l.start + if l.late then 0 else GAP);
    }
  }

  // Four failures, three of them at the end of the first window, then five in the next.
  function Burst(): seq<Event> {
    var a, b := Fail(SECOND - 1), Fail(WINDOW - 1);
    var c := Fail(WINDOW);
    [a, b, b, b, c, c, c, c, c]
  }

  lemma OneMore(es: seq<Event>, i: nat, lo: int, hi: int)
    requires i < |es| && es[i].Fail?
    ensures After(es[..i + 1]) == Some(Failed(After(es[..i]), es[i].now))
    ensures Recorded(es[..i + 1], lo, hi) == Recorded(es[..i], lo, hi)
      + if lo <= es[i].now <= hi && !IsLocked(After(es[..i]), es[i].now) then 1 else 0
  {
    assert es[..i + 1][..i] == es[..i];
  }

  lemma BurstStep(i: nat)
    requires i < |Burst()|
    ensures var es, lo := Burst(), WINDOW - 1;
      && After(es[..i + 1]) == Some(
           if i < 4 then Row(i + 1, None, 0)
           else Row(i - 3, if i == 8 then Some(WINDOW + LOCKOUT) else None, WINDOW))
      && Recorded(es[..i + 1], lo, lo + GAP) == i
  {
    var es, lo := Burst(), WINDOW - 1;
    if i > 0 {
      BurstStep(i - 1);
    } else {
      assert es[..0] == [];
    }
    OneMore(es, i, lo, lo + GAP);
  }

  /** Eight is reached, within one nanosecond. */
  lemma EightAreReached()
    ensures InOrder(Burst()) && Nonclearing(Burst())
    ensures Recorded(Burst(), WINDOW - 1, WINDOW - 1 + 1 * GAP) == Most(1) == 8
  {
    BurstStep(8);
    assert Burst()[..9] == Burst();
  }
}
