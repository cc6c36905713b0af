/**
  The supervisor's restart policy: the crash-loop window and the backoff between restarts.
  Backoff is over the reals, rounding aside.
 */
module CrashLoop {
  import opened Common
  import opened Clock

  const CRASH_LOOP_BURST := 5
  const CRASH_LOOP_WINDOW: int := 60 * SECOND

  predicate InWindow(t: int, now: int) {
    now - CRASH_LOOP_WINDOW <= t <= now
  }

  // How many of the recorded crashes fall inside the window ending at `now`.
  function CountInWindow(history: seq<int>, now: int): nat {
    if history == [] then 0
    else
      CountInWindow(history[..|history| - 1], now)
        + (if InWindow(history[|history| - 1], now) then 1 else 0)
  }

  method IsCrashLooping(history: seq<int>, now: int) returns (looping: bool)
    ensures looping <==> CountInWindow(history, now) >= CRASH_LOOP_BURST
  {
    var cutoff := now - CRASH_LOOP_WINDOW;
    var count := 0;
    for i := 0 to |history|
      invariant count == CountInWindow(history[..i], now)
    {
      assert history[..i + 1][..i] == history[..i];
      if !(history[i] < cutoff) && !(history[i] > now) {
        count := count + 1;
      }
    }
    assert history[..|history|] == history;
    return count >= CRASH_LOOP_BURST;
  }

  // The fifth-last recorded crash is still inside the window.
  predicate FifthLastInWindow(history: seq<int>, now: int) {
    |history| >= CRASH_LOOP_BURST && history[|history| - CRASH_LOOP_BURST] >= now - CRASH_LOOP_WINDOW
  }

  // Among nondecreasing times none of which is later than `now`, those in the window are a suffix.
  lemma {:induction false} WindowIsSuffix(history: seq<int>, now: int, m: nat)
    requires Nondecreasing(history)
    requires forall k :: 0 <= k < |history| ==> history[k] <= now
    requires m <= |history|
    ensures CountInWindow(history, now) >= m <==> (m == 0 || history[|history| - m] >= now - CRASH_LOOP_WINDOW)
    decreases |history|
  {
    if history != [] && m > 0 {
      var n := |history| - 1;
      WindowIsSuffix(history[..n], now, m - 1);
      if !InWindow(history[n], now) {
        WindowIsSuffix(history[..n], now, if m <= n then m else n);
        NoneInWindow(history[..n], now);
      }
    }
  }

  lemma {:induction false} NoneInWindow(history: seq<int>, now: int)
    requires forall k :: 0 <= k < |history| ==> !InWindow(history[k], now)
    ensures CountInWindow(history, now) == 0
  {
    if history != [] {
      NoneInWindow(history[..|history| - 1], now);
    }
  }

  /** On nondecreasing crash times up to now, the test answers exactly whether the fifth-last
      recorded crash is inside the window. */
  lemma CrashLoopIsFifthLast(history: seq<int>, now: int)
    requires Nondecreasing(history) && forall k :: 0 <= k < |history| ==> history[k] <= now
    ensures CountInWindow(history, now) >= CRASH_LOOP_BURST <==> FifthLastInWindow(history, now)
  {
    if |history| >= CRASH_LOOP_BURST {
      WindowIsSuffix(history, now, CRASH_LOOP_BURST);
    } else {
      CountAtMostLength(history, now);
    }
  }

  lemma {:induction false} CountAtMostLength(history: seq<int>, now: int)
    ensures CountInWindow(history, now) <= |history|
  {
    if history != [] {
      CountAtMostLength(history[..|history| - 1], now);
    }
  }

  // ---- The restart loop ----------------------------------------------------------------------------

  // The loop reads the clock twice per crash: to record it, and to test the window.
  datatype Reading = Reading(at: int, now: int)

  predicate ClockRuns(rs: seq<Reading>) {
    && (forall i :: 0 <= i < |rs| ==> rs[i].at <= rs[i].now)
    && (forall i, j :: 0 <= i < j < |rs| ==> rs[i].now <= rs[j].at)
  }

  function Times(rs: seq<Reading>): (ts: seq<int>)
    ensures |ts| == |rs| && forall k :: 0 <= k < |rs| ==> ts[k] == rs[k].at
  {
    if rs == [] then [] else Times(rs[..|rs| - 1]) + [rs[|rs| - 1].at]
  }

  // At the test made after crash i (counting from 0), the crash four before it is in the window.
  predicate Trips(rs: seq<Reading>, i: nat)
    requires i < |rs|
  {
    i >= CRASH_LOOP_BURST - 1 && rs[i - (CRASH_LOOP_BURST - 1)].at >= rs[i].now - CRASH_LOOP_WINDOW
  }

  lemma TestIsTrips(rs: seq<Reading>, i: nat)
    requires ClockRuns(rs) && i < |rs|
    ensures CountInWindow(Times(rs[..i + 1]), rs[i].now) >= CRASH_LOOP_BURST <==> Trips(rs, i)
  {
    TimesRun(rs, i);
    CrashLoopIsFifthLast(Times(rs[..i + 1]), rs[i].now);
  }

  lemma TimesRun(rs: seq<Reading>, i: nat)
    requires ClockRuns(rs) && i < |rs|
    ensures var ts := Times(rs[..i + 1]);
      && (forall j, k :: 0 <= j < k < |ts| ==> ts[j] <= ts[k])
      && (forall k :: 0 <= k < |ts| ==> ts[k] <= rs[i].now)
  {
    var ts := Times(rs[..i + 1]);
    forall j, k | 0 <= j < k < |ts| ensures ts[j] <= ts[k] {
      assert rs[j].at <= rs[j].now <= rs[k].at;
    }
    forall k | 0 <= k < |ts| ensures ts[k] <= rs[i].now {
      assert k < i ==> rs[k].at <= rs[k].now <= rs[i].at;
    }
  }

  predicate NoTripBefore(rs: seq<Reading>, n: nat)
    requires n <= |rs|
  {
    forall j :: 0 <= j < n ==> !Trips(rs, j)
  }

  /** The loop over the crashes of one Run call: it gives up at the first crash whose fifth-last
      predecessor is still inside the window, and keeps restarting if there is none. */
  method RestartLoop(rs: seq<Reading>) returns (tripped: Option<nat>, history: seq<int>)
    requires ClockRuns(rs)
    ensures tripped.Some? ==>
      && tripped.value < |rs| && Trips(rs, tripped.value) && NoTripBefore(rs, tripped.value)
      && history == Times(rs[..tripped.value + 1])
    ensures tripped.None? ==> NoTripBefore(rs, |rs|) && history == Times(rs)
  {
    history := [];
    for i := 0 to |rs|
      invariant history == Times(rs[..i])
      invariant NoTripBefore(rs, i)
    {
      history := history + [rs[i].at];
      assert history == Times(rs[..i + 1]) by {
        assert rs[..i + 1][..i] == rs[..i];
      }
      var looping := IsCrashLooping(history, rs[i].now);
      TestIsTrips(rs, i);
      if looping {
        return Some(i), history;
      }
    }
    assert rs[..|rs|] == rs;
    return None, history;
  }

  lemma NoTripGap(rs: seq<Reading>, i: nat)
    requires ClockRuns(rs) && NoTripBefore(rs, |rs|) && 4 <= i < |rs|
    ensures rs[i - 4].at < rs[i].now - CRASH_LOOP_WINDOW
  {
    assert !Trips(rs, i);
  }

  lemma {:induction false} FoursSpread(rs: seq<Reading>, k: nat)
    requires ClockRuns(rs) && NoTripBefore(rs, |rs|) && k >= 1 && 4 * k < |rs|
    requires forall i :: 0 <= i < |rs| ==> rs[i].now == rs[i].at
    ensures rs[4 * k].at - rs[0].at > CRASH_LOOP_WINDOW * k
  {
    NoTripGap(rs, 4 * k);
    if k > 1 {
      FoursSpread(rs, k - 1);
      assert rs[4 * k - 4] == rs[4 * (k - 1)];
    }
  }

  lemma {:induction false} FivesSpread(rs: seq<Reading>, k: nat)
    requires ClockRuns(rs) && NoTripBefore(rs, |rs|) && k >= 1 && 5 * k < |rs|
    ensures rs[5 * k].at - rs[0].at > CRASH_LOOP_WINDOW * k
  {
    NoTripGap(rs, 5 * k - 1);
    assert rs[5 * k - 1].now <= rs[5 * k].at;
    if k > 1 {
      FivesSpread(rs, k - 1);
      assert rs[5 * k - 5] == rs[5 * (k - 1)];
    }
  }

  /** n crashes without a trip are spread out: with one clock reading per crash they span more than
      60s for every four restarts. */
  lemma CrashesSpreadOneReading(rs: seq<Reading>)
    requires ClockRuns(rs) && NoTripBefore(rs, |rs|) && |rs| >= 5
    requires forall i :: 0 <= i < |rs| ==> rs[i].now == rs[i].at
    ensures rs[|rs| - 1].at - rs[0].at > CRASH_LOOP_WINDOW * ((|rs| - 1) / 4)
  {
    var k := (|rs| - 1) / 4;
    FoursSpread(rs, k);
    assert rs[4 * k].at <= rs[|rs| - 1].at;
  }

  /** With the loop's two readings, whatever time passes between them, more than 60s for every five
      restarts. */
  lemma CrashesSpread(rs: seq<Reading>)
    requires ClockRuns(rs) && NoTripBefore(rs, |rs|) && |rs| >= 6
    ensures rs[|rs| - 1].at - rs[0].at > CRASH_LOOP_WINDOW * ((|rs| - 1) / 5)
  {
    var k := (|rs| - 1) / 5;
    FivesSpread(rs, k);
    assert 5 * k < |rs| - 1 ==> rs[5 * k].now <= rs[|rs| - 1].at;
  }

  // ---- Backoff -------------------------------------------------------------------------------------

  const BACKOFF_BASE := 1.0
  const BACKOFF_CAP := 60.0

  function Pow2(n: nat): (p: real)
    ensures p >= 1.0
  {
    if n == 0 then 1.0 else 2.0 * Pow2(n - 1)
  }

  function Ceiling(attempt: nat): real {
    var c := BACKOFF_BASE * Pow2(attempt);
    if c > BACKOFF_CAP then BACKOFF_CAP else c
  }

  function Scale(frac: real, c: real): (r: real)
    requires 0.0 <= frac <= 1.0 && c >= 0.0
    ensures 0.0 <= r <= c
    ensures frac == 1.0 ==> r == c
  {
    assert frac * c + (1.0 - frac) * c == c;
    assert (1.0 - frac) * c >= 0.0;
    frac * c
  }

  // The delay before restart `attempt`, in seconds, for a jitter fraction drawn from [0, 1].
  function NextBackoff(attempt: nat, frac: real): (delay: real)
    requires 0.0 <= frac <= 1.0
    ensures 0.0 <= delay <= Ceiling(attempt) <= BACKOFF_CAP
    ensures frac == 1.0 ==> delay == Ceiling(attempt)
  {
    Scale(frac, Ceiling(attempt))
  }

  /** The ceiling never decreases, doubles until it is capped, and is capped from the seventh
      attempt on. */
  lemma {:induction false} CeilingGrows(a: nat, b: nat)
    requires a <= b
    ensures Ceiling(a) <= Ceiling(b)
    ensures Ceiling(a + 1) == Ceiling(a) * 2.0 || Ceiling(a + 1) == BACKOFF_CAP
    ensures a >= 6 ==> Ceiling(a) == BACKOFF_CAP
    decreases b
  {
    if a < b {
      CeilingGrows(a, b - 1);
    }
    if a > 6 {
      CeilingGrows(a - 1, a - 1);
    } else if a == 6 {
      assert Pow2(6) == 64.0 by {
        assert Pow2(3) == 8.0;
      }
    }
  }

  // Dividing by a positive number undoes scaling by it.
  lemma ScaleUndone(delay: real, c: real)
    requires c > 0.0 && 0.0 <= delay <= c
    ensures 0.0 <= delay / c <= 1.0 && Scale(delay / c, c) == delay
  {
    var frac := delay / c;
    assert frac * c == delay;
    assert frac < 0.0 ==> frac * c < 0.0;
    assert frac > 1.0 ==> frac * c > c;
  }

  /** Full jitter: the delays before restart `attempt` are all of 0 up to the ceiling, which is one
      second at first. */
  lemma BackoffCovers(attempt: nat, delay: real)
    ensures 0.0 <= delay <= Ceiling(attempt) <==> exists frac :: 0.0 <= frac <= 1.0 && NextBackoff(attempt, frac) == delay
    ensures Ceiling(0) == 1.0
  {
    if 0.0 <= delay <= Ceiling(attempt) {
      ScaleUndone(delay, Ceiling(attempt));
      assert NextBackoff(attempt, delay / Ceiling(attempt)) == delay;
    }
  }
}
