/**
  The fixed-window token bucket that both rate limiters are made of, for one client.
 */
module TokenBucket {
  import opened Common
  import opened Clock

  datatype Bucket = Bucket(tokens: int, resetAt: int)

  datatype Config = Config(limit: int, window: nat)

  datatype Answer = Allowed | Denied(resetAt: int)

  // The bucket a request finds: new or refilled once the window has elapsed.
  function Ready(c: Config, b: Option<Bucket>, now: int): Bucket {
    if b.None? || now > b.value.resetAt then Bucket(c.limit, now + c.window) else b.value
  }

  function Spend(b: Bucket): Bucket {
    if b.tokens <= 0 then b else b.(tokens := b.tokens - 1)
  }

  function Verdict(b: Bucket): Answer {
    if b.tokens <= 0 then Denied(b.resetAt) else Allowed
  }

  // ---- One client's requests over time -----------------------------------------------------------

  function After(c: Config, times: seq<int>): (b: Option<Bucket>)
    ensures b.Some? <==> times != []
  {
    if times == [] then None
    else
      var n := |times| - 1;
      Some(Spend(Ready(c, After(c, times[..n]), times[n])))
  }

  // The answer to the last request.
  function LastAnswer(c: Config, times: seq<int>): Answer
    requires times != []
  {
    var n := |times| - 1;
    Verdict(Ready(c, After(c, times[..n]), times[n]))
  }

  // Requests allowed at times in lo..hi, both included.
  function GrantsIn(c: Config, times: seq<int>, lo: int, hi: int): nat {
    if times == [] then 0
    else
      var n := |times| - 1;
      GrantsIn(c, times[..n], lo, hi) + (if lo <= times[n] <= hi && LastAnswer(c, times) == Allowed then 1 else 0)
  }

  // What the bucket remembers about the grants since lo.  `earlier` windows with grants lie before the
  // current one; `late` says that the first of them all began at lo or after it.  If it began before
  // lo, the grant that opened it does not count.
  ghost predicate Accounts(c: Config, b: Bucket, last: int, lo: int, grants: nat, earlier: nat, late: bool) {
    && 0 <= b.tokens < c.limit
    && b.resetAt - c.window <= last <= b.resetAt
    && (b.resetAt < lo ==> grants == 0)
    && (b.resetAt >= lo ==>
          && grants + (if late then 0 else 1) <= c.limit - b.tokens + earlier * c.limit
          && lo + earlier * (c.window + 1) <= b.resetAt - (if late then c.window else 0))
  }

  lemma StepAccounts(c: Config, b: Bucket, last: int, now: int, lo: int, grants: nat, earlier: nat, late: bool)
    returns (m: nat, late': bool)
    requires c.limit >= 1 && Accounts(c, b, last, lo, grants, earlier, late) && last <= now
    ensures var ready := Ready(c, Some(b), now);
      Accounts(c, Spend(ready), now, lo, grants + (if lo <= now && Verdict(ready) == Allowed then 1 else 0), m, late')
  {
    if now <= b.resetAt {
      return earlier, late;
    }
    if b.resetAt < lo {
      return 0, lo <= now;
    }
    m, late' := earlier + 1, late;
    assert m * c.limit == earlier * c.limit + c.limit;
    assert m * (c.window + 1) == earlier * (c.window + 1) + c.window + 1;
  }

  lemma {:induction false} RunAccounts(c: Config, times: seq<int>, lo: int, hi: int) returns (m: nat, late: bool)
    requires c.limit >= 1 && Nondecreasing(times) && times != [] && times[|times| - 1] <= hi
    ensures Accounts(c, After(c, times).value, times[|times| - 1], lo, GrantsIn(c, times, lo, hi), m, late)
    decreases |times|
  {
    var n := |times| - 1;
    var earlier := times[..n];
    if n == 0 {
      return 0, lo <= times[0];
    }
    m, late := RunAccounts(c, earlier, lo, hi);
    m, late := StepAccounts(c, After(c, earlier).value, earlier[n - 1], times[n], lo, GrantsIn(c, earlier, lo, hi), m, late);
  }

  lemma {:induction false} NoLimitNoGrants(c: Config, times: seq<int>, lo: int, hi: int)
    requires c.limit <= 0
    ensures GrantsIn(c, times, lo, hi) == 0
    ensures times != [] ==> After(c, times).value.tokens <= 0
  {
    if times != [] {
      NoLimitNoGrants(c, times[..|times| - 1], lo, hi);
    }
  }

  // The most that an interval of n windows can be granted.
  function Ceiling(c: Config, n: nat): nat {
    if c.limit <= 0 then 0 else if n == 0 then c.limit else (n + 1) * c.limit - 1
  }

  /** Whatever the requests, an interval as long as n > 0 windows is granted less than n + 1 times the
      limit, and a single instant at most the limit. */
  lemma {:induction false} GrantsAreBounded(c: Config, times: seq<int>, lo: int, n: nat)
    requires Nondecreasing(times)
    ensures GrantsIn(c, times, lo, lo + n * c.window) <= Ceiling(c, n)
    decreases |times|
  {
    var hi := lo + n * c.window;
    if c.limit <= 0 {
      NoLimitNoGrants(c, times, lo, hi);
    } else if times != [] && times[|times| - 1] > hi {
      GrantsAreBounded(c, times[..|times| - 1], lo, n);
    } else if times != [] {
      var m, late := RunAccounts(c, times, lo, hi);
      AccountsBound(c, After(c, times).value, times[|times| - 1], lo, GrantsIn(c, times, lo, hi), m, late, n);
    }
  }

  lemma AccountsBound(c: Config, b: Bucket, last: int, lo: int, grants: nat, earlier: nat, late: bool, n: nat)
    requires c.limit >= 1 && Accounts(c, b, last, lo, grants, earlier, late) && last <= lo + n * c.window
    ensures grants <= Ceiling(c, n)
  {
    if b.resetAt >= lo {
      var windows := if late then n else n + 1;
      assert windows * c.window == n * c.window + (if late then 0 else c.window);
      OpeningsFit(c.window, windows, earlier, lo, b.resetAt - if late then c.window else 0);
      var total := if late && n > 0 then n else n + 1;
      MoreWindowsMoreGrants(c, earlier + 1, total);
      assert grants + (if late then 0 else 1) <= (earlier + 1) * c.limit;
    } else if n > 0 {
      MoreWindowsMoreGrants(c, 1, n + 1);
    }
  }

  lemma MoreWindowsMoreGrants(c: Config, m: nat, n: nat)
    requires m <= n && c.limit >= 0
    ensures m * c.limit <= n * c.limit
  {
    assert n * c.limit == m * c.limit + (n - m) * c.limit;
  }

  // ---- The bound is reached -------------------------------------------------------------------------

  // The first r requests of window j and all requests of the windows before it: window 0 opens with one
  // request and spends the rest at its last instant, each later window opens as early as it can and
  // spends everything at once.
  function Spree(c: Config, j: nat, r: nat): seq<int>
    requires 1 <= r <= c.limit
    decreases j, r
  {
    if r > 1 then Spree(c, j, r - 1) + [if j == 0 then c.window else Opening(c, j)]
    else if j > 0 then Spree(c, j - 1, c.limit) + [Opening(c, j)]
    else [0]
  }

  // When window j opens, and how much the windows before it were granted.
  function Opening(c: Config, j: nat): nat { if j == 0 then 0 else Opening(c, j - 1) + c.window + 1 }

  function Total(c: Config, j: nat): nat
    requires c.limit >= 0
  {
    if j == 0 then 0 else Total(c, j - 1) + c.limit
  }

  lemma {:induction false} ClosedForms(c: Config, j: nat)
    requires c.limit >= 0
    ensures Opening(c, j) == j * c.window + j && Total(c, j) == j * c.limit
  {
    if j > 0 {
      ClosedForms(c, j - 1);
      assert (j - 1) * c.window + c.window == j * c.window;
      assert (j - 1) * c.limit + c.limit == j * c.limit;
    }
  }

  // A run that has spent r of the window opened at `start`, with g grants in the interval.
  predicate Spending(c: Config, times: seq<int>, last: int, start: int, r: nat, hi: int, g: nat) {
    && Nondecreasing(times) && times != [] && times[|times| - 1] == last
    && After(c, times) == Some(Bucket(c.limit - r, start + c.window))
    && GrantsIn(c, times, c.window, hi) == g
  }

  // What a request at t adds to a run.
  lemma OneMoreRequest(c: Config, times: seq<int>, t: int, lo: int, hi: int)
    ensures After(c, times + [t]) == Some(Spend(Ready(c, After(c, times), t)))
    ensures GrantsIn(c, times + [t], lo, hi) == GrantsIn(c, times, lo, hi)
      + (if lo <= t <= hi && Verdict(Ready(c, After(c, times), t)) == Allowed then 1 else 0)
  {
    assert (times + [t])[..|times|] == times;
  }

  lemma NondecreasingSnoc(times: seq<int>, t: int)
    requires Nondecreasing(times) && (times != [] ==> times[|times| - 1] <= t)
    ensures Nondecreasing(times + [t])
  {
  }

  lemma {:induction false} SpendOneMore(c: Config, times: seq<int>, last: int, start: int, r: nat, hi: int, g: nat, t: int)
    requires Spending(c, times, last, start, r, hi, g) && r < c.limit
    requires last <= t <= start + c.window && c.window <= t <= hi
    ensures Spending(c, times + [t], t, start, r + 1, hi, g + 1)
  {
    OneMoreRequest(c, times, t, c.window, hi);
    NondecreasingSnoc(times, t);
  }

  lemma {:induction false} OpenNext(c: Config, times: seq<int>, last: int, start: int, hi: int, g: nat)
    requires c.limit >= 1 && Spending(c, times, last, start, c.limit, hi, g)
    requires 0 <= start && last <= start + c.window && start + c.window + 1 <= hi
    ensures Spending(c, times + [start + c.window + 1], start + c.window + 1, start + c.window + 1, 1, hi, g + 1)
  {
    OneMoreRequest(c, times, start + c.window + 1, c.window, hi);
    NondecreasingSnoc(times, start + c.window + 1);
  }

  lemma OpenFirst(c: Config, hi: int)
    requires c.limit >= 1 && c.window >= 1
    ensures Spending(c, [0], 0, 0, 1, hi, 0)
  {
    assert [] + [0] == [0];
    OneMoreRequest(c, [], 0, c.window, hi);
  }

  // When the r-th request of window j is made.
  function Moment(c: Config, j: nat, r: nat): int {
    if j > 0 then Opening(c, j) else if r > 1 then c.window else 0
  }

  predicate SpreeSpends(c: Config, j: nat, r: nat, hi: int)
    requires 1 <= r <= c.limit
  {
    Spending(c, Spree(c, j, r), Moment(c, j, r), Opening(c, j), r, hi, Total(c, j) + r - 1)
  }

  lemma {:induction false} SpreeGoesOn(c: Config, j: nat, r: nat, hi: int)
    requires 1 < r <= c.limit && Opening(c, j) <= hi && c.window <= hi && SpreeSpends(c, j, r - 1, hi)
    ensures SpreeSpends(c, j, r, hi)
  {
    var times := Spree(c, j, r - 1);
    SpendOneMore(c, times, Moment(c, j, r - 1), Opening(c, j), r - 1, hi, Total(c, j) + r - 2, Moment(c, j, r));
    assert Spree(c, j, r) == times + [Moment(c, j, r)];
  }

  lemma {:induction false} SpreeMovesOn(c: Config, j: nat, hi: int)
    requires c.limit >= 1 && j > 0 && Opening(c, j) <= hi && SpreeSpends(c, j - 1, c.limit, hi)
    ensures SpreeSpends(c, j, 1, hi)
  {
    SpreeUnfolds(c, j);
    var g := Total(c, j - 1) + c.limit - 1;
    OpenAt(c, Spree(c, j - 1, c.limit), Moment(c, j - 1, c.limit), Opening(c, j - 1), hi, g, Opening(c, j), Spree(c, j, 1));
    assert Total(c, j) + 1 - 1 == g + 1;
  }

  lemma {:induction false} OpenAt(
      c: Config, times: seq<int>, last: int, start: int, hi: int, g: nat, next: int, longer: seq<int>)
    requires c.limit >= 1 && Spending(c, times, last, start, c.limit, hi, g)
    requires 0 <= start && last <= start + c.window && next == start + c.window + 1 <= hi && longer == times + [next]
    ensures Spending(c, longer, next, next, 1, hi, g + 1)
  {
    OpenNext(c, times, last, start, hi, g);
  }

  lemma {:induction false} SpreeUnfolds(c: Config, j: nat)
    requires c.limit >= 1 && j > 0
    ensures Opening(c, j) == Opening(c, j - 1) + c.window + 1 && Total(c, j) == Total(c, j - 1) + c.limit
    ensures Moment(c, j - 1, c.limit) <= Opening(c, j - 1) + c.window && Moment(c, j, 1) == Opening(c, j)
    ensures Spree(c, j, 1) == Spree(c, j - 1, c.limit) + [Opening(c, j)]
  {
  }

  // Every request of the spree is granted; all but the very first lie in the interval.
  lemma {:induction false} SpreeIsGranted(c: Config, j: nat, r: nat, hi: int)
    requires 1 <= r <= c.limit && c.window >= 1 && Opening(c, j) <= hi && c.window <= hi
    ensures SpreeSpends(c, j, r, hi)
    decreases j, r
  {
    if r > 1 {
      SpreeIsGranted(c, j, r - 1, hi);
      SpreeGoesOn(c, j, r, hi);
    } else if j > 0 {
      SpreeIsGranted(c, j - 1, c.limit, hi);
      SpreeMovesOn(c, j, hi);
    } else {
      OpenFirst(c, hi);
    }
  }

  /** The bound is reached: an interval of n windows can be granted exactly Ceiling(c, n), for every
      limit and every n from 1 to the window's length. */
  lemma WorstCase(c: Config, n: nat)
    requires c.limit >= 1 && 1 <= n <= c.window
    ensures Nondecreasing(Spree(c, n, c.limit))
    ensures GrantsIn(c, Spree(c, n, c.limit), c.window, c.window + n * c.window) == Ceiling(c, n)
  {
    ClosedForms(c, n);
    assert n * c.window >= 0;
    SpreeIsGranted(c, n, c.limit, c.window + n * c.window);
    assert (n + 1) * c.limit == n * c.limit + c.limit;
  }

  // Grants in the interval of one window that begins at lo.
  function GrantsFrom(c: Config, times: seq<int>, lo: int): nat { GrantsIn(c, times, lo, lo + c.window) }

  // The documented promise, for every interval of one window.
  ghost predicate WindowPromise(c: Config) {
    forall times: seq<int>, lo: int ::
      Nondecreasing(times) ==> GrantsFrom(c, times, lo) <= if c.limit < 0 then 0 else c.limit
  }

  /** "At most `limit` per window" holds of every interval of one window exactly when the limit is at
      most one or the window is empty. */
  lemma WindowPromiseExactly(c: Config)
    ensures WindowPromise(c) <==> c.limit <= 1 || c.window == 0
  {
    if c.limit <= 1 || c.window == 0 {
      forall times: seq<int>, lo: int | Nondecreasing(times)
        ensures GrantsFrom(c, times, lo) <= if c.limit < 0 then 0 else c.limit
      {
        OneWindowAtMost(c, times, lo);
      }
    } else {
      WorstCase(c, 1);
      assert 1 * c.window == c.window;
      assert GrantsFrom(c, Spree(c, 1, c.limit), c.window) == 2 * c.limit - 1;
    }
  }

  lemma {:induction false} OneWindowAtMost(c: Config, times: seq<int>, lo: int)
    requires Nondecreasing(times) && (c.limit <= 1 || c.window == 0)
    ensures GrantsFrom(c, times, lo) <= if c.limit < 0 then 0 else c.limit
  {
    var n := if c.window == 0 then 0 else 1;
    assert n * c.window == c.window;
    GrantsAreBounded(c, times, lo, n);
  }

  // ---- Inside one bucket window ---------------------------------------------------------------------------

  // The i-th request opens a bucket window.
  predicate Opens(c: Config, times: seq<int>, i: nat)
    requires i < |times|
  {
    i == 0 || times[i] > After(c, times[..i]).value.resetAt
  }

  lemma {:induction false} NotYetReset(c: Config, times: seq<int>)
    requires Nondecreasing(times) && times != []
    ensures times[|times| - 1] <= After(c, times).value.resetAt
  {
    var n := |times| - 1;
    if n > 0 { NotYetReset(c, times[..n]); }
  }

  lemma {:induction false} NoneBefore(c: Config, times: seq<int>, lo: int, hi: int)
    requires forall k :: 0 <= k < |times| ==> times[k] < lo
    ensures GrantsIn(c, times, lo, hi) == 0
  {
    if times != [] { NoneBefore(c, times[..|times| - 1], lo, hi); }
  }

  // From the opening on, what was granted is what the bucket has spent.
  predicate SpentSince(c: Config, times: seq<int>, lo: int) {
    && times != []
    && var b := After(c, times).value;
       && b.resetAt == lo + c.window && 0 <= b.tokens <= c.limit
       && GrantsFrom(c, times, lo) == c.limit - b.tokens
  }

  lemma {:induction false} OpeningSpends(c: Config, times: seq<int>, lo: int)
    requires c.limit >= 1 && Nondecreasing(times) && (times != [] ==> lo > After(c, times).value.resetAt)
    ensures SpentSince(c, times + [lo], lo)
  {
    if times != [] { NotYetReset(c, times); }
    NoneBefore(c, times, lo, lo + c.window);
    OneMoreRequest(c, times, lo, lo, lo + c.window);
  }

  lemma {:induction false} SpendSince(c: Config, times: seq<int>, lo: int, t: int)
    requires SpentSince(c, times, lo) && lo <= t <= lo + c.window
    ensures SpentSince(c, times + [t], lo)
  {
    OneMoreRequest(c, times, t, lo, lo + c.window);
  }

  lemma {:induction false} SpentIsGranted(c: Config, times: seq<int>, i: nat, n: nat)
    requires c.limit >= 1 && Nondecreasing(times) && i < n <= |times| && Opens(c, times, i)
    requires times[n - 1] <= times[i] + c.window
    ensures SpentSince(c, times[..n], times[i])
    decreases n
  {
    var before := times[..n - 1];
    assert times[..n] == before + [times[n - 1]];
    if n - 1 > i {
      SpentIsGranted(c, times, i, n - 1);
      SpendSince(c, before, times[i], times[n - 1]);
    } else {
      assert before == times[..i];
      OpeningSpends(c, before, times[i]);
    }
  }

  /** What the limiter does promise: between the opening of a bucket window and its reset, at most
      `limit` requests are allowed. */
  lemma {:induction false} OneWindowIsLimited(c: Config, times: seq<int>, i: nat)
    requires c.limit >= 1 && Nondecreasing(times) && i < |times| && Opens(c, times, i)
    ensures GrantsFrom(c, times, times[i]) <= c.limit
    decreases |times|
  {
    var n := |times|;
    if times[n - 1] <= times[i] + c.window {
      SpentIsGranted(c, times, i, n);
      assert times[..n] == times;
    } else {
      assert times[..n - 1][..i] == times[..i];
      OneWindowIsLimited(c, times[..n - 1], i);
    }
  }

  // ---- Retry-After -------------------------------------------------------------------------------

  // Whole seconds until the reset, at least one; the clock is read again when the answer is made.
  function RetryAfter(resetAt: int, later: int): int {
    if resetAt - later < SECOND then 1 else (resetAt - later) / SECOND
  }

  // The advertised delay is rounded down, so a client that waits exactly that long is let in only
  // when less than a second was left; otherwise it comes back too early and is denied again.
  lemma RetryAfterSuffices(c: Config, b: Bucket, later: int)
    requires c.limit >= 1 && b.tokens <= 0
    ensures var back := later + RetryAfter(b.resetAt, later) * SECOND;
      Verdict(Ready(c, Some(b), back)) == Allowed <==> b.resetAt - later < SECOND
  {
  }

  /** The advertised delay is the greatest whole number of seconds that does not pass the reset, and one
      when not even one second is left. */
  lemma RetryAfterIsGreatest(resetAt: int, later: int, n: int)
    ensures 1 <= RetryAfter(resetAt, later)
    ensures later + n * SECOND <= resetAt ==> n <= RetryAfter(resetAt, later)
    ensures n == RetryAfter(resetAt, later) ==> later + n * SECOND <= resetAt || n == 1
  {
  }

  // A client that uses up its limit, asks once more and is told to wait.
  function Turned(c: Config, n: nat): seq<int> { seq(n, _ => 0) }

  lemma {:induction false} TurnedIsDenied(c: Config, n: nat)
    requires c.limit >= 1 && 1 <= n <= c.limit + 1
    ensures After(c, Turned(c, n)) == Some(Bucket(if n <= c.limit then c.limit - n else 0, c.window))
    ensures n == c.limit + 1 ==> LastAnswer(c, Turned(c, n)) == Denied(c.window)
  {
    var times := Turned(c, n);
    assert times[..n - 1] == Turned(c, n - 1);
    if n > 1 {
      TurnedIsDenied(c, n - 1);
    } else {
      assert times[..0] == [];
    }
  }

  /** A run in which a denied client waits exactly Retry-After and is denied again, for every limit and
      every window of at least a second. */
  lemma RetryComesTooEarly(c: Config)
    requires c.limit >= 1 && c.window >= SECOND
    ensures var asked := Turned(c, c.limit + 1);
      var back := RetryAfter(c.window, 0) * SECOND;
      && LastAnswer(c, asked) == Denied(c.window)
      && LastAnswer(c, asked + [back]) == Denied(c.window)
  {
    var asked := Turned(c, c.limit + 1);
    var back := RetryAfter(c.window, 0) * SECOND;
    TurnedIsDenied(c, c.limit + 1);
    assert (asked + [back])[..|asked|] == asked;
    assert back <= c.window;
  }
}
