/**
  The limiter on secret mutations: one token bucket per (actor, project), in a map whose expired
  buckets are swept once it has grown past a threshold.
 */
module SecretRate {
  import opened Common
  import opened Strings
  import opened Clock
  import opened TokenBucket

  // ---- Bucket keys -------------------------------------------------------------------------------------

  // Who the request context says is calling.
  datatype Caller = Caller(user: Option<int>, org: Option<int>)

  datatype Identity = User(id: nat) | OrgKey(org: nat) | Anonymous

  function IdentityOf(c: Caller): Identity {
    if c.user.Some? && c.user.value > 0 then User(c.user.value)
    else if c.org.Some? && c.org.value > 0 then OrgKey(c.org.value)
    else Anonymous
  }

  function ActorKey(c: Caller): string {
    if c.user.Some? && c.user.value > 0 then "user:" + Digits(c.user.value)
    else if c.org.Some? && c.org.value > 0 then "orgkey:" + Digits(c.org.value)
    else "anonymous"
  }

  function BucketKey(actor: string, project: string): string { actor + "|" + project }

  predicate NoBar(s: string) { forall i :: 0 <= i < |s| ==> s[i] != '|' }

  lemma {:induction false} DigitsAreInjective(a: nat, b: nat)
    requires Digits(a) == Digits(b)
    ensures a == b
  {
    var s, t := Digits(a), Digits(b);
    assert s[|s| - 1] == t[|t| - 1];
    assert Digit(a % 10) == Digit(b % 10);
    if a >= 10 && b >= 10 {
      assert s[..|s| - 1] == Digits(a / 10) && t[..|t| - 1] == Digits(b / 10);
      DigitsAreInjective(a / 10, b / 10);
    }
  }

  lemma ActorHasNoBar(c: Caller)
    ensures NoBar(ActorKey(c))
  {
  }

  lemma SplitAtBar(a: string, p: string, b: string, q: string)
    requires NoBar(a) && NoBar(b) && BucketKey(a, p) == BucketKey(b, q)
    ensures a == b && p == q
  {
    var s, t := BucketKey(a, p), BucketKey(b, q);
    assert s[|a|] == '|' && t[|b|] == '|';
    assert forall i :: 0 <= i < |a| ==> s[i] == a[i];
    assert forall i :: 0 <= i < |b| ==> t[i] == b[i];
    assert |a| == |b|;
    assert s[..|a|] == a && t[..|b|] == b;
    assert s[|a| + 1..] == p && t[|b| + 1..] == q;
  }

  lemma SamePrefixSameRest(pre: string, a: string, b: string)
    requires pre + a == pre + b
    ensures a == b
  {
    assert (pre + a)[|pre|..] == a && (pre + b)[|pre|..] == b;
  }

  lemma ActorKeyIsInjective(c: Caller, d: Caller)
    requires ActorKey(c) == ActorKey(d)
    ensures IdentityOf(c) == IdentityOf(d)
  {
    var s, t := ActorKey(c), ActorKey(d);
    assert s[0] == t[0];
    match IdentityOf(c)
    case User(m) =>
      SamePrefixSameRest("user:", Digits(m), Digits(d.user.value));
      DigitsAreInjective(m, d.user.value);
    case OrgKey(m) =>
      SamePrefixSameRest("orgkey:", Digits(m), Digits(d.org.value));
      DigitsAreInjective(m, d.org.value);
    case Anonymous =>
  }

  /** Two requests share a bucket exactly when they have the same identity and project, whatever
      characters the project id is made of. */
  lemma BucketsAreNotShared(c: Caller, p: string, d: Caller, q: string)
    ensures BucketKey(ActorKey(c), p) == BucketKey(ActorKey(d), q) <==> IdentityOf(c) == IdentityOf(d) && p == q
  {
    if BucketKey(ActorKey(c), p) == BucketKey(ActorKey(d), q) {
      ActorHasNoBar(c);
      ActorHasNoBar(d);
      SplitAtBar(ActorKey(c), p, ActorKey(d), q);
      ActorKeyIsInjective(c, d);
    }
  }

  // ---- The limiter, with and without sweeping -----------------------------------------------------------

  type Buckets = map<string, Bucket>

  datatype Request = Request(key: string, now: int)

  function Find(m: Buckets, key: string): Option<Bucket> {
    if key in m then Some(m[key]) else None
  }

  function Swept(m: Buckets, now: int): Buckets {
    map k | k in m && now <= m[k].resetAt :: m[k]
  }

  function Prune(m: Buckets, threshold: nat, now: int): Buckets {
    if |m| >= threshold then Swept(m, now) else m
  }

  function Serve(c: Config, m: Buckets, r: Request): Buckets {
    m[r.key := Spend(Ready(c, Find(m, r.key), r.now))]
  }

  function Reply(c: Config, m: Buckets, r: Request): Answer {
    Verdict(Ready(c, Find(m, r.key), r.now))
  }

  function Unpruned(c: Config, rs: seq<Request>): Buckets {
    if rs == [] then map[] else Serve(c, Unpruned(c, rs[..|rs| - 1]), rs[|rs| - 1])
  }

  function Pruned(c: Config, threshold: nat, rs: seq<Request>): Buckets {
    if rs == [] then map[]
    else
      var n := |rs| - 1;
      Serve(c, Prune(Pruned(c, threshold, rs[..n]), threshold, rs[n].now), rs[n])
  }

  // The buckets the last request finds, after any sweep.
  function BeforeLast(c: Config, threshold: nat, rs: seq<Request>): Buckets
    requires rs != []
  {
    Prune(Pruned(c, threshold, rs[..|rs| - 1]), threshold, rs[|rs| - 1].now)
  }

  // The answer to the last request of a run.
  function UnprunedReply(c: Config, rs: seq<Request>): Answer
    requires rs != []
  {
    Reply(c, Unpruned(c, rs[..|rs| - 1]), rs[|rs| - 1])
  }

  function PrunedReply(c: Config, threshold: nat, rs: seq<Request>): Answer
    requires rs != []
  {
    Reply(c, BeforeLast(c, threshold, rs), rs[|rs| - 1])
  }

  predicate InOrder(rs: seq<Request>) {
    forall i, j :: 0 <= i < j < |rs| ==> rs[i].now <= rs[j].now
  }

  // m lacks only buckets that are expired from `now` on.
  ghost predicate Covers(m: Buckets, full: Buckets, now: int) {
    && (forall k :: k in m ==> k in full && m[k] == full[k])
    && (forall k :: k in full && k !in m ==> full[k].resetAt < now)
  }

  lemma PruneCovers(m: Buckets, full: Buckets, threshold: nat, before: int, now: int)
    requires Covers(m, full, before) && before <= now
    ensures Covers(Prune(m, threshold, now), full, now)
  {
  }

  lemma ServeCovers(c: Config, m: Buckets, full: Buckets, r: Request)
    requires Covers(m, full, r.now)
    ensures Reply(c, m, r) == Reply(c, full, r)
    ensures Covers(Serve(c, m, r), Serve(c, full, r), r.now)
  {
  }

  lemma {:induction false} RunCovers(c: Config, threshold: nat, rs: seq<Request>)
    requires InOrder(rs) && rs != []
    ensures Covers(Pruned(c, threshold, rs), Unpruned(c, rs), rs[|rs| - 1].now)
    ensures PrunedReply(c, threshold, rs) == UnprunedReply(c, rs)
    decreases |rs|
  {
    var n := |rs| - 1;
    var before, r := rs[..n], rs[n];
    if n == 0 {
      assert before == [];
      PruneCovers(map[], map[], threshold, r.now, r.now);
    } else {
      RunCovers(c, threshold, before);
      PruneCovers(Pruned(c, threshold, before), Unpruned(c, before), threshold, before[n - 1].now, r.now);
    }
    ServeCovers(c, BeforeLast(c, threshold, rs), Unpruned(c, before), r);
  }

  /** With a clock that does not run backwards, sweeping never changes an answer, not even the reset
      time a denial carries, whatever the threshold. */
  lemma PruningIsInvisible(c: Config, threshold: nat, rs: seq<Request>, i: nat)
    requires InOrder(rs) && i < |rs|
    ensures PrunedReply(c, threshold, rs[..i + 1]) == UnprunedReply(c, rs[..i + 1])
  {
    RunCovers(c, threshold, rs[..i + 1]);
  }

  // The buckets that have not run out at `now`.
  function LiveKeys(m: Buckets, now: int): set<string> { set k | k in m && now <= m[k].resetAt }

  /** The sweep does bound the map: in every run it holds fewer buckets than the threshold, or only ones
      that were live at the last request together with that request's own. */
  lemma PruningBounds(c: Config, threshold: nat, rs: seq<Request>)
    requires rs != []
    ensures var n := |rs| - 1;
      var m := Pruned(c, threshold, rs);
      |m| <= threshold || m.Keys == LiveKeys(Pruned(c, threshold, rs[..n]), rs[n].now) + {rs[n].key}
  {
    var n := |rs| - 1;
    var was, found := Pruned(c, threshold, rs[..n]), BeforeLast(c, threshold, rs);
    assert Pruned(c, threshold, rs).Keys == found.Keys + {rs[n].key};
    if |was| >= threshold {
      assert found.Keys == LiveKeys(was, rs[n].now);
    } else {
      SizeAfterAdding(found.Keys, rs[n].key);
      assert |found.Keys| == |found|;
    }
  }

  lemma SizeAfterAdding(ks: set<string>, k: string)
    ensures |ks + {k}| <= |ks| + 1
  {
    assert k in ks ==> ks + {k} == ks;
  }

  /** The order of the clock readings is needed: a request that read the clock before another's sweep and
      is served after it finds its spent bucket gone and is allowed again. */
  lemma ClockOrderIsNeeded(window: nat)
    ensures var c := Config(1, window);
      var rs := [Request("k", 0), Request("j", window + 1), Request("k", window)];
      PrunedReply(c, 0, rs) == Allowed && UnprunedReply(c, rs) == Denied(window)
  {
    var c := Config(1, window);
    var r0, r1, r2 := Request("k", 0), Request("j", window + 1), Request("k", window);
    var one, two := [r0], [r0, r1];
    assert "k" != "j";
    assert one[..0] == [] && two[..1] == one && [r0, r1, r2][..2] == two;
    var spent := Bucket(0, window);
    assert Unpruned(c, one) == map["k" := spent] && Pruned(c, 0, one) == map["k" := spent];
    assert Prune(Pruned(c, 0, one), 0, r1.now) == map[];
    assert "k" !in Pruned(c, 0, two) && Unpruned(c, two)["k"] == spent;
  }

  // ---- Each key on its own ---------------------------------------------------------------------------------

  function TimesOf(rs: seq<Request>, key: string): seq<int> {
    if rs == [] then []
    else
      var n := |rs| - 1;
      TimesOf(rs[..n], key) + (if rs[n].key == key then [rs[n].now] else [])
  }

  lemma {:induction false} TimesInOrder(rs: seq<Request>, key: string)
    requires InOrder(rs)
    ensures Nondecreasing(TimesOf(rs, key))
    ensures forall i :: 0 <= i < |TimesOf(rs, key)| ==> rs != [] && TimesOf(rs, key)[i] <= rs[|rs| - 1].now
  {
    if rs != [] { TimesInOrder(rs[..|rs| - 1], key); }
  }

  lemma {:induction false} KeysAreIndependent(c: Config, rs: seq<Request>, key: string)
    ensures Find(Unpruned(c, rs), key) == After(c, TimesOf(rs, key))
  {
    if rs != [] {
      var n := |rs| - 1;
      KeysAreIndependent(c, rs[..n], key);
      var ts := TimesOf(rs, key);
      if rs[n].key == key {
        assert ts[..|ts| - 1] == TimesOf(rs[..n], key);
      } else {
        assert ts == TimesOf(rs[..n], key);
      }
    }
  }

  // Requests for the key that the pruned limiter allows at times in lo..hi.
  function Allowances(c: Config, threshold: nat, rs: seq<Request>, key: string, lo: int, hi: int): nat {
    if rs == [] then 0
    else
      var n := |rs| - 1;
      Allowances(c, threshold, rs[..n], key, lo, hi)
        + (if rs[n].key == key && lo <= rs[n].now <= hi && PrunedReply(c, threshold, rs) == Allowed then 1 else 0)
  }

  lemma {:induction false} AllowancesAreGrants(c: Config, threshold: nat, rs: seq<Request>, key: string, lo: int, hi: int)
    requires InOrder(rs)
    ensures Allowances(c, threshold, rs, key, lo, hi) == GrantsIn(c, TimesOf(rs, key), lo, hi)
  {
    if rs != [] {
      var n := |rs| - 1;
      AllowancesAreGrants(c, threshold, rs[..n], key, lo, hi);
      if rs[n].key == key {
        var ts := TimesOf(rs, key);
        assert ts[..|ts| - 1] == TimesOf(rs[..n], key) && ts[|ts| - 1] == rs[n].now;
        KeysAreIndependent(c, rs[..n], key);
        RunCovers(c, threshold, rs);
      } else {
        assert TimesOf(rs, key) == TimesOf(rs[..n], key);
      }
    }
  }

  /** What one caller gets for one project in any interval of n windows, whatever everyone else asks
      for and however often the map is swept. */
  lemma CallersAreLimited(c: Config, threshold: nat, rs: seq<Request>, caller: Caller, project: string, lo: int, n: nat)
    requires InOrder(rs)
    ensures Allowances(c, threshold, rs, BucketKey(ActorKey(caller), project), lo, lo + n * c.window) <= Ceiling(c, n)
  {
    var key := BucketKey(ActorKey(caller), project);
    TimesInOrder(rs, key);
    AllowancesAreGrants(c, threshold, rs, key, lo, lo + n * c.window);
    GrantsAreBounded(c, TimesOf(rs, key), lo, n);
  }

  // ---- The limiter object --------------------------------------------------------------------------------------

  const PRUNE_THRESHOLD: nat := 2048

  class SecretRateLimiter {
    const config: Config
    var buckets: Buckets

    constructor (limit: int, window: nat)
      ensures config == Config(limit, window) && buckets == map[]
    {
      config := Config(limit, window);
      buckets := map[];
    }

    // Deletes the expired buckets one by one, in whatever order the map yields them.
    method Sweep(now: int)
      modifies this
      ensures buckets == Swept(old(buckets), now)
    {
      var todo := buckets.Keys;
      while todo != {}
        invariant todo <= old(buckets).Keys
        invariant forall k :: k in buckets <==> k in old(buckets) && (k in todo || now <= old(buckets)[k].resetAt)
        invariant forall k :: k in buckets ==> buckets[k] == old(buckets)[k]
        decreases |todo|
      {
        var k :| k in todo;
        if now > buckets[k].resetAt {
          buckets := buckets - {k};
        }
        todo := todo - {k};
      }
    }

    method Allow(actor: string, project: string, now: int) returns (r: Answer)
      modifies this
      ensures var found := Prune(old(buckets), PRUNE_THRESHOLD, now);
        var request := Request(BucketKey(actor, project), now);
        buckets == Serve(config, found, request) && r == Reply(config, found, request)
    {
      if |buckets| >= PRUNE_THRESHOLD {
        Sweep(now);
      }
      var key := BucketKey(actor, project);
      var b: Bucket;
      if key in buckets {
        b := buckets[key];
      } else {
        b := Bucket(config.limit, now + config.window);
        buckets := buckets[key := b];
      }
      if now > b.resetAt {
        b := Bucket(config.limit, now + config.window);
        buckets := buckets[key := b];
      }
      if b.tokens <= 0 {
        return Denied(b.resetAt);
      }
      buckets := buckets[key := b.(tokens := b.tokens - 1)];
      return Allowed;
    }
  }
}
