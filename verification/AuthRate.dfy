/**
  The limiter in front of the API: one token bucket per address or user, swept from time to time of
  the buckets nobody has used lately.  `K` is the key type of one of its two maps.
 */
module AuthRate {
  import opened Common
  import opened Clock
  import opened TokenBucket

  datatype Entry = Entry(bucket: Bucket, lastSeen: int)

  datatype Event<K> = Ask(key: K, now: int) | Sweep(now: int)

  function Find<K>(m: map<K, Entry>, key: K): Option<Bucket> {
    if key in m then Some(m[key].bucket) else None
  }

  function Serve<K>(c: Config, m: map<K, Entry>, key: K, now: int): map<K, Entry> {
    m[key := Entry(Spend(Ready(c, Find(m, key), now)), now)]
  }

  // A sweep keeps the entries seen within the last `cleanup`.
  function Swept<K>(m: map<K, Entry>, cleanup: nat, now: int): map<K, Entry> {
    map k | k in m && m[k].lastSeen >= now - cleanup :: m[k]
  }

  // A limiter that sweeps, and with `sweeping` false the same limiter that never does.
  function After<K>(c: Config, cleanup: nat, sweeping: bool, es: seq<Event<K>>): map<K, Entry> {
    if es == [] then map[]
    else
      var before, e := After(c, cleanup, sweeping, es[..|es| - 1]), es[|es| - 1];
      match e
      case Ask(key, now) => Serve(c, before, key, now)
      case Sweep(now) => if sweeping then Swept(before, cleanup, now) else before
  }

  // Whether each request was let through.
  function Decisions<K(==)>(c: Config, cleanup: nat, sweeping: bool, es: seq<Event<K>>): seq<bool> {
    if es == [] then []
    else
      var before, e := es[..|es| - 1], es[|es| - 1];
      Decisions(c, cleanup, sweeping, before)
        + match e
          case Ask(key, now) => [Ready(c, Find(After(c, cleanup, sweeping, before), key), now).tokens > 0]
          case Sweep(_) => []
  }

  predicate InOrder<K>(es: seq<Event<K>>) {
    forall i, j :: 0 <= i < j < |es| ==> es[i].now <= es[j].now
  }

  // ---- Sweeping is invisible when buckets outlive their window ------------------------------------------

  // m lacks only buckets expired from `now` on; a bucket expires at most a window after its last use.
  ghost predicate Covers<K(!new)>(c: Config, m: map<K, Entry>, full: map<K, Entry>, now: int) {
    && (forall k :: k in m ==> k in full && m[k] == full[k])
    && (forall k :: k in full && k !in m ==> full[k].bucket.resetAt < now)
    && (forall k :: k in full ==> full[k].bucket.resetAt <= full[k].lastSeen + c.window <= now + c.window)
  }

  lemma ServeCovers<K(!new)>(c: Config, m: map<K, Entry>, full: map<K, Entry>, last: int, key: K, now: int)
    requires Covers(c, m, full, last) && last <= now
    ensures (Ready(c, Find(m, key), now) == Ready(c, Find(full, key), now))
    ensures Covers(c, Serve(c, m, key, now), Serve(c, full, key, now), now)
  {
  }

  lemma {:induction false} RunCovers<K(!new)>(c: Config, cleanup: nat, es: seq<Event<K>>)
    requires InOrder(es) && c.window <= cleanup
    ensures es != [] ==> Covers(c, After(c, cleanup, true, es), After(c, cleanup, false, es), es[|es| - 1].now)
    ensures Decisions(c, cleanup, true, es) == Decisions(c, cleanup, false, es)
    decreases |es|
  {
    if es != [] {
      var n := |es| - 1;
      var before := es[..n];
      RunCovers(c, cleanup, before);
      var m, full := After(c, cleanup, true, before), After(c, cleanup, false, before);
      var last := if n == 0 then es[n].now else before[n - 1].now;
      assert Covers(c, m, full, last);
      match es[n] {
        case Ask(key, now) => ServeCovers(c, m, full, last, key, now);
        case Sweep(now) => SweepCovers(c, cleanup, m, full, last, now);
      }
    }
  }

  lemma SweepCovers<K(!new)>(c: Config, cleanup: nat, m: map<K, Entry>, full: map<K, Entry>, last: int, now: int)
    requires Covers(c, m, full, last) && last <= now && c.window <= cleanup
    ensures Covers(c, Swept(m, cleanup, now), full, now)
  {
  }

  // ---- With no tokens to give, nothing is ever let through ---------------------------------------------------

  lemma {:induction false} NothingAllowed<K(!new)>(c: Config, cleanup: nat, sweeping: bool, es: seq<Event<K>>)
    requires c.limit <= 0
    ensures forall k :: k in After(c, cleanup, sweeping, es) ==> After(c, cleanup, sweeping, es)[k].bucket.tokens <= 0
    ensures forall i :: 0 <= i < |Decisions(c, cleanup, sweeping, es)| ==> !Decisions(c, cleanup, sweeping, es)[i]
  {
    if es != [] { NothingAllowed(c, cleanup, sweeping, es[..|es| - 1]); }
  }

  lemma {:induction false} SameNumberOfDecisions<K>(c: Config, cleanup: nat, es: seq<Event<K>>)
    ensures |Decisions(c, cleanup, true, es)| == |Decisions(c, cleanup, false, es)|
  {
    if es != [] { SameNumberOfDecisions(c, cleanup, es[..|es| - 1]); }
  }

  // ---- With a shorter cleanup it is not ---------------------------------------------------------------------

  function Asks<K>(key: K, n: nat): seq<Event<K>> { seq(n, _ => Ask(key, 0)) }

  lemma {:induction false} AsksDrain<K>(c: Config, cleanup: nat, sweeping: bool, key: K, n: nat)
    requires 1 <= n <= c.limit
    ensures After(c, cleanup, sweeping, Asks(key, n)) == map[key := Entry(Bucket(c.limit - n, c.window), 0)]
  {
    var es := Asks(key, n);
    assert es[..n - 1] == Asks(key, n - 1) && es[n - 1] == Ask(key, 0);
    if n == 1 {
      assert es[..0] == [];
    } else {
      AsksDrain(c, cleanup, sweeping, key, n - 1);
    }
  }

  // Spend the whole limit, let a sweep forget it, and ask again within the same window.
  function Reset<K>(c: Config, cleanup: nat, key: K): seq<Event<K>> {
    Asks(key, if c.limit < 0 then 0 else c.limit) + [Sweep(cleanup + 1), Ask(key, cleanup + 1)]
  }

  lemma SweepForgets<K(!new)>(c: Config, cleanup: nat, key: K)
    requires c.limit >= 1 && cleanup < c.window
    ensures InOrder(Reset(c, cleanup, key))
    ensures Decisions(c, cleanup, true, Reset(c, cleanup, key)) != Decisions(c, cleanup, false, Reset(c, cleanup, key))
  {
    var es := Reset(c, cleanup, key);
    var n := |es| - 1;
    var asked := es[..n - 1];
    assert asked == Asks(key, c.limit) && es[..n][..n - 1] == asked;
    AsksDrain(c, cleanup, true, key, c.limit);
    AsksDrain(c, cleanup, false, key, c.limit);
    assert After(c, cleanup, true, es[..n]) == map[];
    assert After(c, cleanup, false, es[..n]) == map[key := Entry(Bucket(0, c.window), 0)];
    var a, b := Decisions(c, cleanup, true, es), Decisions(c, cleanup, false, es);
    assert a[|a| - 1] && !b[|b| - 1];
  }

  ghost predicate SweepIsInvisible<K(!new)>(c: Config, cleanup: nat, key: K) {
    forall es: seq<Event<K>> :: InOrder(es) ==> Decisions(c, cleanup, true, es) == Decisions(c, cleanup, false, es)
  }

  /** Sweeping leaves every decision of every run unchanged exactly when the cleanup period is no
      shorter than the window (or there are no tokens to give in the first place). */
  lemma SweepIsInvisibleExactly<K(!new)>(c: Config, cleanup: nat, key: K)
    ensures SweepIsInvisible(c, cleanup, key) <==> c.window <= cleanup || c.limit <= 0
  {
    if c.window <= cleanup {
      forall es: seq<Event<K>> | InOrder(es)
        ensures Decisions(c, cleanup, true, es) == Decisions(c, cleanup, false, es)
      {
        RunCovers(c, cleanup, es);
      }
    } else if c.limit <= 0 {
      forall es: seq<Event<K>> | InOrder(es)
        ensures Decisions(c, cleanup, true, es) == Decisions(c, cleanup, false, es)
      {
        NothingAllowed(c, cleanup, true, es);
        NothingAllowed(c, cleanup, false, es);
        SameNumberOfDecisions(c, cleanup, es);
      }
    } else {
      SweepForgets(c, cleanup, key);
    }
  }

  const MINUTE: nat := 60 * SECOND

  // The deploy-key routes give a user ten requests an hour and sweep after ten minutes.
  lemma DeployKeyLimiterForgets(user: int)
    ensures !SweepIsInvisible(Config(10, 60 * MINUTE), 10 * MINUTE, user)
    ensures SweepIsInvisible(Config(300, MINUTE), 5 * MINUTE, user)
  {
    SweepIsInvisibleExactly(Config(10, 60 * MINUTE), 10 * MINUTE, user);
    SweepIsInvisibleExactly(Config(300, MINUTE), 5 * MINUTE, user);
  }

  // ---- One map of the limiter ------------------------------------------------------------------------------------

  class BucketMap<K(==)> {
    const config: Config
    const cleanup: nat
    var entries: map<K, Entry>

    constructor (config: Config, cleanup: nat)
      ensures this.config == config && this.cleanup == cleanup && entries == map[]
    {
      this.config := config;
      this.cleanup := cleanup;
      entries := map[];
    }

    method Allow(key: K, now: int) returns (allowed: bool)
      modifies this
      ensures entries == Serve(config, old(entries), key, now)
      ensures allowed <==> Ready(config, Find(old(entries), key), now).tokens > 0
    {
      if key !in entries {
        entries := entries[key := Entry(Bucket(config.limit, now + config.window), now)];
      }
      var b := entries[key].bucket;
      if now > b.resetAt {
        b := Bucket(config.limit, now + config.window);
      }
      allowed := b.tokens > 0;
      if allowed {
        b := b.(tokens := b.tokens - 1);
      }
      entries := entries[key := Entry(b, now)];
    }

    method Cleanup(now: int)
      modifies this
      ensures entries == Swept(old(entries), cleanup, now)
    {
      var threshold := now - cleanup;
      var todo := entries.Keys;
      while todo != {}
        invariant todo <= old(entries).Keys
        invariant forall k :: k in entries <==> k in old(entries) && (k in todo || old(entries)[k].lastSeen >= threshold)
        invariant forall k :: k in entries ==> entries[k] == old(entries)[k]
        decreases |todo|
      {
        var k :| k in todo;
        if entries[k].lastSeen < threshold {
          entries := entries - {k};
        }
        todo := todo - {k};
      }
    }
  }
}
