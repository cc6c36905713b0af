/**
  Migration lists with repeated versions.  A repeated version makes an Up fail and the next one pass
  over it, so only the first migration of each version is ever applied; a rollback runs the Down
  scripts of all of them.
 */
module MigratorDuplicates {
  import opened Common
  import opened Migrator

  // ---- The first migration of each version ---------------------------------------------------------

  predicate IsFirst(mgs: seq<Migration>, i: nat)
    requires i < |mgs|
  {
    mgs[i].version !in Versions(mgs, i)
  }

  // Among the first k migrations.
  function Firsts(mgs: seq<Migration>, k: nat): (fs: seq<Migration>)
    requires k <= |mgs|
    ensures |fs| <= k
  {
    if k == 0 then []
    else Firsts(mgs, k - 1) + (if IsFirst(mgs, k - 1) then [mgs[k - 1]] else [])
  }

  lemma {:induction false} FirstsGrow(mgs: seq<Migration>, i: nat, k: nat)
    requires i <= k <= |mgs|
    ensures Firsts(mgs, i) <= Firsts(mgs, k)
    decreases k
  {
    if i < k { FirstsGrow(mgs, i, k - 1); }
  }

  lemma {:induction false} FirstsHaveAllVersions(mgs: seq<Migration>, k: nat)
    requires k <= |mgs|
    ensures Versions(Firsts(mgs, k), |Firsts(mgs, k)|) == Versions(mgs, k)
  {
    if k > 0 {
      FirstsHaveAllVersions(mgs, k - 1);
      VersionsStep(mgs, k - 1);
      var before, after := Firsts(mgs, k - 1), Firsts(mgs, k);
      if IsFirst(mgs, k - 1) {
        VersionsStep(after, |before|);
        SameVersions(before, after, |before|);
      } else {
        assert after == before;
      }
    }
  }

  lemma SameVersions(a: seq<Migration>, b: seq<Migration>, k: nat)
    requires k <= |a| && k <= |b| && a[..k] == b[..k]
    ensures Versions(a, k) == Versions(b, k)
  {
    assert forall i :: 0 <= i < k ==> a[i] == a[..k][i] && b[i] == b[..k][i];
  }

  lemma {:induction false} FirstsAreDistinct(mgs: seq<Migration>, k: nat)
    requires k <= |mgs|
    ensures DistinctVersions(Firsts(mgs, k))
  {
    if k > 0 {
      FirstsAreDistinct(mgs, k - 1);
      FirstsHaveAllVersions(mgs, k - 1);
      var before, after := Firsts(mgs, k - 1), Firsts(mgs, k);
      assert forall i :: 0 <= i < |before| ==> after[i] == before[i] && before[i].version in Versions(before, |before|);
    }
  }

  lemma {:induction false} AllFirstExactly(mgs: seq<Migration>, k: nat)
    requires k <= |mgs|
    ensures |Firsts(mgs, k)| == k <==> DistinctVersions(mgs[..k])
    ensures |Firsts(mgs, k)| == k ==> Firsts(mgs, k) == mgs[..k]
  {
    if k > 0 {
      AllFirstExactly(mgs, k - 1);
      assert mgs[..k][..k - 1] == mgs[..k - 1] && mgs[..k] == mgs[..k - 1] + [mgs[k - 1]];
      LastIsNew(mgs, k);
    }
  }

  lemma LastIsNew(mgs: seq<Migration>, k: nat)
    requires 0 < k <= |mgs|
    ensures DistinctVersions(mgs[..k]) <==> DistinctVersions(mgs[..k - 1]) && IsFirst(mgs, k - 1)
  {
    if DistinctVersions(mgs[..k - 1]) && IsFirst(mgs, k - 1) {
      forall i, j | 0 <= i < j < k ensures mgs[..k][i].version != mgs[..k][j].version {
        assert mgs[i].version in Versions(mgs, k - 1) || i == k - 1;
        assert j < k - 1 ==> mgs[..k - 1][i] == mgs[i] && mgs[..k - 1][j] == mgs[j];
      }
    }
    if DistinctVersions(mgs[..k]) {
      forall i | 0 <= i < k - 1 ensures mgs[i].version != mgs[k - 1].version {
        assert mgs[..k][i].version != mgs[..k][k - 1].version;
      }
      var shorter := mgs[..k - 1];
      forall i, j | 0 <= i < j < |shorter| ensures shorter[i].version != shorter[j].version {
        assert mgs[..k][i].version != mgs[..k][j].version;
      }
    }
  }

  /** Every migration is the first of its version exactly when the versions are distinct. */
  lemma FirstsAreAllExactly(mgs: seq<Migration>)
    ensures Firsts(mgs, |mgs|) == mgs <==> DistinctVersions(mgs)
  {
    AllFirstExactly(mgs, |mgs|);
    assert mgs[..|mgs|] == mgs;
  }

  // Where a migration stands among the firsts, and whether a prefix of them has its version.
  lemma PlaceAmongFirsts(mgs: seq<Migration>, i: nat, k: nat)
    requires i < |mgs| && k <= |Firsts(mgs, |mgs|)|
    ensures var fs, n := Firsts(mgs, |mgs|), |Firsts(mgs, i)|;
      && n <= |fs| && DistinctVersions(fs)
      && (IsFirst(mgs, i) ==> n < |fs| && fs[n] == mgs[i] && |Firsts(mgs, i + 1)| == n + 1
                              && (mgs[i].version in Versions(fs, k) <==> n < k))
      && (!IsFirst(mgs, i) ==> |Firsts(mgs, i + 1)| == n && mgs[i].version in Versions(fs, n))
  {
    var fs, before := Firsts(mgs, |mgs|), Firsts(mgs, i);
    FirstsGrow(mgs, i, |mgs|);
    FirstsGrow(mgs, i + 1, |mgs|);
    FirstsAreDistinct(mgs, |mgs|);
    FirstsHaveAllVersions(mgs, i);
    SameVersions(before, fs, |before|);
    if IsFirst(mgs, i) {
      assert fs[|before|] == Firsts(mgs, i + 1)[|before|];
      VersionsHold(fs, k, |before|);
    }
  }

  // ---- Runs of Up -------------------------------------------------------------------------------------

  // Where an Up that began with k firsts in effect stands when it comes to migration i.
  function Reached(mgs: seq<Migration>, k: nat, i: nat): nat
    requires i <= |mgs|
  {
    if |Firsts(mgs, i)| < k then k else |Firsts(mgs, i)|
  }

  // The step at migration i: passed over, applied as the next first, or failed.
  lemma UpStep<S>(exec: Exec<S>, mgs: seq<Migration>, base: S, k: nat, i: nat, db: Db<S>, left: nat)
    requires i < |mgs| && k <= |Firsts(mgs, |mgs|)| && Reached(mgs, k, i) <= |Firsts(mgs, |mgs|)|
    requires InEffect(exec, Firsts(mgs, |mgs|), base, db, Reached(mgs, k, i))
    ensures var fs := Firsts(mgs, |mgs|);
      var o := UpOne(exec, mgs[i], db, left);
      && Reached(mgs, k, i + 1) <= |fs|
      && (mgs[i].version in Versions(fs, k) ==> Reached(mgs, k, i + 1) == Reached(mgs, k, i))
      && (mgs[i].version !in Versions(fs, k) && o.ok ==>
            && Reached(mgs, k, i) < |fs| && fs[Reached(mgs, k, i)] == mgs[i] && Reached(mgs, k, i + 1) == Reached(mgs, k, i) + 1
            && InEffect(exec, fs, base, o.db, Reached(mgs, k, i + 1)))
      && (!o.ok ==> o.db == db)
  {
    var fs, n := Firsts(mgs, |mgs|), |Firsts(mgs, i)|;
    PlaceAmongFirsts(mgs, i, k);
    FirstsGrow(mgs, i + 1, |mgs|);
    if IsFirst(mgs, i) && n >= k {
      ApplyNext(exec, fs, base, n, db, left);
    }
    if !IsFirst(mgs, i) {
      VersionsGrow(fs, n, Reached(mgs, k, i));
      VersionsGrow(fs, k, Reached(mgs, k, i));
    }
  }

  lemma VersionsGrow(mgs: seq<Migration>, a: nat, b: nat)
    requires a <= b <= |mgs|
    ensures Versions(mgs, a) <= Versions(mgs, b)
  {
  }

  // What an Up leaves and applies when n firsts were in effect at some point of it.
  predicate Extends<S(==)>(exec: Exec<S>, fs: seq<Migration>, base: S, n: nat, o: Outcome<S>, applies: seq<Migration>, k: nat) {
    && n <= k <= |fs| && InEffect(exec, fs, base, o.db, k) && (o.ok ==> k == |fs|)
    && applies == fs[n..k]
  }

  lemma ExtendsOneMore<S>(exec: Exec<S>, fs: seq<Migration>, base: S, n: nat, o: Outcome<S>, applies: seq<Migration>, k: nat)
    requires n < |fs| && Extends(exec, fs, base, n + 1, o, applies, k)
    ensures Extends(exec, fs, base, n, o, [fs[n]] + applies, k)
  {
    assert fs[n..k] == [fs[n]] + fs[n + 1..k];
  }

  lemma {:induction false} UpAppliesFirsts<S>(
    exec: Exec<S>, mgs: seq<Migration>, fs: seq<Migration>, base: S, k: nat, i: nat, db: Db<S>, left: nat)
    returns (k': nat)
    requires fs == Firsts(mgs, |mgs|) && i <= |mgs| && k <= |fs| && Reached(mgs, k, i) <= |fs|
    requires InEffect(exec, fs, base, db, Reached(mgs, k, i))
    ensures Extends(exec, fs, base, Reached(mgs, k, i), UpFrom(exec, mgs, Versions(fs, k), i, db, left),
                    Applies(exec, mgs, Versions(fs, k), i, db, left), k')
    decreases |mgs| - i
  {
    var applied, n := Versions(fs, k), Reached(mgs, k, i);
    assert fs[n..n] == [];
    if i == |mgs| {
      return n;
    }
    UpStep(exec, mgs, base, k, i, db, left);
    var o := UpOne(exec, mgs[i], db, left);
    if mgs[i].version in applied {
      k' := UpAppliesFirsts(exec, mgs, fs, base, k, i + 1, db, left);
    } else {
      if o.ok {
        k' := UpAppliesFirsts(exec, mgs, fs, base, k, i + 1, o.db, o.left);
        ExtendsOneMore(exec, fs, base, n, UpFrom(exec, mgs, applied, i + 1, o.db, o.left),
                       Applies(exec, mgs, applied, i + 1, o.db, o.left), k');
      } else {
        k' := n;
      }
    }
  }

  // Any number of Ups from an empty record: the last one's outcome, and all that was committed.
  function Ups<S>(exec: Exec<S>, mgs: seq<Migration>, base: S, budgets: seq<nat>): Outcome<S> {
    if budgets == [] then Outcome(Db(base, {}), 0, false)
    else Up(exec, mgs, Ups(exec, mgs, base, budgets[..|budgets| - 1]).db, budgets[|budgets| - 1])
  }

  function Log<S>(exec: Exec<S>, mgs: seq<Migration>, base: S, budgets: seq<nat>): seq<Migration> {
    if budgets == [] then []
    else
      var db, left := Ups(exec, mgs, base, budgets[..|budgets| - 1]).db, budgets[|budgets| - 1];
      Log(exec, mgs, base, budgets[..|budgets| - 1]) + Applies(exec, mgs, db.recorded, 0, db, left)
  }

  /** After any number of Ups failing anywhere, for any list: what was committed, what is recorded and
      what the schema is are those of a prefix of the first migrations of each version, all of it once
      an Up succeeds. */
  lemma {:induction false} UpsApplyFirsts<S>(exec: Exec<S>, mgs: seq<Migration>, base: S, budgets: seq<nat>) returns (k: nat)
    ensures var fs, o := Firsts(mgs, |mgs|), Ups(exec, mgs, base, budgets);
      && k <= |fs| && InEffect(exec, fs, base, o.db, k) && Log(exec, mgs, base, budgets) == fs[..k]
      && (o.ok ==> k == |fs|)
  {
    if budgets == [] {
      return 0;
    }
    var n := |budgets| - 1;
    var fs := Firsts(mgs, |mgs|);
    var j := UpsApplyFirsts(exec, mgs, base, budgets[..n]);
    var db := Ups(exec, mgs, base, budgets[..n]).db;
    k := UpAppliesFirsts(exec, mgs, fs, base, j, 0, db, budgets[n]);
    assert fs[..j] + fs[j..k] == fs[..k];
  }

  // ---- When a successful Up has applied everything --------------------------------------------------------

  predicate Runnable<S>(exec: Exec<S>, fs: seq<Migration>, base: S) {
    NoBlankUps(fs, |fs|) && Built(exec, fs, base, |fs|).Some?
  }

  // Whoever saw an Up succeed may rely on every migration of the list having been applied.
  ghost predicate SuccessMeansAll<S(!new)>(exec: Exec<S>, mgs: seq<Migration>, base: S) {
    forall budgets: seq<nat> :: Ups(exec, mgs, base, budgets).ok ==> Log(exec, mgs, base, budgets) == mgs
  }

  lemma {:induction false} PlaceOf(mgs: seq<Migration>, m: nat, k: nat) returns (p: nat)
    requires m <= |mgs| && k < |Firsts(mgs, m)|
    ensures p < m && IsFirst(mgs, p) && |Firsts(mgs, p)| == k
  {
    p := m - 1;
    if !IsFirst(mgs, p) || |Firsts(mgs, p)| != k {
      p := PlaceOf(mgs, m - 1, k);
    }
  }

  // Up passes over everything before the place of the next first, ...
  lemma {:induction false} UpPassesOver<S>(
    exec: Exec<S>, mgs: seq<Migration>, fs: seq<Migration>, k: nat, p: nat, i: nat, db: Db<S>, left: nat)
    requires fs == Firsts(mgs, |mgs|) && i <= p < |mgs| && |Firsts(mgs, p)| == k <= |fs|
    ensures UpFrom(exec, mgs, Versions(fs, k), i, db, left) == UpFrom(exec, mgs, Versions(fs, k), p, db, left)
    decreases p - i
  {
    if i < p {
      FirstsGrow(mgs, i + 1, p);
      PlaceAmongFirsts(mgs, i, k);
      VersionsGrow(fs, if IsFirst(mgs, i) then k else |Firsts(mgs, i)|, k);
      UpPassesOver(exec, mgs, fs, k, p, i + 1, db, left);
    }
  }

  // ... and applies that.
  lemma UpApplies<S>(exec: Exec<S>, fs: seq<Migration>, base: S, k: nat, db: Db<S>, left: nat)
    requires DistinctVersions(fs) && k < |fs| && left > 0 && InEffect(exec, fs, base, db, k) && Runnable(exec, fs, base)
    ensures UpOne(exec, fs[k], db, left).ok && fs[k].version !in Versions(fs, k)
  {
    Unbuildable(exec, fs, base, k + 1, |fs|);
    VersionsHold(fs, k, k);
  }

  lemma UpAdvances<S>(exec: Exec<S>, mgs: seq<Migration>, fs: seq<Migration>, base: S, k: nat, db: Db<S>, left: nat)
    returns (k': nat)
    requires fs == Firsts(mgs, |mgs|) && k < |fs| && left > 0
    requires InEffect(exec, fs, base, db, k) && Runnable(exec, fs, base)
    ensures k < k' <= |fs| && InEffect(exec, fs, base, UpFrom(exec, mgs, Versions(fs, k), 0, db, left).db, k')
  {
    var p := PlaceOf(mgs, |mgs|, k);
    UpPassesOver(exec, mgs, fs, k, p, 0, db, left);
    PlaceAmongFirsts(mgs, p, k);
    UpApplies(exec, fs, base, k, db, left);
    UpStep(exec, mgs, base, k, p, db, left);
    var o := UpOne(exec, mgs[p], db, left);
    k' := UpAppliesFirsts(exec, mgs, fs, base, k, p + 1, o.db, o.left);
  }

  // With every version recorded there is nothing left to do.
  lemma {:induction false} UpWithAllRecorded<S>(exec: Exec<S>, mgs: seq<Migration>, i: nat, db: Db<S>, left: nat)
    requires i <= |mgs|
    ensures UpFrom(exec, mgs, Versions(mgs, |mgs|), i, db, left) == Outcome(db, left, true)
    decreases |mgs| - i
  {
    if i < |mgs| { UpWithAllRecorded(exec, mgs, i + 1, db, left); }
  }

  // Every failing Up with transactions to spare brings at least one more first into effect.
  lemma {:induction false} EventuallySucceeds<S>(exec: Exec<S>, mgs: seq<Migration>, base: S, budgets: seq<nat>, k: nat)
    returns (more: seq<nat>)
    requires k <= |Firsts(mgs, |mgs|)| && Runnable(exec, Firsts(mgs, |mgs|), base)
    requires InEffect(exec, Firsts(mgs, |mgs|), base, Ups(exec, mgs, base, budgets).db, k)
    ensures Ups(exec, mgs, base, more).ok
    decreases |Firsts(mgs, |mgs|)| - k
  {
    var fs := Firsts(mgs, |mgs|);
    var db := Ups(exec, mgs, base, budgets).db;
    more := budgets + [1];
    assert more[..|more| - 1] == budgets;
    if k == |fs| {
      FirstsHaveAllVersions(mgs, |mgs|);
      UpWithAllRecorded(exec, mgs, 0, db, 1);
    } else {
      var k' := UpAdvances(exec, mgs, fs, base, k, db, 1);
      more := EventuallySucceeds(exec, mgs, base, more, k');
    }
  }

  /** An Up that reports success has applied every migration, in every history of Ups, exactly when the
      versions are distinct (or no Up can succeed because the scripts do not run). */
  lemma SuccessMeansAllExactly<S(!new)>(exec: Exec<S>, mgs: seq<Migration>, base: S)
    ensures SuccessMeansAll(exec, mgs, base) <==> DistinctVersions(mgs) || !Runnable(exec, Firsts(mgs, |mgs|), base)
  {
    var fs := Firsts(mgs, |mgs|);
    FirstsAreAllExactly(mgs);
    if DistinctVersions(mgs) || !Runnable(exec, fs, base) {
      forall budgets: seq<nat> | Ups(exec, mgs, base, budgets).ok ensures Log(exec, mgs, base, budgets) == mgs {
        var k := UpsApplyFirsts(exec, mgs, base, budgets);
        assert fs[..k] == fs;
      }
    } else {
      assert Ups(exec, mgs, base, []).db == Db(base, {});
      var budgets := EventuallySucceeds(exec, mgs, base, [], 0);
      var k := UpsApplyFirsts(exec, mgs, base, budgets);
      assert fs[..k] == fs;
    }
  }

  // ---- What Down does with them ------------------------------------------------------------------------------

  predicate IsReverse(list: seq<Migration>, mgs: seq<Migration>) {
    |list| == |mgs| && forall j :: 0 <= j < |list| ==> list[j] == mgs[|mgs| - 1 - j]
  }

  lemma {:induction false} LatestListsAll(mgs: seq<Migration>, i: nat)
    requires i <= |mgs|
    ensures IsReverse(Latest(mgs, Versions(mgs, |mgs|), i), mgs[..i])
  {
    if i > 0 {
      LatestListsAll(mgs, i - 1);
      assert mgs[i - 1].version in Versions(mgs, |mgs|);
      assert forall j :: 0 <= j < i - 1 ==> mgs[..i][j] == mgs[..i - 1][j];
    }
  }

  /** After a successful Up, a Down of everything runs the Down scripts of all migrations of the list,
      latest first.  These are the scripts of what was applied exactly when the versions are distinct;
      otherwise it also runs Down scripts whose Up never ran. */
  lemma DownRunsAllScripts<S>(exec: Exec<S>, mgs: seq<Migration>, base: S, budgets: seq<nat>, n: int)
    requires Ups(exec, mgs, base, budgets).ok && n <= 0
    ensures var list := ToRollback(mgs, Ups(exec, mgs, base, budgets).db.recorded, n);
      && IsReverse(list, mgs)
      && (IsReverse(list, Log(exec, mgs, base, budgets)) <==> DistinctVersions(mgs))
  {
    var fs := Firsts(mgs, |mgs|);
    var k := UpsApplyFirsts(exec, mgs, base, budgets);
    FirstsHaveAllVersions(mgs, |mgs|);
    LatestListsAll(mgs, |mgs|);
    FirstsAreAllExactly(mgs);
    AllFirstExactly(mgs, |mgs|);
    assert mgs[..|mgs|] == mgs && fs[..k] == fs;
  }
}
