/**
  The transactional schema migrator.  The schema is of any type S and `exec` says what a script does
  to it, or that it fails.  `left` is the number of transactions the connection still carries: the
  one after that fails to begin or commit, so every failure point is an input.
 */
module Migrator {
  import opened Common
  import opened Strings
  import opened EnvSort

  datatype Migration = Migration(version: string, up: string, down: string)

  datatype Db<S> = Db(schema: S, recorded: set<string>)

  datatype Outcome<S> = Outcome(db: Db<S>, left: nat, ok: bool)

  type Exec<!S> = (string, S) -> Option<S>

  // ---- One transaction -----------------------------------------------------------------------------

  // The version column is a primary key, so recording a version twice fails the transaction.
  function UpOne<S>(exec: Exec<S>, mg: Migration, db: Db<S>, left: nat): Outcome<S> {
    if Blank(mg.up) || left == 0 then Outcome(db, left, false)
    else
      var schema := exec(mg.up, db.schema);
      if schema.None? || mg.version in db.recorded then Outcome(db, left - 1, false)
      else Outcome(Db(schema.value, db.recorded + {mg.version}), left - 1, true)
  }

  function DownOne<S>(exec: Exec<S>, mg: Migration, db: Db<S>, left: nat): Outcome<S> {
    if Blank(mg.down) || left == 0 then Outcome(db, left, false)
    else
      var schema := exec(mg.down, db.schema);
      if schema.None? then Outcome(db, left - 1, false)
      else Outcome(Db(schema.value, db.recorded - {mg.version}), left - 1, true)
  }

  // ---- Whole runs ------------------------------------------------------------------------------------

  // Up from its i-th migration on; `applied` is what was recorded when it began.
  function UpFrom<S>(exec: Exec<S>, mgs: seq<Migration>, applied: set<string>, i: nat, db: Db<S>, left: nat): Outcome<S>
    requires i <= |mgs|
    decreases |mgs| - i
  {
    if i == |mgs| then Outcome(db, left, true)
    else if mgs[i].version in applied then UpFrom(exec, mgs, applied, i + 1, db, left)
    else
      var o := UpOne(exec, mgs[i], db, left);
      if o.ok then UpFrom(exec, mgs, applied, i + 1, o.db, o.left) else o
  }

  function Up<S>(exec: Exec<S>, mgs: seq<Migration>, db: Db<S>, left: nat): Outcome<S> {
    UpFrom(exec, mgs, db.recorded, 0, db, left)
  }

  // The applied ones among the first i migrations, latest first.
  function Latest(mgs: seq<Migration>, applied: set<string>, i: nat): seq<Migration>
    requires i <= |mgs|
  {
    if i == 0 then []
    else (if mgs[i - 1].version in applied then [mgs[i - 1]] else []) + Latest(mgs, applied, i - 1)
  }

  function ToRollback(mgs: seq<Migration>, applied: set<string>, n: int): seq<Migration> {
    var all := Latest(mgs, applied, |mgs|);
    if 0 < n < |all| then all[..n] else all
  }

  function DownFrom<S>(exec: Exec<S>, list: seq<Migration>, i: nat, db: Db<S>, left: nat): Outcome<S>
    requires i <= |list|
    decreases |list| - i
  {
    if i == |list| then Outcome(db, left, true)
    else
      var o := DownOne(exec, list[i], db, left);
      if o.ok then DownFrom(exec, list, i + 1, o.db, o.left) else o
  }

  function Down<S>(exec: Exec<S>, mgs: seq<Migration>, db: Db<S>, left: nat, n: int): Outcome<S> {
    DownFrom(exec, ToRollback(mgs, db.recorded, n), 0, db, left)
  }

  // ---- The migrator --------------------------------------------------------------------------------------

  predicate ByVersion(a: Migration, b: Migration) { Before(a.version, b.version) }

  // No version comes before that of an earlier migration of the list.
  predicate Ascending(mgs: seq<Migration>) {
    forall i, j :: 0 <= i < j < |mgs| ==> !Before(mgs[j].version, mgs[i].version)
  }

  lemma SortedByVersion(migrations: seq<Migration>)
    ensures Ascending(Sorted(migrations, ByVersion))
    ensures multiset(Sorted(migrations, ByVersion)) == multiset(migrations)
  {
    forall x: Migration, y: Migration, z: Migration
      ensures !ByVersion(x, x) && (ByVersion(x, y) && ByVersion(y, z) ==> ByVersion(x, z))
      ensures ByVersion(x, z) ==> ByVersion(x, y) || ByVersion(y, z)
    {
      BeforeIsStrict(x.version, y.version, z.version);
    }
    SortOrders(migrations, ByVersion);
    SortIsPermutation(migrations, ByVersion);
    var list := Sorted(migrations, ByVersion);
    forall i, j | 0 <= i < j < |list| ensures !Before(list[j].version, list[i].version) {
      assert !ByVersion(list[j], list[i]);
    }
  }

  class Runner<S> {
    const exec: Exec<S>
    const migrations: seq<Migration>
    var schema: S
    var recorded: set<string>
    var left: nat

    constructor (exec: Exec<S>, migrations: seq<Migration>, db: Db<S>, left: nat)
      ensures this.exec == exec
      ensures Ascending(this.migrations) && multiset(this.migrations) == multiset(migrations)
      ensures Now() == db && this.left == left
    {
      SortedByVersion(migrations);
      this.exec := exec;
      this.migrations := Sorted(migrations, ByVersion);
      schema, recorded := db.schema, db.recorded;
      this.left := left;
    }

    function Now(): Db<S>
      reads this
    {
      Db(schema, recorded)
    }

    // One transaction: the script runs and the record changes, or neither happens.
    method Transact(sql: string, version: string, record: bool) returns (ok: bool)
      modifies this
      requires !Blank(sql)
      ensures Outcome(Now(), left, ok) ==
        if record then UpOne(exec, Migration(version, sql, sql), old(Now()), old(left))
        else DownOne(exec, Migration(version, sql, sql), old(Now()), old(left))
    {
      if left == 0 {
        return false;
      }
      left := left - 1;
      var result := exec(sql, schema);
      if result.None? {
        return false;
      }
      if record && version in recorded {
        return false;
      }
      schema := result.value;
      recorded := if record then recorded + {version} else recorded - {version};
      return true;
    }

    method MigrateUp() returns (ok: bool)
      modifies this
      ensures Outcome(Now(), left, ok) == Up(exec, migrations, old(Now()), old(left))
    {
      var applied := recorded;
      var i := 0;
      while i < |migrations|
        invariant 0 <= i <= |migrations|
        invariant UpFrom(exec, migrations, applied, i, Now(), left) == Up(exec, migrations, old(Now()), old(left))
      {
        if migrations[i].version !in applied {
          if Blank(migrations[i].up) {
            return false;
          }
          ok := Transact(migrations[i].up, migrations[i].version, true);
          if !ok {
            return;
          }
        }
        i := i + 1;
      }
      return true;
    }

    // The applied migrations, latest first.
    method Applied() returns (list: seq<Migration>)
      ensures list == Latest(migrations, recorded, |migrations|)
    {
      list := [];
      var i := |migrations|;
      while i > 0
        invariant 0 <= i <= |migrations|
        invariant list + Latest(migrations, recorded, i) == Latest(migrations, recorded, |migrations|)
      {
        i := i - 1;
        if migrations[i].version in recorded {
          list := list + [migrations[i]];
        }
      }
    }

    method MigrateDown(n: int) returns (ok: bool)
      modifies this
      ensures Outcome(Now(), left, ok) == Down(exec, migrations, old(Now()), old(left), n)
    {
      var list := Applied();
      if 0 < n < |list| {
        list := list[..n];
      }
      var j := 0;
      while j < |list|
        invariant 0 <= j <= |list|
        invariant DownFrom(exec, list, j, Now(), left) == Down(exec, migrations, old(Now()), old(left), n)
      {
        if Blank(list[j].down) {
          return false;
        }
        ok := Transact(list[j].down, list[j].version, false);
        if !ok {
          return;
        }
        j := j + 1;
      }
      return true;
    }
  }

  // ---- Which migrations are in effect ------------------------------------------------------------------------

  predicate DistinctVersions(mgs: seq<Migration>) {
    forall i, j :: 0 <= i < j < |mgs| ==> mgs[i].version != mgs[j].version
  }

  function Versions(mgs: seq<Migration>, k: nat): set<string>
    requires k <= |mgs|
  {
    set i | 0 <= i < k :: mgs[i].version
  }

  // The schema after the first k Up scripts, if they all run.
  function Built<S>(exec: Exec<S>, mgs: seq<Migration>, base: S, k: nat): Option<S>
    requires k <= |mgs|
  {
    if k == 0 then Some(base)
    else
      var before := Built(exec, mgs, base, k - 1);
      if before.None? then None else exec(mgs[k - 1].up, before.value)
  }

  predicate NoBlankUps(mgs: seq<Migration>, k: nat)
    requires k <= |mgs|
  {
    forall i :: 0 <= i < k ==> !Blank(mgs[i].up)
  }

  // Exactly the first k migrations are recorded, and exactly they are in effect.
  predicate InEffect<S(==)>(exec: Exec<S>, mgs: seq<Migration>, base: S, db: Db<S>, k: nat)
    requires k <= |mgs|
  {
    db.recorded == Versions(mgs, k) && Built(exec, mgs, base, k) == Some(db.schema) && NoBlankUps(mgs, k)
  }

  ghost predicate DownsInvertUps<S(!new)>(exec: Exec<S>, mgs: seq<Migration>) {
    forall i, s :: 0 <= i < |mgs| && exec(mgs[i].up, s).Some? ==> exec(mgs[i].down, exec(mgs[i].up, s).value) == Some(s)
  }

  lemma VersionsStep(mgs: seq<Migration>, k: nat)
    requires k < |mgs|
    ensures Versions(mgs, k + 1) == Versions(mgs, k) + {mgs[k].version}
    ensures DistinctVersions(mgs) ==> mgs[k].version !in Versions(mgs, k)
  {
  }

  // Versions(mgs, k) holds the version of a later migration only if that is a duplicate.
  lemma VersionsHold(mgs: seq<Migration>, k: nat, i: nat)
    requires DistinctVersions(mgs) && k <= |mgs| && i < |mgs|
    ensures mgs[i].version in Versions(mgs, k) <==> i < k
  {
  }

  lemma ApplyNext<S>(exec: Exec<S>, mgs: seq<Migration>, base: S, i: nat, db: Db<S>, left: nat)
    requires DistinctVersions(mgs) && i < |mgs| && InEffect(exec, mgs, base, db, i)
    ensures var o := UpOne(exec, mgs[i], db, left);
      InEffect(exec, mgs, base, o.db, if o.ok then i + 1 else i)
  {
    VersionsStep(mgs, i);
  }

  lemma {:induction false} UpFromExtends<S>(exec: Exec<S>, mgs: seq<Migration>, base: S, k: nat, i: nat, db: Db<S>, left: nat)
    returns (k': nat)
    requires DistinctVersions(mgs) && k <= |mgs| && i <= |mgs|
    requires InEffect(exec, mgs, base, db, if i < k then k else i)
    ensures k <= k' <= |mgs|
    ensures var o := UpFrom(exec, mgs, Versions(mgs, k), i, db, left);
      InEffect(exec, mgs, base, o.db, k') && (o.ok ==> k' == |mgs|)
    decreases |mgs| - i
  {
    if i == |mgs| {
      return |mgs|;
    }
    VersionsHold(mgs, k, i);
    if i < k {
      k' := UpFromExtends(exec, mgs, base, k, i + 1, db, left);
    } else {
      ApplyNext(exec, mgs, base, i, db, left);
      var o := UpOne(exec, mgs[i], db, left);
      if o.ok {
        k' := UpFromExtends(exec, mgs, base, k, i + 1, o.db, o.left);
      } else {
        k' := i;
      }
    }
  }

  // With the first k recorded, those are rolled back from the k-th down.
  lemma {:induction false} LatestOfPrefix(mgs: seq<Migration>, k: nat, i: nat)
    requires DistinctVersions(mgs) && k <= |mgs| && i <= |mgs|
    ensures var list := Latest(mgs, Versions(mgs, k), i);
      && |list| == (if i < k then i else k)
      && forall j :: 0 <= j < |list| ==> list[j] == mgs[|list| - 1 - j]
    decreases i
  {
    if i > 0 {
      VersionsHold(mgs, k, i - 1);
      LatestOfPrefix(mgs, k, i - 1);
    }
  }

  lemma UndoLast<S(!new)>(exec: Exec<S>, mgs: seq<Migration>, base: S, k: nat, db: Db<S>, left: nat)
    requires DistinctVersions(mgs) && DownsInvertUps(exec, mgs) && 0 < k <= |mgs|
    requires InEffect(exec, mgs, base, db, k)
    ensures var o := DownOne(exec, mgs[k - 1], db, left);
      InEffect(exec, mgs, base, o.db, if o.ok then k - 1 else k)
  {
    VersionsStep(mgs, k - 1);
    assert Versions(mgs, k) - {mgs[k - 1].version} == Versions(mgs, k - 1);
  }

  lemma {:induction false} DownFromRetreats<S(!new)>(
    exec: Exec<S>, mgs: seq<Migration>, base: S, k: nat, list: seq<Migration>, i: nat, db: Db<S>, left: nat)
    returns (k': nat)
    requires DistinctVersions(mgs) && DownsInvertUps(exec, mgs)
    requires i <= |list| <= k <= |mgs| && forall j :: 0 <= j < |list| ==> list[j] == mgs[k - 1 - j]
    requires InEffect(exec, mgs, base, db, k - i)
    ensures k - |list| <= k' <= k - i
    ensures var o := DownFrom(exec, list, i, db, left);
      InEffect(exec, mgs, base, o.db, k') && (o.ok ==> k' == k - |list|)
    decreases |list| - i
  {
    if i == |list| {
      return k - i;
    }
    UndoLast(exec, mgs, base, k - i, db, left);
    var o := DownOne(exec, list[i], db, left);
    if o.ok {
      k' := DownFromRetreats(exec, mgs, base, k, list, i + 1, o.db, o.left);
    } else {
      k' := k - i;
    }
  }

  // How many migrations a rollback of n undoes when k are applied.
  function Undone(k: nat, n: int): nat { if 0 < n < k then n else k }

  lemma UpExtends<S>(exec: Exec<S>, mgs: seq<Migration>, base: S, k: nat, db: Db<S>, left: nat) returns (k': nat)
    requires DistinctVersions(mgs) && k <= |mgs| && InEffect(exec, mgs, base, db, k)
    ensures k <= k' <= |mgs| && InEffect(exec, mgs, base, Up(exec, mgs, db, left).db, k')
    ensures Up(exec, mgs, db, left).ok ==> k' == |mgs|
  {
    k' := UpFromExtends(exec, mgs, base, k, 0, db, left);
  }

  lemma DownRetreats<S(!new)>(exec: Exec<S>, mgs: seq<Migration>, base: S, k: nat, db: Db<S>, left: nat, n: int) returns (k': nat)
    requires DistinctVersions(mgs) && DownsInvertUps(exec, mgs)
    requires k <= |mgs| && InEffect(exec, mgs, base, db, k)
    ensures k - Undone(k, n) <= k' <= k && InEffect(exec, mgs, base, Down(exec, mgs, db, left, n).db, k')
    ensures Down(exec, mgs, db, left, n).ok ==> k' == k - Undone(k, n)
  {
    LatestOfPrefix(mgs, k, |mgs|);
    k' := DownFromRetreats(exec, mgs, base, k, ToRollback(mgs, db.recorded, n), 0, db, left);
  }

  // ---- Every history of runs -------------------------------------------------------------------------------------

  datatype Command = RunUp(budget: nat) | RunDown(n: int, budget: nat)

  // Any commands, each interrupted wherever its budget says.
  function After<S>(exec: Exec<S>, mgs: seq<Migration>, base: S, cs: seq<Command>): Db<S> {
    if cs == [] then Db(base, {})
    else
      var db, c := After(exec, mgs, base, cs[..|cs| - 1]), cs[|cs| - 1];
      match c
      case RunUp(budget) => Up(exec, mgs, db, budget).db
      case RunDown(n, budget) => Down(exec, mgs, db, budget, n).db
  }

  /** After any sequence of Ups and Downs, failed or not, the recorded versions are those of a prefix of
      the migrations and the schema is what that prefix builds: a version is recorded exactly when its
      Up is in effect. */
  lemma {:induction false} RecordedIsInEffect<S(!new)>(exec: Exec<S>, mgs: seq<Migration>, base: S, cs: seq<Command>) returns (k: nat)
    requires DistinctVersions(mgs) && DownsInvertUps(exec, mgs)
    ensures k <= |mgs| && InEffect(exec, mgs, base, After(exec, mgs, base, cs), k)
  {
    if cs == [] {
      return 0;
    }
    var n := |cs| - 1;
    k := RecordedIsInEffect(exec, mgs, base, cs[..n]);
    var db := After(exec, mgs, base, cs[..n]);
    match cs[n]
    case RunUp(budget) => k := UpExtends(exec, mgs, base, k, db, budget);
    case RunDown(m, budget) => k := DownRetreats(exec, mgs, base, k, db, budget, m);
  }

  // Two databases in which the same migrations are in effect are the same.
  lemma InEffectIsState<S>(exec: Exec<S>, mgs: seq<Migration>, base: S, a: Db<S>, b: Db<S>, k: nat)
    requires k <= |mgs| && InEffect(exec, mgs, base, a, k) && InEffect(exec, mgs, base, b, k)
    ensures a == b
  {
  }

  /** Whatever was done before, a Down of everything that succeeds restores the schema and empties the
      record. */
  lemma DownAllRestores<S(!new)>(exec: Exec<S>, mgs: seq<Migration>, base: S, cs: seq<Command>, left: nat, n: int)
    requires DistinctVersions(mgs) && DownsInvertUps(exec, mgs) && n <= 0
    ensures var o := Down(exec, mgs, After(exec, mgs, base, cs), left, n);
      o.ok ==> o.db == Db(base, {})
  {
    var db := After(exec, mgs, base, cs);
    var k := RecordedIsInEffect(exec, mgs, base, cs);
    var k' := DownRetreats(exec, mgs, base, k, db, left, n);
  }

  /** After a successful Up, rolling back any number of migrations, even partly, and going up again
      leads to the same database; and that second Up succeeds if the connection lasts. */
  lemma UpDownUp<S(!new)>(exec: Exec<S>, mgs: seq<Migration>, base: S, cs: seq<Command>, left: nat, n: int, down: nat, again: nat)
    requires DistinctVersions(mgs) && DownsInvertUps(exec, mgs)
    requires Up(exec, mgs, After(exec, mgs, base, cs), left).ok
    ensures var up := Up(exec, mgs, After(exec, mgs, base, cs), left).db;
      var back := Down(exec, mgs, up, down, n).db;
      var o := Up(exec, mgs, back, again);
      (o.ok ==> o.db == up) && (again >= |mgs| ==> o.ok)
  {
    var db := After(exec, mgs, base, cs);
    var k := RecordedIsInEffect(exec, mgs, base, cs);
    k := UpExtends(exec, mgs, base, k, db, left);
    UpDownUpFrom(exec, mgs, base, Up(exec, mgs, db, left).db, n, down, again);
  }

  lemma UpDownUpFrom<S(!new)>(exec: Exec<S>, mgs: seq<Migration>, base: S, up: Db<S>, n: int, down: nat, again: nat)
    requires DistinctVersions(mgs) && DownsInvertUps(exec, mgs) && InEffect(exec, mgs, base, up, |mgs|)
    ensures var o := Up(exec, mgs, Down(exec, mgs, up, down, n).db, again);
      (o.ok ==> o.db == up) && (again >= |mgs| ==> o.ok)
  {
    var back := Down(exec, mgs, up, down, n).db;
    var k := DownRetreats(exec, mgs, base, |mgs|, up, down, n);
    var k' := UpExtends(exec, mgs, base, k, back, again);
    UpFromSucceeds(exec, mgs, base, k, 0, back, again);
    if Up(exec, mgs, back, again).ok {
      InEffectIsState(exec, mgs, base, up, Up(exec, mgs, back, again).db, |mgs|);
    }
  }

  // ---- In which order ------------------------------------------------------------------------------------------------------

  // The scripts a run of Up commits, in turn, from its i-th migration on.
  function Applies<S>(exec: Exec<S>, mgs: seq<Migration>, applied: set<string>, i: nat, db: Db<S>, left: nat): seq<Migration>
    requires i <= |mgs|
    decreases |mgs| - i
  {
    if i == |mgs| then []
    else if mgs[i].version in applied then Applies(exec, mgs, applied, i + 1, db, left)
    else
      var o := UpOne(exec, mgs[i], db, left);
      if o.ok then [mgs[i]] + Applies(exec, mgs, applied, i + 1, o.db, o.left) else []
  }

  lemma {:induction false} AppliesFrom<S>(exec: Exec<S>, mgs: seq<Migration>, applied: set<string>, i: nat, db: Db<S>, left: nat, m: Migration)
    requires i <= |mgs| && m in Applies(exec, mgs, applied, i, db, left)
    ensures m in mgs[i..] && m.version !in applied
    decreases |mgs| - i
  {
    assert mgs[i..] == [mgs[i]] + mgs[i + 1..];
    if mgs[i].version in applied {
      AppliesFrom(exec, mgs, applied, i + 1, db, left, m);
    } else {
      var o := UpOne(exec, mgs[i], db, left);
      if m != mgs[i] { AppliesFrom(exec, mgs, applied, i + 1, o.db, o.left, m); }
    }
  }

  /** Up applies migrations in ascending order of version, whatever is already applied and wherever it
      fails. */
  lemma {:induction false} UpAscends<S>(exec: Exec<S>, mgs: seq<Migration>, applied: set<string>, i: nat, db: Db<S>, left: nat)
    requires i <= |mgs| && Ascending(mgs)
    ensures Ascending(Applies(exec, mgs, applied, i, db, left))
    decreases |mgs| - i
  {
    if i < |mgs| {
      if mgs[i].version in applied {
        UpAscends(exec, mgs, applied, i + 1, db, left);
      } else {
        var o := UpOne(exec, mgs[i], db, left);
        if o.ok {
          UpAscends(exec, mgs, applied, i + 1, o.db, o.left);
          var rest := Applies(exec, mgs, applied, i + 1, o.db, o.left);
          forall j | 0 <= j < |rest| ensures !Before(rest[j].version, mgs[i].version) {
            AppliesFrom(exec, mgs, applied, i + 1, o.db, o.left, rest[j]);
          }
        }
      }
    }
  }

  // The applied migrations latest first: no version comes after that of an earlier one of the list.
  predicate Descending(list: seq<Migration>) {
    forall i, j :: 0 <= i < j < |list| ==> !Before(list[i].version, list[j].version)
  }

  lemma {:induction false} LatestIsApplied(mgs: seq<Migration>, applied: set<string>, i: nat, m: Migration)
    requires i <= |mgs|
    ensures m in Latest(mgs, applied, i) <==> m in mgs[..i] && m.version in applied
  {
    if i > 0 {
      LatestIsApplied(mgs, applied, i - 1, m);
      assert mgs[..i] == mgs[..i - 1] + [mgs[i - 1]];
    }
  }

  lemma {:induction false} LatestDescends(mgs: seq<Migration>, applied: set<string>, i: nat)
    requires i <= |mgs| && Ascending(mgs)
    ensures Descending(Latest(mgs, applied, i))
  {
    if i > 0 {
      LatestDescends(mgs, applied, i - 1);
      var rest := Latest(mgs, applied, i - 1);
      forall j | 0 <= j < |rest| ensures !Before(mgs[i - 1].version, rest[j].version) {
        LatestIsApplied(mgs, applied, i - 1, rest[j]);
      }
    }
  }

  /** Down(n) undoes the n applied migrations with the greatest versions, greatest first: what it leaves
      applied never comes after what it undoes. */
  lemma DownUndoesGreatest(mgs: seq<Migration>, applied: set<string>, n: int)
    requires Ascending(mgs)
    ensures var all, list := Latest(mgs, applied, |mgs|), ToRollback(mgs, applied, n);
      && |list| == Undone(|all|, n) && list <= all && Descending(list)
      && (forall m :: m in all <==> m in mgs && m.version in applied)
      && (forall m, k :: m in list && k in all[|list|..] ==> !Before(m.version, k.version))
  {
    var all, list := Latest(mgs, applied, |mgs|), ToRollback(mgs, applied, n);
    LatestDescends(mgs, applied, |mgs|);
    assert mgs[..|mgs|] == mgs;
    forall m ensures m in all <==> m in mgs && m.version in applied { LatestIsApplied(mgs, applied, |mgs|, m); }
    assert list == all[..|list|];
    forall m, k | m in list && k in all[|list|..] ensures !Before(m.version, k.version) {
      var i :| 0 <= i < |list| && list[i] == m;
      var j :| 0 <= j < |all[|list|..]| && all[|list|..][j] == k;
      assert all[i] == m && all[|list| + j] == k;
    }
  }

  // ---- When Down succeeds ---------------------------------------------------------------------------------------------------

  predicate NoBlankDowns(list: seq<Migration>) { forall i :: 0 <= i < |list| ==> !Blank(list[i].down) }

  lemma {:induction false} DownFromSucceeds<S(!new)>(
    exec: Exec<S>, mgs: seq<Migration>, base: S, k: nat, list: seq<Migration>, i: nat, db: Db<S>, left: nat)
    requires DistinctVersions(mgs) && DownsInvertUps(exec, mgs)
    requires i <= |list| <= k <= |mgs| && forall j :: 0 <= j < |list| ==> list[j] == mgs[k - 1 - j]
    requires InEffect(exec, mgs, base, db, k - i)
    ensures DownFrom(exec, list, i, db, left).ok <==> NoBlankDowns(list[i..]) && |list| - i <= left
    decreases |list| - i
  {
    if i < |list| {
      assert list[i..] == [list[i]] + list[i + 1..];
      UndoLast(exec, mgs, base, k - i, db, left);
      Unbuildable(exec, mgs, base, k - i - 1, k - i);
      var o := DownOne(exec, list[i], db, left);
      if o.ok { DownFromSucceeds(exec, mgs, base, k, list, i + 1, o.db, o.left); }
    }
  }

  /** With k migrations in effect, Down(n) succeeds exactly when none of the Down scripts it runs is blank
      and the connection lasts for them. */
  lemma DownSucceedsExactly<S(!new)>(exec: Exec<S>, mgs: seq<Migration>, base: S, k: nat, db: Db<S>, left: nat, n: int)
    requires DistinctVersions(mgs) && DownsInvertUps(exec, mgs)
    requires k <= |mgs| && InEffect(exec, mgs, base, db, k)
    ensures Down(exec, mgs, db, left, n).ok <==> NoBlankDowns(ToRollback(mgs, db.recorded, n)) && Undone(k, n) <= left
  {
    LatestOfPrefix(mgs, k, |mgs|);
    var list := ToRollback(mgs, db.recorded, n);
    DownFromSucceeds(exec, mgs, base, k, list, 0, db, left);
    assert list[0..] == list;
  }

  // ---- When Up succeeds -----------------------------------------------------------------------------------------------

  lemma {:induction false} Unbuildable<S>(exec: Exec<S>, mgs: seq<Migration>, base: S, i: nat, k: nat)
    requires i <= k <= |mgs|
    ensures Built(exec, mgs, base, i).None? ==> Built(exec, mgs, base, k).None?
    decreases k
  {
    if i < k { Unbuildable(exec, mgs, base, i, k - 1); }
  }

  // With k migrations in effect, the rest go through if nothing stands against them.
  lemma {:induction false} UpFromSucceeds<S>(exec: Exec<S>, mgs: seq<Migration>, base: S, k: nat, i: nat, db: Db<S>, left: nat)
    requires DistinctVersions(mgs) && k <= |mgs| && i <= |mgs|
    requires InEffect(exec, mgs, base, db, if i < k then k else i)
    ensures UpFrom(exec, mgs, Versions(mgs, k), i, db, left).ok <==>
      && NoBlankUps(mgs, |mgs|) && Built(exec, mgs, base, |mgs|).Some?
      && |mgs| - (if i < k then k else i) <= left
    decreases |mgs| - i
  {
    if i < |mgs| {
      VersionsHold(mgs, k, i);
      if i < k {
        UpFromSucceeds(exec, mgs, base, k, i + 1, db, left);
      } else {
        VersionsStep(mgs, i);
        Unbuildable(exec, mgs, base, i + 1, |mgs|);
        var o := UpOne(exec, mgs[i], db, left);
        if o.ok {
          UpFromSucceeds(exec, mgs, base, k, i + 1, o.db, o.left);
        }
      }
    }
  }

  // From an empty record, a duplicate version stops Up at the latest when it is reached.
  lemma {:induction false} DuplicateStopsUp<S>(exec: Exec<S>, mgs: seq<Migration>, i: nat, a: nat, b: nat, db: Db<S>, left: nat)
    requires i <= b < |mgs| && a < b && mgs[a].version == mgs[b].version
    requires a < i ==> mgs[a].version in db.recorded
    ensures !UpFrom(exec, mgs, {}, i, db, left).ok
    decreases |mgs| - i
  {
    var o := UpOne(exec, mgs[i], db, left);
    if o.ok { DuplicateStopsUp(exec, mgs, i + 1, a, b, o.db, o.left); }
  }

  /** From an empty record, Up succeeds exactly when the versions are distinct, no script is blank, the
      scripts all run in turn, and the connection lasts. */
  lemma UpSucceedsExactly<S>(exec: Exec<S>, mgs: seq<Migration>, base: S, left: nat)
    ensures Up(exec, mgs, Db(base, {}), left).ok <==>
      && DistinctVersions(mgs) && NoBlankUps(mgs, |mgs|) && Built(exec, mgs, base, |mgs|).Some? && |mgs| <= left
  {
    if DistinctVersions(mgs) {
      assert Versions(mgs, 0) == {};
      UpFromSucceeds(exec, mgs, base, 0, 0, Db(base, {}), left);
    } else {
      var a, b :| 0 <= a < b < |mgs| && mgs[a].version == mgs[b].version;
      DuplicateStopsUp(exec, mgs, 0, a, b, Db(base, {}), left);
    }
  }

  /** Distinct versions are needed: of two migrations with one version the second is never applied,
      yet after the failure it causes a second Up reports success. */
  lemma DuplicateIsNeverApplied<S>(exec: Exec<S>, a: Migration, b: Migration, base: S, left: nat)
    requires a.version == b.version && !Blank(a.up) && exec(a.up, base).Some? && left >= 1
    ensures var first := Up(exec, [a, b], Db(base, {}), left);
      && !first.ok && first.db == Db(exec(a.up, base).value, {a.version})
      && Up(exec, [a, b], first.db, left) == Outcome(first.db, left, true)
  {
    var mgs := [a, b];
    var o := UpOne(exec, a, Db(base, {}), left);
    assert Up(exec, mgs, Db(base, {}), left) == UpFrom(exec, mgs, {}, 1, o.db, o.left);
    assert UpFrom(exec, mgs, {a.version}, 1, o.db, left) == UpFrom(exec, mgs, {a.version}, 2, o.db, left);
  }
}
