/**
  The legacy migration as it runs: one object holding the native store, the checkpoint table and the
  report, updated write by write.  `left` is the number of writes the process still gets to make
  before it is cut off, so every crash point is an input.
 */
module LegacyMigrationRun {
  import opened Common
  import opened LegacyMigration

  datatype Outcome = Done | Undecryptable | Interrupted

  // Rows of a site that its report names as skipped: first the build-only ones, ...
  function BuildOnly(rows: seq<LegacyRow>): seq<string> {
    if rows == [] then []
    else
      var n := |rows| - 1;
      BuildOnly(rows[..n]) + (if rows[n].runtime then [] else [rows[n].key])
  }

  // ... then those the native store refuses.
  function RefusedKeys(cfg: Settings, ps: seq<Pending>): seq<string> {
    if ps == [] then []
    else
      var n := |ps| - 1;
      RefusedKeys(cfg, ps[..n]) + (if cfg.slot(ps[n].key, ps[n].value).Some? then [] else [ps[n].key])
  }

  // Rows a run accounts for: those of the attached sites it does not skip as done.
  function RowsProcessed(cfg: Settings, sites: seq<Site>, s: Store): nat {
    if sites == [] then 0
    else if IsDone(cfg, s, sites[0]) then RowsProcessed(cfg, sites[1..], s)
    else if Refused(cfg, sites[0]) then 0
    else
      (if sites[0].folder.Some? then |sites[0].rows| else 0)
        + RowsProcessed(cfg, sites[1..], ApplyAll(s, SiteWrites(cfg, sites[0])))
  }

  // The sites a run finds done, and those it reports as attached to no project, by the checkpoints in s.
  function DoneSites(cfg: Settings, sites: seq<Site>, s: Store): nat {
    if sites == [] then 0
    else DoneSites(cfg, sites[1..], s) + (if IsDone(cfg, s, sites[0]) then 1 else 0)
  }

  function UnattachedSites(cfg: Settings, sites: seq<Site>, s: Store): seq<string> {
    if sites == [] then []
    else
      (if Unattached(sites[0]) && !IsDone(cfg, s, sites[0]) then [sites[0].id] else [])
        + UnattachedSites(cfg, sites[1..], s)
  }

  lemma {:induction false} SameReport(cfg: Settings, sites: seq<Site>, s: Store, t: Store)
    requires forall i :: 0 <= i < |sites| ==> (IsDone(cfg, s, sites[i]) <==> IsDone(cfg, t, sites[i]))
    ensures DoneSites(cfg, sites, s) == DoneSites(cfg, sites, t)
    ensures UnattachedSites(cfg, sites, s) == UnattachedSites(cfg, sites, t)
  {
    if sites != [] {
      assert IsDone(cfg, s, sites[0]) <==> IsDone(cfg, t, sites[0]);
      forall i | 0 <= i < |sites[1..]| ensures IsDone(cfg, s, sites[1..][i]) <==> IsDone(cfg, t, sites[1..][i]) {
        assert sites[1..][i] == sites[i + 1];
      }
      SameReport(cfg, sites[1..], s, t);
    }
  }

  // What the report says of sites before i, together with what is still to come.
  predicate Reports(cfg: Settings, sites: seq<Site>, s0: Store, i: nat, s: Store, resumed: nat, unattached: seq<string>)
    requires i <= |sites|
  {
    DistinctSites(sites) ==>
      && resumed + DoneSites(cfg, sites[i..], s) == DoneSites(cfg, sites, s0)
      && unattached + UnattachedSites(cfg, sites[i..], s) == UnattachedSites(cfg, sites, s0)
  }

  lemma NextReport(cfg: Settings, sites: seq<Site>, s0: Store, i: nat, s: Store, resumed: nat, unattached: seq<string>)
    requires i < |sites| && Reports(cfg, sites, s0, i, s, resumed, unattached)
    ensures IsDone(cfg, s, sites[i]) ==> Reports(cfg, sites, s0, i + 1, s, resumed + 1, unattached)
    ensures !IsDone(cfg, s, sites[i]) && !Refused(cfg, sites[i]) ==>
      Reports(cfg, sites, s0, i + 1, ApplyAll(s, SiteWrites(cfg, sites[i])), resumed,
              unattached + if Unattached(sites[i]) then [sites[i].id] else [])
  {
    var site, rest := sites[i], sites[i + 1..];
    assert sites[i..][1..] == rest;
    if DistinctSites(sites) && !Refused(cfg, site) {
      SiteMarksOnlyItself(cfg, site);
      OthersStayDone(cfg, site, rest, s, SiteWrites(cfg, site));
      SameReport(cfg, rest, ApplyAll(s, SiteWrites(cfg, site)), s);
    }
  }

  lemma {:induction false} RowsSplitByUse(cfg: Settings, rows: seq<LegacyRow>)
    requires AllReadable(cfg, rows)
    ensures |ToWrite(cfg, rows)| + |BuildOnly(rows)| == |rows|
  {
    if rows != [] { RowsSplitByUse(cfg, rows[..|rows| - 1]); }
  }

  lemma {:induction false} PendingSplitByFit(cfg: Settings, folder: string, ps: seq<Pending>)
    ensures |Puts(cfg, folder, ps)| + |RefusedKeys(cfg, ps)| == |ps|
  {
    if ps != [] { PendingSplitByFit(cfg, folder, ps[..|ps| - 1]); }
  }

  lemma {:induction false} ApplyAllAppend(s: Store, a: seq<Write>, b: seq<Write>)
    ensures ApplyAll(s, a + b) == ApplyAll(ApplyAll(s, a), b)
  {
    if b == [] {
      assert a + b == a;
    } else {
      var n := |b| - 1;
      assert (a + b)[..|a + b| - 1] == a + b[..n];
      ApplyAllAppend(s, a, b[..n]);
    }
  }

  // The writes for a prefix of the pending values are a prefix of the writes for all of them.
  lemma {:induction false} PutsPrefix(cfg: Settings, folder: string, ps: seq<Pending>, i: nat)
    requires i <= |ps|
    ensures Puts(cfg, folder, ps[..i]) <= Puts(cfg, folder, ps)
    decreases |ps|
  {
    if i == |ps| {
      assert ps[..i] == ps;
    } else {
      assert ps[..|ps| - 1][..i] == ps[..i];
      PutsPrefix(cfg, folder, ps[..|ps| - 1], i);
    }
  }

  // What the i-th pending value adds to the writes and to the skipped keys.
  lemma OneMorePut(cfg: Settings, folder: string, ps: seq<Pending>, i: nat, s: Store)
    requires i < |ps|
    ensures var p, slot := ps[i], cfg.slot(ps[i].key, ps[i].value);
      var before, after, all := Puts(cfg, folder, ps[..i]), Puts(cfg, folder, ps[..i + 1]), Puts(cfg, folder, ps);
      && RefusedKeys(cfg, ps[..i + 1]) == RefusedKeys(cfg, ps[..i]) + (if slot.Some? then [] else [p.key])
      && |after| == |before| + (if slot.Some? then 1 else 0) <= |all|
      && ApplyAll(s, after) == (if slot.Some? then Apply(ApplyAll(s, before), Put(folder, slot.value, p.value)) else ApplyAll(s, before))
      && (slot.Some? ==> Made(s, all, |before|) == ApplyAll(s, before))
  {
    assert ps[..i + 1][..i] == ps[..i];
    PutsPrefix(cfg, folder, ps, i);
    PutsPrefix(cfg, folder, ps, i + 1);
    var before, after := Puts(cfg, folder, ps[..i]), Puts(cfg, folder, ps[..i + 1]);
    if after != before {
      assert after[..|after| - 1] == before;
    }
    assert Puts(cfg, folder, ps)[..|before|] == before;
  }

  // A process allowed n writes makes exactly the first n of ws.
  function Made(s: Store, ws: seq<Write>, n: nat): Store {
    ApplyAll(s, if n < |ws| then ws[..n] else ws)
  }

  // How far the write phase has come.
  datatype Progress = Progress(store: Store, left: nat, written: nat, skipped: seq<string>, ok: bool)

  // One value: stored, reported because the store refuses it, or lost to the cut.
  function WriteStep(cfg: Settings, folder: string, v: Pending, p: Progress): Progress {
    var slot := cfg.slot(v.key, v.value);
    if slot.None? then p.(skipped := p.skipped + [v.key])
    else if p.left == 0 then p.(ok := false)
    else p.(store := Apply(p.store, Put(folder, slot.value, v.value)), left := p.left - 1, written := p.written + 1)
  }

  // The write phase from its i-th value on.
  function WriteFrom(cfg: Settings, folder: string, ps: seq<Pending>, i: nat, p: Progress): Progress
    requires i <= |ps|
    decreases |ps| - i
  {
    if i == |ps| || !p.ok then p else WriteFrom(cfg, folder, ps, i + 1, WriteStep(cfg, folder, ps[i], p))
  }

  // p is where the phase begun in p0 stands after the first i values.
  predicate Reached(cfg: Settings, folder: string, ps: seq<Pending>, i: nat, p0: Progress, p: Progress)
    requires i <= |ps|
  {
    var ws := Puts(cfg, folder, ps[..i]);
    && p.ok
    && |ws| <= p0.left
    && p == Progress(ApplyAll(p0.store, ws), p0.left - |ws|, p0.written + |ws|, p0.skipped + RefusedKeys(cfg, ps[..i]), true)
  }

  lemma ReachesNext(cfg: Settings, folder: string, ps: seq<Pending>, i: nat, p0: Progress, p: Progress)
    requires i < |ps| && Reached(cfg, folder, ps, i, p0, p)
    ensures var q, ws := WriteStep(cfg, folder, ps[i], p), Puts(cfg, folder, ps);
      && (q.ok ==> Reached(cfg, folder, ps, i + 1, p0, q))
      && (!q.ok ==> p0.left < |ws| && q.store == Made(p0.store, ws, p0.left) && q.left == 0)
  {
    OneMorePut(cfg, folder, ps, i, p0.store);
  }

  lemma {:induction false} WriteFromReaches(cfg: Settings, folder: string, ps: seq<Pending>, i: nat, p0: Progress, p: Progress)
    requires i <= |ps| && Reached(cfg, folder, ps, i, p0, p)
    ensures var ws, end := Puts(cfg, folder, ps), WriteFrom(cfg, folder, ps, i, p);
      && (end.ok <==> p0.left >= |ws|)
      && end.store == Made(p0.store, ws, p0.left)
      && end.left == (if end.ok then p0.left - |ws| else 0)
      && (end.ok ==> end.written == p0.written + |ws| && end.skipped == p0.skipped + RefusedKeys(cfg, ps))
    decreases |ps| - i
  {
    if i == |ps| {
      assert ps[..i] == ps;
    } else {
      ReachesNext(cfg, folder, ps, i, p0, p);
      var q := WriteStep(cfg, folder, ps[i], p);
      if q.ok {
        WriteFromReaches(cfg, folder, ps, i + 1, p0, q);
      } else {
        assert WriteFrom(cfg, folder, ps, i + 1, q) == q;
      }
    }
  }

  class Migration {
    const cfg: Settings
    var secrets: map<(string, string), string>
    var checkpoints: map<string, Checkpoint>
    var folders: set<string>
    var left: nat
    var migrated: nat
    var updated: nat
    var resumed: nat
    var skippedKeys: seq<string>
    var unattached: seq<string>

    constructor (cfg: Settings, store: Store, left: nat)
      ensures this.cfg == cfg && Contents() == store && this.left == left
      ensures migrated == updated == resumed == 0 && skippedKeys == [] && unattached == []
    {
      this.cfg := cfg;
      secrets, checkpoints, folders := store.secrets, store.checkpoints, store.folders;
      this.left := left;
      migrated, updated, resumed, skippedKeys, unattached := 0, 0, 0, [], [];
    }

    function Contents(): Store
      reads this
    {
      Store(secrets, checkpoints, folders)
    }

    function Now(): Progress
      reads this
    {
      Progress(Contents(), left, migrated + updated, skippedKeys, true)
    }

    // Every row is counted once: created, updated in place, or named as skipped.
    function Counted(): nat
      reads this
    {
      migrated + updated + |skippedKeys|
    }

    method MarkCheckpoint(site: string, done: bool) returns (ok: bool)
      modifies this`checkpoints, this`left
      ensures ok <==> old(left) > 0
      ensures left == if ok then old(left) - 1 else old(left)
      ensures Contents() == if ok then Apply(old(Contents()), Mark(site, Checkpoint(cfg.mode, done))) else old(Contents())
    {
      ok := left > 0;
      if ok {
        checkpoints, left := checkpoints[site := Checkpoint(cfg.mode, done)], left - 1;
      }
    }

    method MakeFolder(folder: string) returns (ok: bool)
      modifies this`folders, this`left
      ensures ok <==> old(left) > 0
      ensures left == if ok then old(left) - 1 else old(left)
      ensures Contents() == if ok then Apply(old(Contents()), EnsureFolder(folder)) else old(Contents())
    {
      ok := left > 0;
      if ok {
        folders, left := folders + {folder}, left - 1;
      }
    }

    // Creates the secret, or updates it in place when an earlier run already made it.
    method CreateOrUpdate(folder: string, key: string, value: string) returns (ok: bool)
      modifies this`secrets, this`left, this`migrated, this`updated
      ensures ok <==> old(left) > 0
      ensures left == if ok then old(left) - 1 else old(left)
      ensures Contents() == if ok then Apply(old(Contents()), Put(folder, key, value)) else old(Contents())
      ensures migrated + updated == old(migrated + updated) + (if ok then 1 else 0)
      ensures |secrets| == |old(secrets)| + migrated - old(migrated)
    {
      ok := left > 0;
      if ok {
        if (folder, key) in secrets {
          updated := updated + 1;
        } else {
          migrated := migrated + 1;
        }
        SizeAfterPut(secrets, (folder, key), value);
        secrets, left := secrets[(folder, key) := value], left - 1;
      }
    }

    // The validation phase: decrypts every runtime row and writes nothing.
    method Validate(rows: seq<LegacyRow>) returns (r: Option<seq<Pending>>)
      modifies this`skippedKeys
      ensures r.Some? <==> AllReadable(cfg, rows)
      ensures r.Some? ==> r.value == ToWrite(cfg, rows) && skippedKeys == old(skippedKeys) + BuildOnly(rows)
    {
      var pending: seq<Pending> := [];
      var i := 0;
      while i < |rows|
        invariant 0 <= i <= |rows|
        invariant AllReadable(cfg, rows[..i])
        invariant pending == ToWrite(cfg, rows[..i])
        invariant skippedKeys == old(skippedKeys) + BuildOnly(rows[..i])
      {
        assert rows[..i + 1][..i] == rows[..i];
        if !rows[i].runtime {
          skippedKeys := skippedKeys + [rows[i].key];
        } else {
          var value := cfg.decrypt(rows[i].encrypted);
          if value.None? {
            assert !Readable(cfg, rows[i]);
            return None;
          }
          pending := pending + [Pending(rows[i].key, value.value)];
        }
        assert Readable(cfg, rows[i]);
        i := i + 1;
      }
      assert rows[..i] == rows;
      return Some(pending);
    }

    // Stores one value, or reports its key when the store refuses it.
    method WriteOne(folder: string, p: Pending) returns (ok: bool)
      modifies this`secrets, this`left, this`migrated, this`updated, this`skippedKeys
      ensures Now().(ok := ok) == WriteStep(cfg, folder, p, old(Now()))
      ensures |secrets| == |old(secrets)| + migrated - old(migrated)
    {
      var slot := cfg.slot(p.key, p.value);
      if slot.None? {
        skippedKeys := skippedKeys + [p.key];
        return true;
      }
      ok := CreateOrUpdate(folder, slot.value, p.value);
    }

    // The write phase, value by value until done or cut off.
    method WriteAll(folder: string, ps: seq<Pending>) returns (ok: bool)
      modifies this`secrets, this`left, this`migrated, this`updated, this`skippedKeys
      ensures var ws := Puts(cfg, folder, ps);
        && (ok <==> old(left) >= |ws|)
        && Contents() == Made(old(Contents()), ws, old(left))
        && left == (if ok then old(left) - |ws| else 0)
      ensures ok ==> migrated + updated == old(migrated + updated) + |Puts(cfg, folder, ps)|
      ensures ok ==> skippedKeys == old(skippedKeys) + RefusedKeys(cfg, ps)
      ensures |secrets| == |old(secrets)| + migrated - old(migrated)
    {
      WriteFromReaches(cfg, folder, ps, 0, Now(), Now());
      ok := true;
      var i := 0;
      while i < |ps|
        invariant 0 <= i <= |ps| && ok
        invariant WriteFrom(cfg, folder, ps, i, Now()) == WriteFrom(cfg, folder, ps, 0, old(Now()))
        invariant |secrets| == |old(secrets)| + migrated - old(migrated)
      {
        ok := WriteOne(folder, ps[i]);
        if !ok {
          assert WriteFrom(cfg, folder, ps, i + 1, Now().(ok := false)) == Now().(ok := false);
          return;
        }
        i := i + 1;
      }
    }

    // The write phase between its two checkpoint marks.
    method WriteSite(id: string, folder: string, ps: seq<Pending>) returns (ok: bool)
      modifies this`secrets, this`checkpoints, this`folders, this`left, this`migrated, this`updated, this`skippedKeys
      ensures var ws := Framed(cfg, id, folder, Puts(cfg, folder, ps));
        && (ok <==> old(left) >= |ws|)
        && Contents() == Made(old(Contents()), ws, old(left))
        && left == (if ok then old(left) - |ws| else 0)
      ensures ok ==> migrated + updated == old(migrated + updated) + |Puts(cfg, folder, ps)|
      ensures ok ==> skippedKeys == old(skippedKeys) + RefusedKeys(cfg, ps)
      ensures |secrets| == |old(secrets)| + migrated - old(migrated)
    {
      FramedWrites(cfg, id, folder, Puts(cfg, folder, ps), Contents(), left);
      ok := MarkCheckpoint(id, false);
      if !ok { return; }
      ok := MakeFolder(folder);
      if !ok { return; }
      ok := WriteAll(folder, ps);
      if !ok { return; }
      ok := MarkCheckpoint(id, true);
    }

    // A site with rows and a project: validate all of it, then write.
    method MigrateAttached(id: string, rows: seq<LegacyRow>, folder: string) returns (r: Outcome)
      modifies this`secrets, this`checkpoints, this`folders, this`left, this`migrated, this`updated, this`skippedKeys
      ensures |secrets| == |old(secrets)| + migrated - old(migrated)
      ensures r == Undecryptable <==> !AllReadable(cfg, rows)
      ensures r == Undecryptable ==> Contents() == old(Contents()) && left == old(left)
      ensures AllReadable(cfg, rows) ==>
        var ws := AttachedWrites(cfg, id, folder, ToWrite(cfg, rows));
        && (r == Done <==> old(left) >= |ws|)
        && Contents() == Made(old(Contents()), ws, old(left))
        && (r == Done ==> left == old(left) - |ws|)
      ensures r == Done ==> Counted() == old(Counted()) + |rows|
    {
      var validated := Validate(rows);
      if validated.None? {
        return Undecryptable;
      }
      var ps := validated.value;
      RowsSplitByUse(cfg, rows);
      PendingSplitByFit(cfg, folder, ps);
      var ok;
      if ps == [] {
        OneWrite(Contents(), Mark(id, Checkpoint(cfg.mode, true)));
        ok := MarkCheckpoint(id, true);
      } else {
        ok := WriteSite(id, folder, ps);
      }
      return if ok then Done else Interrupted;
    }

    /** One site: nothing is written when a row fails validation; otherwise the writes made are a
        prefix of the site's writes, all of them unless the process was cut off. */
    method MigrateSite(site: Site) returns (r: Outcome)
      modifies this
      ensures resumed == old(resumed)
      ensures |secrets| == |old(secrets)| + migrated - old(migrated)
      ensures r == Undecryptable <==> Refused(cfg, site)
      ensures Refused(cfg, site) ==> Contents() == old(Contents()) && left == old(left)
      ensures !Refused(cfg, site) ==>
        && (r == Done <==> old(left) >= |SiteWrites(cfg, site)|)
        && Contents() == Made(old(Contents()), SiteWrites(cfg, site), old(left))
        && (r == Done ==> left == old(left) - |SiteWrites(cfg, site)|)
      ensures r == Done ==> Counted() == old(Counted()) + (if site.folder.Some? then |site.rows| else 0)
      ensures unattached == old(unattached)
        + if site.rows != [] && site.folder.None? then [site.id] else []
    {
      if site.rows == [] {
        OneWrite(Contents(), Mark(site.id, Checkpoint(cfg.mode, true)));
        var ok := MarkCheckpoint(site.id, true);
        return if ok then Done else Interrupted;
      }
      if site.folder.None? {
        unattached := unattached + [site.id];
        return Done;
      }
      r := MigrateAttached(site.id, site.rows, site.folder.value);
    }

    // Passes over a site whose checkpoint is done.
    method ResumeOrMigrate(site: Site) returns (r: Outcome)
      modifies this
      ensures |secrets| == |old(secrets)| + migrated - old(migrated)
      ensures IsDone(cfg, old(Contents()), site) ==>
        && r == Done && Contents() == old(Contents()) && left == old(left) && Counted() == old(Counted())
        && resumed == old(resumed) + 1 && unattached == old(unattached)
      ensures !IsDone(cfg, old(Contents()), site) ==>
        && (r == Undecryptable <==> Refused(cfg, site))
        && (Refused(cfg, site) ==> Contents() == old(Contents()))
        && resumed == old(resumed)
        && unattached == old(unattached) + if Unattached(site) then [site.id] else []
      ensures !IsDone(cfg, old(Contents()), site) && !Refused(cfg, site) ==>
        && (r == Done <==> old(left) >= |SiteWrites(cfg, site)|)
        && Contents() == Made(old(Contents()), SiteWrites(cfg, site), old(left))
        && (r == Done ==> left == old(left) - |SiteWrites(cfg, site)|
                          && Counted() == old(Counted()) + (if site.folder.Some? then |site.rows| else 0))
    {
      if site.id in checkpoints && checkpoints[site.id] == Checkpoint(cfg.mode, true) {
        resumed := resumed + 1;
        return Done;
      }
      r := MigrateSite(site);
    }

    /** A whole run: what it leaves is the run cut at the process's last write, an uncut run is the
        full run, and the report of a completed run counts every row of the attached sites it
        processed exactly once, `migrated` being the number of secrets that are new, and names the
        sites found done and those without a project. */
    method MigrateLegacyValues(sites: seq<Site>) returns (r: Outcome)
      modifies this
      ensures Contents() == CutRun(cfg, sites, old(Contents()), old(left))
      ensures r != Interrupted ==> FullRun(cfg, sites, old(Contents())) == RunResult(Contents(), r == Done)
      ensures r == Done ==> Counted() == RowsProcessed(cfg, sites, old(Contents()))
      ensures |secrets| == |old(secrets)| + migrated
      ensures r == Done && DistinctSites(sites) ==>
        && resumed == DoneSites(cfg, sites, old(Contents()))
        && unattached == UnattachedSites(cfg, sites, old(Contents()))
    {
      migrated, updated, resumed, skippedKeys, unattached := 0, 0, 0, [], [];
      var i := 0;
      while i < |sites|
        invariant 0 <= i <= |sites|
        invariant OnTrack(cfg, sites, old(Contents()), old(left), i, Contents(), left, Counted())
        invariant |secrets| == |old(secrets)| + migrated
        invariant Reports(cfg, sites, old(Contents()), i, Contents(), resumed, unattached)
      {
        NextReport(cfg, sites, old(Contents()), i, Contents(), resumed, unattached);
        NextSite(cfg, sites, old(Contents()), old(left), i, Contents(), left, Counted());
        var outcome := ResumeOrMigrate(sites[i]);
        if outcome != Done {
          return outcome;
        }
        i := i + 1;
      }
      return Done;
    }
  }

  // Continuing from site i with what has been done so far is the same as having started afresh.
  predicate OnTrack(cfg: Settings, sites: seq<Site>, s0: Store, n0: nat, i: nat, s: Store, n: nat, counted: nat)
    requires i <= |sites|
  {
    && CutRun(cfg, sites[i..], s, n) == CutRun(cfg, sites, s0, n0)
    && FullRun(cfg, sites[i..], s) == FullRun(cfg, sites, s0)
    && counted + RowsProcessed(cfg, sites[i..], s) == RowsProcessed(cfg, sites, s0)
  }

  lemma NextSite(cfg: Settings, sites: seq<Site>, s0: Store, n0: nat, i: nat, s: Store, n: nat, counted: nat)
    requires i < |sites| && OnTrack(cfg, sites, s0, n0, i, s, n, counted)
    ensures IsDone(cfg, s, sites[i]) ==> OnTrack(cfg, sites, s0, n0, i + 1, s, n, counted)
    ensures !IsDone(cfg, s, sites[i]) && Refused(cfg, sites[i]) ==>
      CutRun(cfg, sites, s0, n0) == s && FullRun(cfg, sites, s0) == RunResult(s, false)
    ensures !IsDone(cfg, s, sites[i]) && !Refused(cfg, sites[i]) ==>
      var ws := SiteWrites(cfg, sites[i]);
      && (n < |ws| ==> CutRun(cfg, sites, s0, n0) == Made(s, ws, n))
      && (n >= |ws| ==> OnTrack(cfg, sites, s0, n0, i + 1, Made(s, ws, n), n - |ws|,
                                counted + if sites[i].folder.Some? then |sites[i].rows| else 0))
  {
    assert sites[i..][1..] == sites[i + 1..];
  }

  lemma SizeAfterPut(m: map<(string, string), string>, k: (string, string), v: string)
    ensures |m[k := v]| == |m| + (if k in m then 0 else 1)
  {
    assert m[k := v].Keys == m.Keys + {k};
    assert |m| == |m.Keys| && |m[k := v]| == |m[k := v].Keys|;
    if k in m {
      assert m.Keys + {k} == m.Keys;
    }
  }

  lemma OneWrite(s: Store, w: Write)
    ensures ApplyAll(s, [w]) == Apply(s, w)
    ensures ApplyAll(s, [w][..0]) == s
  {
    assert [w][..0] == [];
  }

  function Framed(cfg: Settings, id: string, folder: string, puts: seq<Write>): seq<Write> {
    [Mark(id, Checkpoint(cfg.mode, false)), EnsureFolder(folder)] + puts + [Mark(id, Checkpoint(cfg.mode, true))]
  }

  function AttachedWrites(cfg: Settings, id: string, folder: string, ps: seq<Pending>): seq<Write> {
    if ps == [] then [Mark(id, Checkpoint(cfg.mode, true))] else Framed(cfg, id, folder, Puts(cfg, folder, ps))
  }

  // The writes of a site, made one after another, up to the n-th.
  lemma FramedWrites(cfg: Settings, id: string, folder: string, puts: seq<Write>, s: Store, n: nat)
    ensures var ws := Framed(cfg, id, folder, puts);
      var s1 := Apply(s, Mark(id, Checkpoint(cfg.mode, false)));
      var s2 := Apply(s1, EnsureFolder(folder));
      && |ws| == |puts| + 3
      && (n == 0 ==> Made(s, ws, n) == s)
      && (n == 1 ==> Made(s, ws, n) == s1)
      && (2 <= n < |puts| + 3 ==> Made(s, ws, n) == Made(s2, puts, n - 2))
      && (n >= |puts| + 3 ==> Made(s, ws, n) == Apply(ApplyAll(s2, puts), Mark(id, Checkpoint(cfg.mode, true))))
  {
    var begin, make := Mark(id, Checkpoint(cfg.mode, false)), EnsureFolder(folder);
    TwoWrites(s, begin, make);
    FrameParts(begin, make, puts, Mark(id, Checkpoint(cfg.mode, true)), s, n);
  }

  lemma TwoWrites(s: Store, a: Write, b: Write)
    ensures ApplyAll(s, [a]) == Apply(s, a) && ApplyAll(s, [a, b]) == Apply(Apply(s, a), b)
  {
    OneWrite(s, a);
    OneWrite(Apply(s, a), b);
    assert [a, b] == [a] + [b];
    ApplyAllAppend(s, [a], [b]);
  }

  lemma FrameParts(a: Write, b: Write, puts: seq<Write>, z: Write, s: Store, n: nat)
    ensures var ws := [a, b] + puts + [z];
      && |ws| == |puts| + 3
      && (n == 0 ==> Made(s, ws, n) == s)
      && (n == 1 ==> Made(s, ws, n) == ApplyAll(s, [a]))
      && (2 <= n < |puts| + 3 ==> Made(s, ws, n) == Made(ApplyAll(s, [a, b]), puts, n - 2))
      && (n >= |puts| + 3 ==> Made(s, ws, n) == Apply(ApplyAll(ApplyAll(s, [a, b]), puts), z))
  {
    var ws := [a, b] + puts + [z];
    if n == 0 {
      assert ws[..0] == [];
    } else if n == 1 {
      assert ws[..1] == [a];
    } else if n < |puts| + 3 {
      assert ws[..n] == [a, b] + puts[..n - 2];
      ApplyAllAppend(s, [a, b], puts[..n - 2]);
      assert puts[..|puts|] == puts;
    } else {
      ApplyAllAppend(s, [a, b], puts);
      assert ws[..|ws| - 1] == [a, b] + puts;
    }
  }
}
