/**
  Resumable migration of legacy site variables into native project secrets.

  A run walks the sites in order, skips those whose checkpoint is done for its mode, validates a
  site as a whole before writing anything, and then writes: checkpoint in progress, folder, one
  secret per key, checkpoint done.  A run may be cut after any write.  Decryption under the declared
  mode and the store's key/value validation are inputs.
 */
module LegacyMigration {
  import opened Common

  datatype LegacyRow = LegacyRow(key: string, encrypted: string, runtime: bool)

  // `folder` names the project environment a site is attached to, if any.
  datatype Site = Site(id: string, rows: seq<LegacyRow>, folder: Option<string>)

  datatype Checkpoint = Checkpoint(mode: string, done: bool)

  datatype Store = Store(
    secrets: map<(string, string), string>,
    checkpoints: map<string, Checkpoint>,
    folders: set<string>)

  // `slot` gives the key under which the store accepts a value, or None if it refuses the pair.
  datatype Settings = Settings(
    mode: string,
    decrypt: string -> Option<string>,
    slot: (string, string) -> Option<string>)

  datatype Write =
    | Mark(site: string, checkpoint: Checkpoint)
    | EnsureFolder(folder: string)
    | Put(folder: string, key: string, value: string)

  function Apply(s: Store, w: Write): Store {
    match w
    case Mark(site, c) => s.(checkpoints := s.checkpoints[site := c])
    case EnsureFolder(f) => s.(folders := s.folders + {f})
    case Put(f, key, value) => s.(secrets := s.secrets[(f, key) := value])
  }

  function ApplyAll(s: Store, ws: seq<Write>): Store {
    if ws == [] then s else Apply(ApplyAll(s, ws[..|ws| - 1]), ws[|ws| - 1])
  }

  // ---- What one site contributes -------------------------------------------------------------------

  predicate Readable(cfg: Settings, row: LegacyRow) {
    row.runtime ==> cfg.decrypt(row.encrypted).Some?
  }

  predicate AllReadable(cfg: Settings, rows: seq<LegacyRow>) {
    forall k :: 0 <= k < |rows| ==> Readable(cfg, rows[k])
  }

  datatype Pending = Pending(key: string, value: string)

  // The values to move: build-only rows stay in the legacy store.
  function ToWrite(cfg: Settings, rows: seq<LegacyRow>): seq<Pending>
    requires AllReadable(cfg, rows)
  {
    if rows == [] then []
    else
      var n := |rows| - 1;
      assert Readable(cfg, rows[n]);
      ToWrite(cfg, rows[..n])
        + (if rows[n].runtime then [Pending(rows[n].key, cfg.decrypt(rows[n].encrypted).value)] else [])
  }

  // Values the store refuses are reported, not written.
  function Puts(cfg: Settings, folder: string, ps: seq<Pending>): seq<Write> {
    if ps == [] then []
    else
      var n := |ps| - 1;
      var slot := cfg.slot(ps[n].key, ps[n].value);
      Puts(cfg, folder, ps[..n]) + (if slot.Some? then [Put(folder, slot.value, ps[n].value)] else [])
  }

  // A site whose validation stops the run.
  predicate Refused(cfg: Settings, site: Site) {
    site.folder.Some? && !AllReadable(cfg, site.rows)
  }

  function SiteWrites(cfg: Settings, site: Site): seq<Write>
    requires !Refused(cfg, site)
  {
    var done := [Mark(site.id, Checkpoint(cfg.mode, true))];
    if site.rows == [] then done
    else if site.folder.None? then []
    else
      var ps := ToWrite(cfg, site.rows);
      if ps == [] then done
      else
        [Mark(site.id, Checkpoint(cfg.mode, false)), EnsureFolder(site.folder.value)]
          + Puts(cfg, site.folder.value, ps) + done
  }

  predicate IsDone(cfg: Settings, s: Store, site: Site) {
    site.id in s.checkpoints && s.checkpoints[site.id] == Checkpoint(cfg.mode, true)
  }

  // ---- Runs -----------------------------------------------------------------------------------------

  datatype RunResult = RunResult(store: Store, completed: bool)

  // An uninterrupted run.
  function FullRun(cfg: Settings, sites: seq<Site>, s: Store): RunResult {
    if sites == [] then RunResult(s, true)
    else if IsDone(cfg, s, sites[0]) then FullRun(cfg, sites[1..], s)
    else if Refused(cfg, sites[0]) then RunResult(s, false)
    else FullRun(cfg, sites[1..], ApplyAll(s, SiteWrites(cfg, sites[0])))
  }

  // A run cut off after n writes.
  function CutRun(cfg: Settings, sites: seq<Site>, s: Store, n: nat): Store {
    if sites == [] then s
    else if IsDone(cfg, s, sites[0]) then CutRun(cfg, sites[1..], s, n)
    else if Refused(cfg, sites[0]) then s
    else
      var ws := SiteWrites(cfg, sites[0]);
      if n < |ws| then ApplyAll(s, ws[..n])
      else CutRun(cfg, sites[1..], ApplyAll(s, ws), n - |ws|)
  }

  function CutRuns(cfg: Settings, sites: seq<Site>, s: Store, cuts: seq<nat>): Store {
    if cuts == [] then s
    else CutRun(cfg, sites, CutRuns(cfg, sites, s, cuts[..|cuts| - 1]), cuts[|cuts| - 1])
  }

  predicate DistinctSites(sites: seq<Site>) {
    forall i, j :: 0 <= i < j < |sites| ==> sites[i].id != sites[j].id
  }

  // ---- Effects of writes --------------------------------------------------------------------------------

  // Every checkpoint mark among the writes is for this site.
  predicate MarksOnly(ws: seq<Write>, id: string) {
    forall k :: 0 <= k < |ws| ==> ws[k].Mark? ==> ws[k].site == id
  }

  lemma {:induction false} OtherCheckpointsStay(s: Store, ws: seq<Write>, id: string, other: string)
    requires MarksOnly(ws, id) && other != id
    ensures other in ApplyAll(s, ws).checkpoints <==> other in s.checkpoints
    ensures other in s.checkpoints ==> ApplyAll(s, ws).checkpoints[other] == s.checkpoints[other]
  {
    if ws != [] {
      OtherCheckpointsStay(s, ws[..|ws| - 1], id, other);
    }
  }

  predicate NoMarks(ws: seq<Write>) {
    forall k :: 0 <= k < |ws| ==> !ws[k].Mark?
  }

  lemma {:induction false} PutsMarkNothing(cfg: Settings, folder: string, ps: seq<Pending>)
    ensures NoMarks(Puts(cfg, folder, ps))
  {
    if ps != [] {
      PutsMarkNothing(cfg, folder, ps[..|ps| - 1]);
    }
  }

  lemma SiteMarksOnlyItself(cfg: Settings, site: Site)
    requires !Refused(cfg, site)
    ensures MarksOnly(SiteWrites(cfg, site), site.id)
  {
    if site.folder.Some? {
      PutsMarkNothing(cfg, site.folder.value, ToWrite(cfg, site.rows));
    }
  }

  // The site is marked done by its last write and by no earlier one.
  lemma MarkedDoneAtTheEnd(cfg: Settings, site: Site, s: Store, n: nat)
    requires !Refused(cfg, site) && !IsDone(cfg, s, site) && n <= |SiteWrites(cfg, site)|
    ensures var ws := SiteWrites(cfg, site);
      IsDone(cfg, ApplyAll(s, ws[..n]), site) <==> n == |ws| && ws != []
  {
    var ws := SiteWrites(cfg, site);
    if n == |ws| {
      assert ws[..n] == ws;
    } else {
      if site.folder.Some? {
        PutsMarkNothing(cfg, site.folder.value, ToWrite(cfg, site.rows));
      }
      NotDoneYet(cfg, site, s, ws[..n]);
    }
  }

  lemma {:induction false} NotDoneYet(cfg: Settings, site: Site, s: Store, ws: seq<Write>)
    requires !IsDone(cfg, s, site)
    requires forall k :: 0 <= k < |ws| && ws[k].Mark? ==> !ws[k].checkpoint.done
    ensures !IsDone(cfg, ApplyAll(s, ws), site)
  {
    if ws != [] {
      NotDoneYet(cfg, site, s, ws[..|ws| - 1]);
    }
  }

  function Get(s: Store, k: (string, string)): Option<string> {
    if k in s.secrets then Some(s.secrets[k]) else None
  }

  // The value the writes leave under k, if they write k at all.
  function LastPut(ws: seq<Write>, k: (string, string)): Option<string> {
    if ws == [] then None
    else
      var w := ws[|ws| - 1];
      if w.Put? && (w.folder, w.key) == k then Some(w.value) else LastPut(ws[..|ws| - 1], k)
  }

  lemma {:induction false} GetAfter(s: Store, ws: seq<Write>, k: (string, string))
    ensures Get(ApplyAll(s, ws), k) == if LastPut(ws, k).Some? then LastPut(ws, k) else Get(s, k)
  {
    if ws != [] {
      GetAfter(s, ws[..|ws| - 1], k);
    }
  }

  lemma {:induction false} PrefixPutsLess(ws: seq<Write>, n: nat, k: (string, string))
    requires n <= |ws| && LastPut(ws, k).None?
    ensures LastPut(ws[..n], k).None?
    decreases |ws|
  {
    if n == |ws| {
      assert ws[..n] == ws;
    } else {
      assert ws[..|ws| - 1][..n] == ws[..n];
      PrefixPutsLess(ws[..|ws| - 1], n, k);
    }
  }

  lemma SameSecrets(a: Store, b: Store)
    requires forall k :: Get(a, k) == Get(b, k)
    ensures a.secrets == b.secrets
  {
    forall k ensures k in a.secrets <==> k in b.secrets {
      assert Get(a, k) == Get(b, k);
    }
    forall k | k in a.secrets ensures a.secrets[k] == b.secrets[k] {
      assert Get(a, k) == Get(b, k);
    }
  }

  // Redoing a site's writes after a part of them was already made leaves the same secrets.
  lemma RedoIsHarmless(s: Store, ws: seq<Write>, n: nat)
    requires n <= |ws|
    ensures ApplyAll(ApplyAll(s, ws[..n]), ws).secrets == ApplyAll(s, ws).secrets
  {
    var a, b := ApplyAll(ApplyAll(s, ws[..n]), ws), ApplyAll(s, ws);
    forall k ensures Get(a, k) == Get(b, k) {
      GetAfter(ApplyAll(s, ws[..n]), ws, k);
      GetAfter(s, ws, k);
      GetAfter(s, ws[..n], k);
      if LastPut(ws, k).None? { PrefixPutsLess(ws, n, k); }
    }
    SameSecrets(a, b);
  }

  lemma SameWritesSameSecrets(a: Store, b: Store, ws: seq<Write>)
    requires a.secrets == b.secrets
    ensures ApplyAll(a, ws).secrets == ApplyAll(b, ws).secrets
  {
    forall k ensures Get(ApplyAll(a, ws), k) == Get(ApplyAll(b, ws), k) {
      GetAfter(a, ws, k);
      GetAfter(b, ws, k);
    }
    SameSecrets(ApplyAll(a, ws), ApplyAll(b, ws));
  }

  // ---- Runs depend only on the secrets and on which of their sites are done ---------------------------------

  // Sites with rows and no project are reported and left alone.
  predicate Unattached(site: Site) { site.rows != [] && site.folder.None? }

  predicate Alike(cfg: Settings, sites: seq<Site>, a: Store, b: Store) {
    && a.secrets == b.secrets
    && forall i :: 0 <= i < |sites| ==>
      Unattached(sites[i]) || (IsDone(cfg, a, sites[i]) <==> IsDone(cfg, b, sites[i]))
  }

  // The writes of a site leave the other sites' checkpoints alone.
  lemma OthersStayDone(cfg: Settings, site: Site, sites: seq<Site>, s: Store, ws: seq<Write>)
    requires MarksOnly(ws, site.id)
    requires forall i :: 0 <= i < |sites| ==> sites[i].id != site.id
    ensures forall i :: 0 <= i < |sites| ==> (IsDone(cfg, ApplyAll(s, ws), sites[i]) <==> IsDone(cfg, s, sites[i]))
  {
    forall i | 0 <= i < |sites| ensures IsDone(cfg, ApplyAll(s, ws), sites[i]) <==> IsDone(cfg, s, sites[i]) {
      OtherCheckpointsStay(s, ws, site.id, sites[i].id);
    }
  }

  lemma {:induction false} AlikeRunsAgree(cfg: Settings, sites: seq<Site>, a: Store, b: Store)
    requires DistinctSites(sites) && Alike(cfg, sites, a, b)
    ensures FullRun(cfg, sites, a).completed == FullRun(cfg, sites, b).completed
    ensures FullRun(cfg, sites, a).store.secrets == FullRun(cfg, sites, b).store.secrets
  {
    if sites != [] {
      var site, rest := sites[0], sites[1..];
      assert Unattached(site) || (IsDone(cfg, a, site) <==> IsDone(cfg, b, site));
      if Unattached(site) || IsDone(cfg, a, site) {
        AlikeRunsAgree(cfg, rest, a, b);
      } else if !Refused(cfg, site) {
        var ws := SiteWrites(cfg, site);
        SiteMarksOnlyItself(cfg, site);
        SameWritesSameSecrets(a, b, ws);
        OthersStayDone(cfg, site, rest, a, ws);
        OthersStayDone(cfg, site, rest, b, ws);
        AlikeRunsAgree(cfg, rest, ApplyAll(a, ws), ApplyAll(b, ws));
      }
    }
  }

  // A cut run leaves the checkpoints of all other sites alone.
  lemma {:induction false} CutKeepsOthers(cfg: Settings, sites: seq<Site>, s: Store, n: nat, site: Site)
    requires forall i :: 0 <= i < |sites| ==> sites[i].id != site.id
    ensures IsDone(cfg, CutRun(cfg, sites, s, n), site) <==> IsDone(cfg, s, site)
  {
    if sites != [] {
      var first, rest := sites[0], sites[1..];
      if IsDone(cfg, s, first) {
        CutKeepsOthers(cfg, rest, s, n, site);
      } else if !Refused(cfg, first) {
        var ws := SiteWrites(cfg, first);
        SiteMarksOnlyItself(cfg, first);
        OtherCheckpointsStay(s, ws, first.id, site.id);
        if n < |ws| {
          OtherCheckpointsStay(s, ws[..n], first.id, site.id);
        } else {
          CutKeepsOthers(cfg, rest, ApplyAll(s, ws), n - |ws|, site);
        }
      }
    }
  }

  // A run after a run that was cut inside (or right before) the first pending site.
  lemma ResumeInsideSite(cfg: Settings, sites: seq<Site>, s: Store, n: nat)
    requires sites != [] && DistinctSites(sites) && !IsDone(cfg, s, sites[0]) && !Refused(cfg, sites[0])
    requires n < |SiteWrites(cfg, sites[0])|
    ensures var t := ApplyAll(s, SiteWrites(cfg, sites[0])[..n]);
      && FullRun(cfg, sites, t).completed == FullRun(cfg, sites, s).completed
      && FullRun(cfg, sites, t).store.secrets == FullRun(cfg, sites, s).store.secrets
  {
    var site, rest := sites[0], sites[1..];
    var ws := SiteWrites(cfg, site);
    var t := ApplyAll(s, ws[..n]);
    MarkedDoneAtTheEnd(cfg, site, s, n);
    SiteMarksOnlyItself(cfg, site);
    RedoIsHarmless(s, ws, n);
    OthersStayDone(cfg, site, rest, s, ws[..n]);
    OthersStayDone(cfg, site, rest, t, ws);
    OthersStayDone(cfg, site, rest, s, ws);
    AlikeRunsAgree(cfg, rest, ApplyAll(t, ws), ApplyAll(s, ws));
  }

  lemma {:induction false} ResumeAfterCut(cfg: Settings, sites: seq<Site>, s: Store, n: nat)
    requires DistinctSites(sites)
    ensures FullRun(cfg, sites, CutRun(cfg, sites, s, n)).completed == FullRun(cfg, sites, s).completed
    ensures FullRun(cfg, sites, CutRun(cfg, sites, s, n)).store.secrets == FullRun(cfg, sites, s).store.secrets
  {
    if sites != [] {
      var site, rest := sites[0], sites[1..];
      if IsDone(cfg, s, site) {
        CutKeepsOthers(cfg, rest, s, n, site);
        ResumeAfterCut(cfg, rest, s, n);
      } else if !Refused(cfg, site) {
        var ws := SiteWrites(cfg, site);
        if n < |ws| {
          ResumeInsideSite(cfg, sites, s, n);
        } else {
          var s' := ApplyAll(s, ws);
          ResumeAfterCut(cfg, rest, s', n - |ws|);
          CutKeepsOthers(cfg, rest, s', n - |ws|, site);
          MarkedDoneAtTheEnd(cfg, site, s, |ws|);
          assert ws[..|ws|] == ws;
          if ws == [] {
            assert s' == s;
            assert ApplyAll(CutRun(cfg, rest, s, n), ws) == CutRun(cfg, rest, s, n);
          }
        }
      }
    }
  }

  /** Crash-resume equivalence: any number of runs cut at arbitrary writes, followed by one more run
      of the same mode over the same legacy rows, ends exactly like one uninterrupted run: it
      completes in the same cases and leaves the same secret values. */
  lemma {:induction false} CrashResumeEquivalence(cfg: Settings, sites: seq<Site>, s: Store, cuts: seq<nat>)
    requires DistinctSites(sites)
    ensures var resumed := FullRun(cfg, sites, CutRuns(cfg, sites, s, cuts));
      var once := FullRun(cfg, sites, s);
      resumed.completed == once.completed && resumed.store.secrets == once.store.secrets
  {
    if cuts != [] {
      var n := |cuts| - 1;
      CrashResumeEquivalence(cfg, sites, s, cuts[..n]);
      ResumeAfterCut(cfg, sites, CutRuns(cfg, sites, s, cuts[..n]), cuts[n]);
    }
  }

  // ---- What a completed run leaves -------------------------------------------------------------------------

  // The row has a value that the store takes in slot.
  predicate Goes(cfg: Settings, row: LegacyRow, slot: string) {
    && row.runtime && cfg.decrypt(row.encrypted).Some?
    && cfg.slot(row.key, cfg.decrypt(row.encrypted).value) == Some(slot)
  }

  predicate Supplies(cfg: Settings, row: LegacyRow, slot: string, v: string) {
    Goes(cfg, row, slot) && cfg.decrypt(row.encrypted).value == v
  }

  ghost predicate SiteSupplies(cfg: Settings, site: Site, k: (string, string), v: string) {
    site.folder == Some(k.0) && exists r :: 0 <= r < |site.rows| && Supplies(cfg, site.rows[r], k.1, v)
  }

  // Some site that is not yet done supplies v for k.
  ghost predicate Supplied(cfg: Settings, sites: seq<Site>, s: Store, k: (string, string), v: string) {
    exists i :: 0 <= i < |sites| && !IsDone(cfg, s, sites[i]) && SiteSupplies(cfg, sites[i], k, v)
  }

  // The last of the first n rows that goes to slot, or -1.
  function LastGoing(cfg: Settings, rows: seq<LegacyRow>, slot: string, n: nat): (i: int)
    requires n <= |rows|
    ensures -1 <= i < n && (i >= 0 ==> Goes(cfg, rows[i], slot))
    ensures forall r :: i < r < n ==> !Goes(cfg, rows[r], slot)
  {
    if n == 0 then -1 else if Goes(cfg, rows[n - 1], slot) then n - 1 else LastGoing(cfg, rows, slot, n - 1)
  }

  // The value the first n rows leave in slot, if any of them goes there: that of the last one.
  function LastSupply(cfg: Settings, rows: seq<LegacyRow>, slot: string, n: nat): Option<string>
    requires n <= |rows|
  {
    var i := LastGoing(cfg, rows, slot, n);
    if i < 0 then None else cfg.decrypt(rows[i].encrypted)
  }

  // A site supplies a value for k exactly when some row is the last to do so.
  lemma SiteSuppliesLast(cfg: Settings, site: Site, k: (string, string))
    requires site.folder == Some(k.0)
    ensures var last := LastSupply(cfg, site.rows, k.1, |site.rows|);
      if last.Some? then SiteSupplies(cfg, site, k, last.value) else forall v :: !SiteSupplies(cfg, site, k, v)
  {
    var i := LastGoing(cfg, site.rows, k.1, |site.rows|);
    if i >= 0 {
      assert Supplies(cfg, site.rows[i], k.1, cfg.decrypt(site.rows[i].encrypted).value);
    }
  }

  lemma {:induction false} PutsLeaveLastSupply(cfg: Settings, folder: string, rows: seq<LegacyRow>, n: nat, k: (string, string))
    requires AllReadable(cfg, rows) && n <= |rows|
    ensures LastPut(Puts(cfg, folder, ToWrite(cfg, rows[..n])), k) == if k.0 == folder then LastSupply(cfg, rows, k.1, n) else None
  {
    if n > 0 {
      PutsLeaveLastSupply(cfg, folder, rows, n - 1, k);
      assert rows[..n][..n - 1] == rows[..n - 1];
      var row := rows[n - 1];
      assert Readable(cfg, row);
      if row.runtime {
        PutsSnoc(cfg, folder, ToWrite(cfg, rows[..n - 1]), Pending(row.key, cfg.decrypt(row.encrypted).value), k);
      } else {
        assert ToWrite(cfg, rows[..n]) == ToWrite(cfg, rows[..n - 1]);
      }
    }
  }

  lemma PutsSnoc(cfg: Settings, folder: string, ps: seq<Pending>, p: Pending, k: (string, string))
    ensures LastPut(Puts(cfg, folder, ps + [p]), k) ==
      if k.0 == folder && cfg.slot(p.key, p.value) == Some(k.1) then Some(p.value) else LastPut(Puts(cfg, folder, ps), k)
  {
    assert (ps + [p])[..|ps|] == ps;
    var before, after := Puts(cfg, folder, ps), Puts(cfg, folder, ps + [p]);
    if cfg.slot(p.key, p.value).Some? {
      assert after[..|after| - 1] == before;
    } else {
      assert after == before;
    }
  }

  lemma {:induction false} LastPutAppend(a: seq<Write>, b: seq<Write>, k: (string, string))
    ensures LastPut(a + b, k) == if LastPut(b, k).Some? then LastPut(b, k) else LastPut(a, k)
  {
    if b == [] {
      assert a + b == a;
    } else {
      assert (a + b)[..|a + b| - 1] == a + b[..|b| - 1];
      LastPutAppend(a, b[..|b| - 1], k);
    }
  }

  // A site's writes leave under k the value its rows supply for k, and touch nothing else.
  lemma SiteLeavesItsValues(cfg: Settings, site: Site, k: (string, string))
    requires !Refused(cfg, site)
    ensures LastPut(SiteWrites(cfg, site), k)
         == if site.folder == Some(k.0) then LastSupply(cfg, site.rows, k.1, |site.rows|) else None
  {
    var done := [Mark(site.id, Checkpoint(cfg.mode, true))];
    assert done[..0] == [];
    if site.rows != [] && site.folder.Some? {
      var folder, ps := site.folder.value, ToWrite(cfg, site.rows);
      PutsLeaveLastSupply(cfg, folder, site.rows, |site.rows|, k);
      assert site.rows[..|site.rows|] == site.rows;
      var begin := [Mark(site.id, Checkpoint(cfg.mode, false)), EnsureFolder(folder)];
      assert begin[..1][..0] == [];
      LastPutAppend(begin, Puts(cfg, folder, ps), k);
      LastPutAppend(begin + Puts(cfg, folder, ps), done, k);
    }
  }

  // What a completed run may leave under k.
  ghost predicate Explained(cfg: Settings, sites: seq<Site>, s: Store, t: Store, k: (string, string)) {
    || (Get(t, k) == Get(s, k) && forall v :: !Supplied(cfg, sites, s, k, v))
    || (Get(t, k).Some? && Supplied(cfg, sites, s, k, Get(t, k).value))
  }

  lemma SuppliedByRest(cfg: Settings, sites: seq<Site>, s: Store, s': Store, k: (string, string), v: string)
    requires sites != []
    requires forall i :: 1 <= i < |sites| ==> (IsDone(cfg, s', sites[i]) <==> IsDone(cfg, s, sites[i]))
    ensures Supplied(cfg, sites, s, k, v) <==>
      (!IsDone(cfg, s, sites[0]) && SiteSupplies(cfg, sites[0], k, v)) || Supplied(cfg, sites[1..], s', k, v)
  {
    var rest := sites[1..];
    if Supplied(cfg, sites, s, k, v) {
      var i :| 0 <= i < |sites| && !IsDone(cfg, s, sites[i]) && SiteSupplies(cfg, sites[i], k, v);
      if i > 0 { assert rest[i - 1] == sites[i]; }
    }
    if Supplied(cfg, rest, s', k, v) {
      var i :| 0 <= i < |rest| && !IsDone(cfg, s', rest[i]) && SiteSupplies(cfg, rest[i], k, v);
      assert sites[i + 1] == rest[i];
    }
  }

  // One site followed by the rest of the run.
  lemma ExplainStep(cfg: Settings, sites: seq<Site>, s: Store, s': Store, t: Store, k: (string, string))
    requires sites != [] && Explained(cfg, sites[1..], s', t, k)
    requires forall i :: 1 <= i < |sites| ==> (IsDone(cfg, s', sites[i]) <==> IsDone(cfg, s, sites[i]))
    requires if IsDone(cfg, s, sites[0]) then s' == s
      else
        || (Get(s', k) == Get(s, k) && forall v :: !SiteSupplies(cfg, sites[0], k, v))
        || (Get(s', k).Some? && SiteSupplies(cfg, sites[0], k, Get(s', k).value))
    ensures Explained(cfg, sites, s, t, k)
  {
    forall v ensures Supplied(cfg, sites, s, k, v) <==>
      (!IsDone(cfg, s, sites[0]) && SiteSupplies(cfg, sites[0], k, v)) || Supplied(cfg, sites[1..], s', k, v)
    {
      SuppliedByRest(cfg, sites, s, s', k, v);
    }
  }

  /** A run that completes has moved every legacy value and invented none: a secret for which some
      pending site has a storable runtime value now holds such a value, decrypted, and every other
      secret is as before. */
  lemma {:induction false} CompletedRunMigrates(cfg: Settings, sites: seq<Site>, s: Store, k: (string, string))
    requires DistinctSites(sites) && FullRun(cfg, sites, s).completed
    ensures Explained(cfg, sites, s, FullRun(cfg, sites, s).store, k)
  {
    if sites != [] {
      var site, rest := sites[0], sites[1..];
      var t := FullRun(cfg, sites, s).store;
      if IsDone(cfg, s, site) {
        CompletedRunMigrates(cfg, rest, s, k);
        ExplainStep(cfg, sites, s, s, t, k);
      } else {
        var ws := SiteWrites(cfg, site);
        var s' := ApplyAll(s, ws);
        CompletedRunMigrates(cfg, rest, s', k);
        SiteMarksOnlyItself(cfg, site);
        OthersStayDone(cfg, site, rest, s, ws);
        assert forall i :: 1 <= i < |sites| ==> sites[i] == rest[i - 1];
        SiteLeavesItsValues(cfg, site, k);
        if site.folder == Some(k.0) { SiteSuppliesLast(cfg, site, k); }
        GetAfter(s, ws, k);
        ExplainStep(cfg, sites, s, s', t, k);
      }
    }
  }

  // ---- Values the store refuses ----------------------------------------------------------------------------

  // A full run leaves the checkpoints of all other sites alone.
  lemma {:induction false} FullKeepsOthers(cfg: Settings, sites: seq<Site>, s: Store, site: Site)
    requires forall i :: 0 <= i < |sites| ==> sites[i].id != site.id
    ensures IsDone(cfg, FullRun(cfg, sites, s).store, site) <==> IsDone(cfg, s, site)
  {
    if sites != [] {
      var first, rest := sites[0], sites[1..];
      if IsDone(cfg, s, first) {
        FullKeepsOthers(cfg, rest, s, site);
      } else if !Refused(cfg, first) {
        var ws := SiteWrites(cfg, first);
        SiteMarksOnlyItself(cfg, first);
        OtherCheckpointsStay(s, ws, first.id, site.id);
        FullKeepsOthers(cfg, rest, ApplyAll(s, ws), site);
      }
    }
  }

  lemma {:induction false} CompletedRunFinishesSites(cfg: Settings, sites: seq<Site>, s: Store, i: nat)
    requires DistinctSites(sites) && FullRun(cfg, sites, s).completed && i < |sites|
    ensures IsDone(cfg, FullRun(cfg, sites, s).store, sites[i]) || Unattached(sites[i])
  {
    var site, rest := sites[0], sites[1..];
    var s' := if IsDone(cfg, s, site) then s else ApplyAll(s, SiteWrites(cfg, site));
    if i > 0 {
      assert rest[i - 1] == sites[i];
      CompletedRunFinishesSites(cfg, rest, s', i - 1);
    } else {
      FullKeepsOthers(cfg, rest, s', site);
      if !IsDone(cfg, s, site) {
        var ws := SiteWrites(cfg, site);
        MarkedDoneAtTheEnd(cfg, site, s, |ws|);
        assert ws[..|ws|] == ws;
      }
    }
  }

  lemma {:induction false} NothingToDo(cfg: Settings, sites: seq<Site>, s: Store)
    requires forall i :: 0 <= i < |sites| ==> IsDone(cfg, s, sites[i]) || Unattached(sites[i])
    ensures FullRun(cfg, sites, s) == RunResult(s, true)
  {
    if sites != [] {
      NothingToDo(cfg, sites[1..], s);
      assert IsDone(cfg, s, sites[0]) || (Unattached(sites[0]) && SiteWrites(cfg, sites[0]) == []);
    }
  }

  /** Once a run has completed, another of the same mode changes nothing, whatever the store would now
      accept: a value is not tried again. */
  lemma RerunChangesNothing(cfg: Settings, again: Settings, sites: seq<Site>, s: Store)
    requires DistinctSites(sites) && again.mode == cfg.mode && FullRun(cfg, sites, s).completed
    ensures var t := FullRun(cfg, sites, s).store;
      FullRun(again, sites, t) == RunResult(t, true)
  {
    var t := FullRun(cfg, sites, s).store;
    forall i | 0 <= i < |sites| ensures IsDone(again, t, sites[i]) || Unattached(sites[i]) {
      CompletedRunFinishesSites(cfg, sites, s, i);
    }
    NothingToDo(again, sites, t);
  }

  /** Checkpoints belong to a mode: after a completed run, a run of another mode does what it would do
      had no site been migrated at all. */
  lemma OtherModeStartsOver(cfg: Settings, other: Settings, sites: seq<Site>, s: Store)
    requires DistinctSites(sites) && other.mode != cfg.mode && FullRun(cfg, sites, s).completed
    ensures var t := FullRun(cfg, sites, s).store;
      var again, afresh := FullRun(other, sites, t), FullRun(other, sites, t.(checkpoints := map[]));
      again.completed == afresh.completed && again.store.secrets == afresh.store.secrets
  {
    var t := FullRun(cfg, sites, s).store;
    forall i | 0 <= i < |sites| ensures Unattached(sites[i]) || !IsDone(other, t, sites[i]) {
      CompletedRunFinishesSites(cfg, sites, s, i);
    }
    AlikeRunsAgree(other, sites, t, t.(checkpoints := map[]));
  }

  lemma {:induction false} MarksAreOfMode(cfg: Settings, other: Settings, site: Site, s: Store, ws: seq<Write>)
    requires other.mode != cfg.mode && ws != [] && ws[0].Mark? && ws[0].site == site.id
    requires forall k :: 0 <= k < |ws| && ws[k].Mark? ==> ws[k].checkpoint.mode == cfg.mode
    ensures !IsDone(other, ApplyAll(s, ws), site)
  {
    var n := |ws| - 1;
    if n == 0 {
      assert ws[..0] == [];
    } else {
      MarksAreOfMode(cfg, other, site, s, ws[..n]);
    }
  }

  /** A site a run has begun to write is no longer done for any other mode, wherever the run is cut: its
      secrets may by now be of both modes, and a run of either will redo it. */
  lemma BegunSiteIsRedone(cfg: Settings, other: Settings, site: Site, s: Store, n: nat)
    requires !Refused(cfg, site) && other.mode != cfg.mode && 1 <= n <= |SiteWrites(cfg, site)|
    ensures !IsDone(other, ApplyAll(s, SiteWrites(cfg, site)[..n]), site)
  {
    if site.folder.Some? {
      PutsMarkNothing(cfg, site.folder.value, ToWrite(cfg, site.rows));
    }
    MarksAreOfMode(cfg, other, site, s, SiteWrites(cfg, site)[..n]);
  }

  // Every secret lies in a folder that exists.
  ghost predicate Housed(s: Store) { forall k :: k in s.secrets ==> k.0 in s.folders }

  predicate PutsInto(ws: seq<Write>, folder: string) {
    forall k :: 0 <= k < |ws| && ws[k].Put? ==> ws[k].folder == folder
  }

  lemma {:induction false} WritesKeepHoused(s: Store, ws: seq<Write>, folder: string)
    requires Housed(s) && PutsInto(ws, folder) && folder in s.folders
    ensures Housed(ApplyAll(s, ws)) && folder in ApplyAll(s, ws).folders
  {
    if ws != [] { WritesKeepHoused(s, ws[..|ws| - 1], folder); }
  }

  lemma {:induction false} PutsGoInto(cfg: Settings, folder: string, ps: seq<Pending>)
    ensures PutsInto(Puts(cfg, folder, ps), folder)
  {
    if ps != [] { PutsGoInto(cfg, folder, ps[..|ps| - 1]); }
  }

  lemma {:induction false} MadeInTwo(s: Store, ws: seq<Write>, m: nat)
    requires m <= |ws|
    ensures ApplyAll(s, ws) == ApplyAll(ApplyAll(s, ws[..m]), ws[m..])
  {
    var n := |ws| - 1;
    if m == |ws| {
      assert ws[..m] == ws;
    } else {
      MadeInTwo(s, ws[..n], m);
      assert ws[..n][..m] == ws[..m] && ws[m..][..|ws[m..]| - 1] == ws[..n][m..];
    }
  }

  predicate NoPuts(ws: seq<Write>) { forall k :: 0 <= k < |ws| ==> !ws[k].Put? }

  lemma {:induction false} OthersKeepHoused(s: Store, ws: seq<Write>)
    requires Housed(s) && NoPuts(ws)
    ensures Housed(ApplyAll(s, ws))
  {
    if ws != [] { OthersKeepHoused(s, ws[..|ws| - 1]); }
  }

  // From the second write on the folder is there.
  lemma FolderComesFirst(s: Store, ws: seq<Write>, mark: Checkpoint, id: string, folder: string)
    requires Housed(s) && |ws| >= 2 && ws[..2] == [Mark(id, mark), EnsureFolder(folder)] && PutsInto(ws, folder)
    ensures Housed(ApplyAll(s, ws))
  {
    var begun := ws[..2];
    MadeInTwo(s, ws, 2);
    assert begun[..1] == [begun[0]] && NoPuts(begun);
    OthersKeepHoused(s, begun);
    assert folder in ApplyAll(s, begun).folders;
    WritesKeepHoused(ApplyAll(s, begun), ws[2..], folder);
  }

  lemma SiteKeepsHoused(cfg: Settings, site: Site, s: Store, n: nat)
    requires Housed(s) && !Refused(cfg, site) && n <= |SiteWrites(cfg, site)|
    ensures Housed(ApplyAll(s, SiteWrites(cfg, site)[..n]))
  {
    var ws := SiteWrites(cfg, site);
    if n <= 1 {
      assert NoPuts(ws[..n]);
      OthersKeepHoused(s, ws[..n]);
    } else {
      var folder, ps := site.folder.value, ToWrite(cfg, site.rows);
      PutsGoInto(cfg, folder, ps);
      assert ws[..2] == [Mark(site.id, Checkpoint(cfg.mode, false)), EnsureFolder(folder)];
      assert ws[..n][..2] == ws[..2];
      assert PutsInto(ws, folder);
      FolderComesFirst(s, ws[..n], Checkpoint(cfg.mode, false), site.id, folder);
    }
  }

  /** Wherever a run is cut, no secret is left in a folder that was not made. */
  lemma {:induction false} SecretsAreHoused(cfg: Settings, sites: seq<Site>, s: Store, n: nat)
    requires Housed(s)
    ensures Housed(CutRun(cfg, sites, s, n))
  {
    if sites != [] && !IsDone(cfg, s, sites[0]) && !Refused(cfg, sites[0]) {
      var ws := SiteWrites(cfg, sites[0]);
      SiteKeepsHoused(cfg, sites[0], s, if n < |ws| then n else |ws|);
      assert ws[..|ws|] == ws;
      if n >= |ws| { SecretsAreHoused(cfg, sites[1..], ApplyAll(s, ws), n - |ws|); }
    } else if sites != [] && IsDone(cfg, s, sites[0]) {
      SecretsAreHoused(cfg, sites[1..], s, n);
    }
  }

  /** A key for which the store took nothing while the run lasted keeps what it had, through that run and
      every rerun of its mode, whatever the store would take by then; so a key that was free has a value
      in the end if and only if the store took one during the first run. */
  lemma RefusedValueIsNotRetried(cfg: Settings, again: Settings, sites: seq<Site>, s: Store, k: (string, string))
    requires DistinctSites(sites) && again.mode == cfg.mode && FullRun(cfg, sites, s).completed
    ensures var t := FullRun(again, sites, FullRun(cfg, sites, s).store).store;
      && ((forall v :: !Supplied(cfg, sites, s, k, v)) ==> Get(t, k) == Get(s, k))
      && (k !in s.secrets ==> (k in t.secrets <==> exists v :: Supplied(cfg, sites, s, k, v)))
  {
    CompletedRunMigrates(cfg, sites, s, k);
    RerunChangesNothing(cfg, again, sites, s);
  }

  // One site with one value, and a store that refuses everything or takes every key as it is.
  const LONE_SITE := Site("s", [LegacyRow("K", "v", true)], Some("f"))

  const EMPTY_STORE := Store(map[], map[], {})

  function Taking(take: bool): Settings {
    Settings("m", (e: string) => Some(e), (key: string, value: string) => if take then Some(key) else None)
  }

  lemma LoneRun(take: bool)
    ensures var r := FullRun(Taking(take), [LONE_SITE], EMPTY_STORE);
      r.completed && (("f", "K") in r.store.secrets <==> take)
  {
    var cfg, site := Taking(take), LONE_SITE;
    assert AllReadable(cfg, site.rows);
    SiteLeavesItsValues(cfg, site, ("f", "K"));
    assert Goes(cfg, site.rows[0], "K") <==> take;
    GetAfter(EMPTY_STORE, SiteWrites(cfg, site), ("f", "K"));
    assert [site][1..] == [];
  }

  /** A store that refuses while the run lasts and would take the value later: the value is missing after
      the run and the rerun, and would be there had only the second been made. */
  lemma TransientRefusalLosesValue()
    ensures var k := ("f", "K");
      && k !in FullRun(Taking(true), [LONE_SITE], FullRun(Taking(false), [LONE_SITE], EMPTY_STORE).store).store.secrets
      && k in FullRun(Taking(true), [LONE_SITE], EMPTY_STORE).store.secrets
  {
    LoneRun(false);
    LoneRun(true);
    RerunChangesNothing(Taking(false), Taking(true), [LONE_SITE], EMPTY_STORE);
  }
}
