/**
  Resolution of a deployment's environment from its five layers, its flattening to KEY=value lines,
  and the redacted view of those lines for logs.  The encrypted stores appear as entries whose value
  is missing when it cannot be decrypted; the masking of a single value is an input.
 */
module EnvResolver {
  import opened Common
  import opened EnvSort

  // ---- Lines ------------------------------------------------------------------------------------------

  // Position of the first '=', or the length of the line.
  function EqualsAt(s: string): (i: nat)
    ensures i <= |s| && (i < |s| ==> s[i] == '=') && forall j :: 0 <= j < i ==> s[j] != '='
  {
    if s == [] || s[0] == '=' then 0 else 1 + EqualsAt(s[1..])
  }

  predicate IsAssignment(line: string) { EqualsAt(line) < |line| }

  predicate PlainKey(key: string) { forall i :: 0 <= i < |key| ==> key[i] != '=' }

  datatype Pair = Pair(key: string, value: string)

  // A line without '=' is a key with an empty value.
  function Parse(line: string): Pair {
    var i := EqualsAt(line);
    if i < |line| then Pair(line[..i], line[i + 1..]) else Pair(line, "")
  }

  function Line(key: string, value: string): string { key + "=" + value }

  lemma ParseLine(key: string, value: string)
    ensures IsAssignment(Line(key, value)) && PlainKey(Parse(Line(key, value)).key)
    ensures PlainKey(key) ==> Parse(Line(key, value)) == Pair(key, value)
  {
    var s := Line(key, value);
    assert s[|key|] == '=';
    if PlainKey(key) {
      assert forall j :: 0 <= j < |key| ==> s[j] == key[j];
      assert EqualsAt(s) == |key|;
      assert s[..|key|] == key && s[|key| + 1..] == value;
    }
  }

  // ---- Layers ------------------------------------------------------------------------------------------

  type Env = map<string, string>

  function Get(m: Env, key: string): Option<string> {
    if key in m then Some(m[key]) else None
  }

  // Writing the pairs into m one after another.
  function Overlay(m: Env, ps: seq<Pair>): Env {
    if ps == [] then m
    else
      var n := |ps| - 1;
      Overlay(m, ps[..n])[ps[n].key := ps[n].value]
  }

  // The value a layer gives to a key: that of its last pair for it.
  function LayerValue(ps: seq<Pair>, key: string): Option<string> {
    if ps == [] then None
    else
      var n := |ps| - 1;
      if ps[n].key == key then Some(ps[n].value) else LayerValue(ps[..n], key)
  }

  function Or(a: Option<string>, b: Option<string>): Option<string> { if a.Some? then a else b }

  lemma {:induction false} OverlayWins(m: Env, ps: seq<Pair>, key: string)
    ensures Get(Overlay(m, ps), key) == Or(LayerValue(ps, key), Get(m, key))
  {
    if ps != [] { OverlayWins(m, ps[..|ps| - 1], key); }
  }

  function Parsed(lines: seq<string>): seq<Pair> {
    seq(|lines|, i requires 0 <= i < |lines| => Parse(lines[i]))
  }

  // Reserved lines without '=' are ignored.
  function Assignments(lines: seq<string>): seq<Pair> {
    if lines == [] then []
    else
      var n := |lines| - 1;
      Assignments(lines[..n]) + (if IsAssignment(lines[n]) then [Parse(lines[n])] else [])
  }

  // A stored value; None cannot be decrypted.
  datatype Entry = Entry(key: string, value: Option<string>)

  predicate Readable(es: seq<Entry>) { forall i :: 0 <= i < |es| ==> es[i].value.Some? }

  function Values(es: seq<Entry>): seq<Pair>
    requires Readable(es)
  {
    seq(|es|, i requires 0 <= i < |es| => Pair(es[i].key, es[i].value.value))
  }

  function KeysOf(es: seq<Entry>): set<string> { set i | 0 <= i < |es| :: es[i].key }

  function Concat(folders: seq<seq<Entry>>): seq<Entry> {
    if folders == [] then [] else Concat(folders[..|folders| - 1]) + folders[|folders| - 1]
  }

  // Site keys written over a secret that was already there.
  function Overridden(rows: seq<Entry>, secret: set<string>): seq<string> {
    if rows == [] then []
    else
      var n := |rows| - 1;
      Overridden(rows[..n], secret)
        + (if rows[n].key in secret + KeysOf(rows[..n]) then [rows[n].key] else [])
  }

  // `attached` says that there is a site and a database to read its stores from.
  datatype Inputs = Inputs(
    platform: seq<string>, manifest: Env, attached: bool,
    folders: seq<seq<Entry>>, site: seq<Entry>, reserved: seq<string>)

  predicate Decryptable(inp: Inputs) {
    inp.attached ==> Readable(Concat(inp.folders)) && Readable(inp.site)
  }

  function ProjectLayer(inp: Inputs): seq<Pair>
    requires Decryptable(inp)
  {
    if inp.attached then Values(Concat(inp.folders)) else []
  }

  function SiteLayer(inp: Inputs): seq<Pair>
    requires Decryptable(inp)
  {
    if inp.attached then Values(inp.site) else []
  }

  // The merged map, layer over layer.
  function Merged(inp: Inputs): Env
    requires Decryptable(inp)
  {
    Overlay(
      Overlay(Overlay(Overlay(map[], Parsed(inp.platform)) + inp.manifest, ProjectLayer(inp)), SiteLayer(inp)),
      Assignments(inp.reserved))
  }

  // The value of the highest layer that defines the key.
  function Effective(inp: Inputs, key: string): Option<string>
    requires Decryptable(inp)
  {
    Or(LayerValue(Assignments(inp.reserved), key),
      Or(LayerValue(SiteLayer(inp), key),
        Or(LayerValue(ProjectLayer(inp), key),
          Or(Get(inp.manifest, key), LayerValue(Parsed(inp.platform), key)))))
  }

  /** Precedence: reserved over site over project (a later folder over an earlier one) over manifest
      over platform, for every key. */
  lemma HighestLayerWins(inp: Inputs, key: string)
    requires Decryptable(inp)
    ensures Get(Merged(inp), key) == Effective(inp, key)
  {
    var platform := Overlay(map[], Parsed(inp.platform));
    var project := Overlay(platform + inp.manifest, ProjectLayer(inp));
    var site := Overlay(project, SiteLayer(inp));
    OverlayWins(map[], Parsed(inp.platform), key);
    OverlayWins(platform + inp.manifest, ProjectLayer(inp), key);
    OverlayWins(project, SiteLayer(inp), key);
    OverlayWins(site, Assignments(inp.reserved), key);
  }

  function SecretKeys(inp: Inputs): set<string> {
    if inp.attached then KeysOf(Concat(inp.folders)) + KeysOf(inp.site) else {}
  }

  ghost predicate Defines(es: seq<Entry>, key: string) { exists i :: 0 <= i < |es| && es[i].key == key }

  ghost predicate SomeFolderDefines(folders: seq<seq<Entry>>, key: string) {
    exists f :: 0 <= f < |folders| && Defines(folders[f], key)
  }

  lemma {:induction false} ConcatDefines(folders: seq<seq<Entry>>, key: string)
    ensures key in KeysOf(Concat(folders)) <==> SomeFolderDefines(folders, key)
  {
    if folders != [] {
      var n := |folders| - 1;
      ConcatDefines(folders[..n], key);
      KeysAppend(Concat(folders[..n]), folders[n]);
      if SomeFolderDefines(folders, key) {
        var f :| 0 <= f < |folders| && Defines(folders[f], key);
        assert f < n ==> folders[..n][f] == folders[f];
      }
      if SomeFolderDefines(folders[..n], key) {
        var f :| 0 <= f < n && Defines(folders[..n][f], key);
        assert Defines(folders[f], key);
      }
    }
  }

  /** A key is secret exactly when the stores are read and one of the selected folders or the site
      defines it. */
  lemma SecretKeysExactly(inp: Inputs, key: string)
    ensures key in SecretKeys(inp) <==> inp.attached && (SomeFolderDefines(inp.folders, key) || Defines(inp.site, key))
  {
    ConcatDefines(inp.folders, key);
  }

  // With one row per site key, the reported conflicts are exactly the keys both stores define.
  lemma {:induction false} ConflictsAreCollisions(rows: seq<Entry>, project: set<string>, key: string)
    requires forall i, j :: 0 <= i < j < |rows| ==> rows[i].key != rows[j].key
    ensures key in Overridden(rows, project) <==> key in project && key in KeysOf(rows)
  {
    if rows != [] {
      var n := |rows| - 1;
      ConflictsAreCollisions(rows[..n], project, key);
      KeysGrow(rows, n);
      assert rows[..n + 1] == rows;
      assert rows[n].key !in KeysOf(rows[..n]);
    }
  }

  // ---- Flattening ------------------------------------------------------------------------------------------

  // The lines list the map in key order, the keys being ks.
  predicate ListedBy(lines: seq<string>, ks: seq<string>, m: Env) {
    && Increasing(ks, Before) && |ks| == |lines|
    && (forall k :: k in m ==> k in ks)
    && (forall i :: 0 <= i < |ks| ==> ks[i] in m && lines[i] == Line(ks[i], m[ks[i]]))
  }

  ghost predicate IsListing(lines: seq<string>, m: Env) {
    |lines| == |m| && exists ks :: ListedBy(lines, ks, m)
  }

  lemma SameKeysSameLines(a: seq<string>, b: seq<string>, ks: seq<string>, js: seq<string>, m: Env)
    requires ListedBy(a, ks, m) && ListedBy(b, js, m)
    ensures a == b
  {
    assert SameElements(ks, js);
    KeyOrder();
    IncreasingIsUnique(ks, js, Before);
  }

  // The lines do not depend on the order in which the map yields its keys.
  lemma ListingIsUnique(a: seq<string>, b: seq<string>, m: Env)
    requires IsListing(a, m) && IsListing(b, m)
    ensures a == b
  {
    var ks :| ListedBy(a, ks, m);
    var js :| ListedBy(b, js, m);
    SameKeysSameLines(a, b, ks, js, m);
  }

  // What parsing the lines gives: a later line for a key replaces an earlier one.
  function KeyValues(lines: seq<string>): Env { Overlay(map[], Parsed(lines)) }

  predicate DistinctKeys(ps: seq<Pair>) {
    forall i, j :: 0 <= i < j < |ps| ==> ps[i].key != ps[j].key
  }

  lemma {:induction false} LayerValueAt(ps: seq<Pair>, i: nat)
    requires i < |ps| && DistinctKeys(ps)
    ensures LayerValue(ps, ps[i].key) == Some(ps[i].value)
  {
    if i < |ps| - 1 { LayerValueAt(ps[..|ps| - 1], i); }
  }

  lemma {:induction false} LayerValueSource(ps: seq<Pair>, key: string) returns (i: nat)
    requires LayerValue(ps, key).Some?
    ensures i < |ps| && ps[i].key == key
  {
    i := |ps| - 1;
    if ps[i].key != key { i := LayerValueSource(ps[..i], key); }
  }

  // The pairs that a listing of the map with these keys consists of.
  function PairsFor(m: Env, ks: seq<string>): seq<Pair>
    requires forall i :: 0 <= i < |ks| ==> ks[i] in m
  {
    seq(|ks|, i requires 0 <= i < |ks| => Pair(ks[i], m[ks[i]]))
  }

  lemma PairsForGive(m: Env, ks: seq<string>, key: string)
    requires Increasing(ks, Before) && (forall k :: k in m ==> k in ks)
    requires forall i :: 0 <= i < |ks| ==> ks[i] in m
    ensures LayerValue(PairsFor(m, ks), key) == Get(m, key)
  {
    var ps := PairsFor(m, ks);
    KeyOrder();
    if key in m {
      var i :| 0 <= i < |ks| && ks[i] == key;
      LayerValueAt(ps, i);
    } else if LayerValue(ps, key).Some? {
      var i := LayerValueSource(ps, key);
    }
  }

  lemma ListingParses(lines: seq<string>, ks: seq<string>, m: Env)
    requires ListedBy(lines, ks, m)
    ensures forall i :: 0 <= i < |lines| ==> IsAssignment(lines[i]) && PlainKey(Parsed(lines)[i].key)
    ensures (forall k :: k in m ==> PlainKey(k)) ==> Parsed(lines) == PairsFor(m, ks)
  {
    forall i | 0 <= i < |lines|
      ensures IsAssignment(lines[i]) && PlainKey(Parsed(lines)[i].key)
      ensures PlainKey(ks[i]) ==> Parsed(lines)[i] == Pair(ks[i], m[ks[i]])
    {
      ParseLine(ks[i], m[ks[i]]);
    }
  }

  lemma PlainReparses(lines: seq<string>, m: Env, key: string)
    requires IsListing(lines, m) && forall k :: k in m ==> PlainKey(k)
    ensures Get(KeyValues(lines), key) == Get(m, key)
  {
    var ks :| ListedBy(lines, ks, m);
    ListingParses(lines, ks, m);
    PairsForGive(m, ks, key);
    OverlayWins(map[], Parsed(lines), key);
  }

  lemma ReparsedIsPlain(lines: seq<string>, m: Env, key: string)
    requires IsListing(lines, m) && key in KeyValues(lines)
    ensures PlainKey(key)
  {
    var ks :| ListedBy(lines, ks, m);
    ListingParses(lines, ks, m);
    OverlayWins(map[], Parsed(lines), key);
    var i := LayerValueSource(Parsed(lines), key);
  }

  lemma SameEnv(a: Env, b: Env)
    requires forall k :: Get(a, k) == Get(b, k)
    ensures a == b
  {
    forall k ensures k in a <==> k in b { assert Get(a, k) == Get(b, k); }
    forall k | k in a ensures a[k] == b[k] { assert Get(a, k) == Get(b, k); }
  }

  /** The lines parse back to the map they list exactly when no key contains '='. */
  lemma ListingReparses(lines: seq<string>, m: Env)
    requires IsListing(lines, m)
    ensures KeyValues(lines) == m <==> forall k :: k in m ==> PlainKey(k)
  {
    if forall k :: k in m ==> PlainKey(k) {
      forall k ensures Get(KeyValues(lines), k) == Get(m, k) { PlainReparses(lines, m, k); }
      SameEnv(KeyValues(lines), m);
    }
    forall k | k in KeyValues(lines) ensures PlainKey(k) { ReparsedIsPlain(lines, m, k); }
  }

  // ---- Redaction ------------------------------------------------------------------------------------------------

  function RedactedLine(line: string, secret: set<string>, mask: string -> string): string {
    if IsAssignment(line) && Parse(line).key in secret then Line(Parse(line).key, mask(Parse(line).value)) else line
  }

  function Redacted(env: seq<string>, secret: set<string>, mask: string -> string): seq<string> {
    seq(|env|, i requires 0 <= i < |env| => RedactedLine(env[i], secret, mask))
  }

  function Masked(v: Option<string>, isSecret: bool, mask: string -> string): Option<string> {
    if v.Some? && isSecret then Some(mask(v.value)) else v
  }

  lemma RedactedLineParses(line: string, secret: set<string>, mask: string -> string)
    requires IsAssignment(line)
    ensures var p, q := Parse(line), Parse(RedactedLine(line, secret, mask));
      q == Pair(p.key, if p.key in secret then mask(p.value) else p.value)
  {
    ParseLine(Parse(line).key, mask(Parse(line).value));
  }

  lemma {:induction false} MaskedPairs(ps: seq<Pair>, qs: seq<Pair>, secret: set<string>, mask: string -> string, key: string)
    requires |ps| == |qs|
    requires forall i :: 0 <= i < |ps| ==> qs[i] == Pair(ps[i].key, if ps[i].key in secret then mask(ps[i].value) else ps[i].value)
    ensures LayerValue(qs, key) == Masked(LayerValue(ps, key), key in secret, mask)
  {
    if ps != [] { MaskedPairs(ps[..|ps| - 1], qs[..|ps| - 1], secret, mask, key); }
  }

  /** Redaction keeps every key and changes exactly the values of secret keys. */
  lemma RedactionMasksSecrets(env: seq<string>, secret: set<string>, mask: string -> string, key: string)
    requires forall i :: 0 <= i < |env| ==> IsAssignment(env[i])
    ensures Get(KeyValues(Redacted(env, secret, mask)), key) == Masked(Get(KeyValues(env), key), key in secret, mask)
  {
    var out := Redacted(env, secret, mask);
    forall i | 0 <= i < |env|
      ensures var p, q := Parsed(env)[i], Parsed(out)[i];
        q == Pair(p.key, if p.key in secret then mask(p.value) else p.value)
    {
      RedactedLineParses(env[i], secret, mask);
    }
    MaskedPairs(Parsed(env), Parsed(out), secret, mask, key);
    OverlayWins(map[], Parsed(env), key);
    OverlayWins(map[], Parsed(out), key);
  }

  /** What a log shows of a resolved environment: for every key the highest layer's value, masked
      exactly when one of the secret stores defines the key. */
  lemma LogShowsMaskedValues(inp: Inputs, environ: seq<string>, mask: string -> string, key: string)
    requires Decryptable(inp) && IsListing(environ, Merged(inp))
    requires forall k :: k in Merged(inp) ==> PlainKey(k)
    ensures Get(KeyValues(Redacted(environ, SecretKeys(inp), mask)), key)
         == Masked(Effective(inp, key), key in SecretKeys(inp), mask)
  {
    var m := Merged(inp);
    HighestLayerWins(inp, key);
    LogShowsListing(environ, m, SecretKeys(inp), mask, key);
  }

  lemma LogShowsListing(environ: seq<string>, m: Env, secret: set<string>, mask: string -> string, key: string)
    requires IsListing(environ, m) && forall k :: k in m ==> PlainKey(k)
    ensures Get(KeyValues(Redacted(environ, secret, mask)), key) == Masked(Get(m, key), key in secret, mask)
  {
    PlainReparses(environ, m, key);
    var ks :| ListedBy(environ, ks, m);
    ListingParses(environ, ks, m);
    RedactionMasksSecrets(environ, secret, mask, key);
  }

  // ---- The operations -----------------------------------------------------------------------------------------------

  method KeyValueMap(env: seq<string>) returns (m: Env)
    ensures m == KeyValues(env)
  {
    m := map[];
    var i := 0;
    while i < |env|
      invariant 0 <= i <= |env|
      invariant m == KeyValues(env[..i])
    {
      assert Parsed(env[..i + 1])[..i] == Parsed(env[..i]);
      var idx := EqualsAt(env[i]);
      if idx == |env[i]| {
        m := m[env[i] := ""];
      } else {
        m := m[env[i][..idx] := env[i][idx + 1..]];
      }
      i := i + 1;
    }
    assert env[..i] == env;
  }

  // The keys in whatever order the map yields them.
  method CollectKeys(m: Env) returns (keys: seq<string>)
    ensures |keys| == |m| && (forall k :: k in keys <==> k in m)
    ensures forall i, j :: 0 <= i < j < |keys| ==> keys[i] != keys[j]
  {
    keys := [];
    var todo := m.Keys;
    while todo != {}
      invariant todo <= m.Keys && |keys| + |todo| == |m.Keys|
      invariant forall k :: k in keys <==> k in m && k !in todo
      invariant forall i, j :: 0 <= i < j < |keys| ==> keys[i] != keys[j]
      decreases |todo|
    {
      var k :| k in todo;
      keys := keys + [k];
      todo := todo - {k};
    }
  }

  method SortKeys(keys: seq<string>) returns (ks: seq<string>)
    ensures ks == Sorted(keys, Before)
  {
    var a := new string[|keys|](i requires 0 <= i < |keys| => keys[i]);
    assert a[..] == keys;
    InsertionSort(a, Before);
    return a[..];
  }

  method Flatten(m: Env, ks: seq<string>) returns (lines: seq<string>)
    requires forall i :: 0 <= i < |ks| ==> ks[i] in m
    ensures |lines| == |ks|
    ensures forall i :: 0 <= i < |ks| ==> lines[i] == Line(ks[i], m[ks[i]])
  {
    lines := [];
    var i := 0;
    while i < |ks|
      invariant 0 <= i <= |ks| && |lines| == i
      invariant forall j :: 0 <= j < i ==> lines[j] == Line(ks[j], m[ks[j]])
    {
      lines := lines + [ks[i] + "=" + m[ks[i]]];
      i := i + 1;
    }
  }

  method MapToEnviron(m: Env) returns (lines: seq<string>)
    ensures IsListing(lines, m)
  {
    var keys := CollectKeys(m);
    var ks := SortKeys(keys);
    DistinctKeysIncrease(keys);
    assert forall i :: 0 <= i < |ks| ==> ks[i] in ks;
    lines := Flatten(m, ks);
    assert ListedBy(lines, ks, m);
  }

  method Redact(env: seq<string>, secret: set<string>, mask: string -> string) returns (out: seq<string>)
    ensures out == Redacted(env, secret, mask)
  {
    if secret == {} {
      return env;
    }
    out := [];
    var i := 0;
    while i < |env|
      invariant 0 <= i <= |env| && |out| == i
      invariant forall j :: 0 <= j < i ==> out[j] == RedactedLine(env[j], secret, mask)
    {
      var line := RedactLine(env[i], secret, mask);
      out := out + [line];
      i := i + 1;
    }
  }

  method RedactLine(line: string, secret: set<string>, mask: string -> string) returns (r: string)
    ensures r == RedactedLine(line, secret, mask)
  {
    var idx := EqualsAt(line);
    if idx == |line| || line[..idx] !in secret {
      return line;
    }
    return line[..idx] + "=" + mask(line[idx + 1..]);
  }

  datatype ResolvedEnv = ResolvedEnv(environ: seq<string>, secretKeys: set<string>, conflicts: seq<string>)

  // One resolution in progress.
  class Resolution {
    var merged: Env
    var secretKeys: set<string>
    var conflicts: seq<string>

    constructor (platform: Env)
      ensures merged == platform && secretKeys == {} && conflicts == []
    {
      merged, secretKeys, conflicts := platform, {}, [];
    }

    method ReadFolder(es: seq<Entry>) returns (ok: bool)
      modifies this`merged, this`secretKeys
      ensures ok <==> Readable(es)
      ensures ok ==> merged == Overlay(old(merged), Values(es)) && secretKeys == old(secretKeys) + KeysOf(es)
    {
      var i := 0;
      while i < |es|
        invariant 0 <= i <= |es| && Readable(es[..i])
        invariant merged == Overlay(old(merged), Values(es[..i]))
        invariant secretKeys == old(secretKeys) + KeysOf(es[..i])
      {
        if es[i].value.None? {
          return false;
        }
        ValuesGrow(es, i);
        KeysGrow(es, i);
        merged := merged[es[i].key := es[i].value.value];
        secretKeys := secretKeys + {es[i].key};
        i := i + 1;
      }
      assert es[..i] == es;
      return true;
    }

    method ResolveProjectSecrets(folders: seq<seq<Entry>>) returns (ok: bool)
      modifies this`merged, this`secretKeys
      ensures ok <==> Readable(Concat(folders))
      ensures ok ==> merged == Overlay(old(merged), Values(Concat(folders)))
      ensures ok ==> secretKeys == old(secretKeys) + KeysOf(Concat(folders))
    {
      var i := 0;
      while i < |folders|
        invariant 0 <= i <= |folders| && Readable(Concat(folders[..i]))
        invariant merged == Overlay(old(merged), Values(Concat(folders[..i])))
        invariant secretKeys == old(secretKeys) + KeysOf(Concat(folders[..i]))
      {
        assert folders[..i + 1][..i] == folders[..i];
        ok := ReadFolder(folders[i]);
        ConcatHolds(folders, i);
        if !ok {
          return;
        }
        ValuesAppend(old(merged), Concat(folders[..i]), folders[i]);
        KeysAppend(Concat(folders[..i]), folders[i]);
        i := i + 1;
      }
      assert folders[..i] == folders;
      return true;
    }

    // A site value replaces any other; replacing a secret is a conflict.
    method Overwrite(key: string, value: string)
      modifies this
      ensures merged == old(merged)[key := value] && secretKeys == old(secretKeys) + {key}
      ensures conflicts == old(conflicts) + if key in old(secretKeys) then [key] else []
    {
      if key in secretKeys {
        conflicts := conflicts + [key];
      }
      merged, secretKeys := merged[key := value], secretKeys + {key};
    }

    method ResolveSiteEnvVars(rows: seq<Entry>) returns (ok: bool)
      modifies this
      ensures ok <==> Readable(rows)
      ensures ok ==> merged == Overlay(old(merged), Values(rows)) && secretKeys == old(secretKeys) + KeysOf(rows)
      ensures ok ==> conflicts == old(conflicts) + Overridden(rows, old(secretKeys))
    {
      var i := 0;
      while i < |rows|
        invariant 0 <= i <= |rows| && Readable(rows[..i])
        invariant merged == Overlay(old(merged), Values(rows[..i]))
        invariant secretKeys == old(secretKeys) + KeysOf(rows[..i])
        invariant conflicts == old(conflicts) + Overridden(rows[..i], old(secretKeys))
      {
        if rows[i].value.None? {
          return false;
        }
        ValuesGrow(rows, i);
        KeysGrow(rows, i);
        OverriddenGrow(rows, i, old(secretKeys));
        Overwrite(rows[i].key, rows[i].value.value);
        i := i + 1;
      }
      assert rows[..i] == rows;
      return true;
    }

    method ApplyReserved(lines: seq<string>)
      modifies this`merged
      ensures merged == Overlay(old(merged), Assignments(lines))
    {
      var i := 0;
      while i < |lines|
        invariant 0 <= i <= |lines|
        invariant merged == Overlay(old(merged), Assignments(lines[..i]))
      {
        AssignmentsGrow(lines, i, old(merged));
        var idx := EqualsAt(lines[i]);
        if idx < |lines[i]| {
          merged := merged[lines[i][..idx] := lines[i][idx + 1..]];
        }
        i := i + 1;
      }
      assert lines[..i] == lines;
    }
  }

  /** There is an environment exactly when everything selected decrypts; it lists the merged map, and
      names the keys of both secret stores and the keys on which they collide. */
  method ResolveOptions(inp: Inputs) returns (r: Option<ResolvedEnv>)
    ensures r.Some? <==> Decryptable(inp)
    ensures r.Some? ==> IsListing(r.value.environ, Merged(inp))
    ensures r.Some? ==> r.value.secretKeys == SecretKeys(inp)
    ensures r.Some? ==> r.value.conflicts == if inp.attached then Overridden(inp.site, KeysOf(Concat(inp.folders))) else []
  {
    var platform := KeyValueMap(inp.platform);
    var res := new Resolution(platform + inp.manifest);
    if inp.attached {
      var ok := res.ResolveProjectSecrets(inp.folders);
      if !ok {
        return None;
      }
      assert res.secretKeys == KeysOf(Concat(inp.folders));
      ok := res.ResolveSiteEnvVars(inp.site);
      if !ok {
        return None;
      }
    }
    res.ApplyReserved(inp.reserved);
    var environ := MapToEnviron(res.merged);
    return Some(ResolvedEnv(environ, res.secretKeys, res.conflicts));
  }

  // ---- Steps of the loops -----------------------------------------------------------------------------------------------

  lemma ValuesGrow(es: seq<Entry>, i: nat)
    requires i < |es| && Readable(es[..i]) && es[i].value.Some?
    ensures Readable(es[..i + 1])
    ensures forall m: Env :: Overlay(m, Values(es[..i + 1])) == Overlay(m, Values(es[..i]))[es[i].key := es[i].value.value]
  {
    assert Values(es[..i + 1])[..i] == Values(es[..i]);
  }

  lemma KeysGrow(es: seq<Entry>, i: nat)
    requires i < |es|
    ensures KeysOf(es[..i + 1]) == KeysOf(es[..i]) + {es[i].key}
  {
    assert forall j :: 0 <= j <= i ==> es[..i + 1][j] == es[j];
    assert forall j :: 0 <= j < i ==> es[..i][j] == es[j];
    forall k ensures k in KeysOf(es[..i + 1]) <==> k in KeysOf(es[..i]) || k == es[i].key {
      if k in KeysOf(es[..i + 1]) && k != es[i].key {
        var j :| 0 <= j <= i && es[..i + 1][j].key == k;
        assert es[..i][j].key == k;
      }
      if k in KeysOf(es[..i]) {
        var j :| 0 <= j < i && es[..i][j].key == k;
        assert es[..i + 1][j].key == k;
      }
      assert es[..i + 1][i].key == es[i].key;
    }
  }

  lemma {:induction false} OverlayAppend(m: Env, a: seq<Pair>, b: seq<Pair>)
    ensures Overlay(m, a + b) == Overlay(Overlay(m, a), b)
  {
    if b == [] {
      assert a + b == a;
    } else {
      var n := |b| - 1;
      assert (a + b)[..|a + b| - 1] == a + b[..n];
      OverlayAppend(m, a, b[..n]);
    }
  }

  lemma ValuesAppend(m: Env, a: seq<Entry>, b: seq<Entry>)
    requires Readable(a) && Readable(b)
    ensures Readable(a + b)
    ensures Overlay(m, Values(a + b)) == Overlay(Overlay(m, Values(a)), Values(b))
  {
    assert Values(a + b) == Values(a) + Values(b);
    OverlayAppend(m, Values(a), Values(b));
  }

  lemma {:induction false} KeysAppend(a: seq<Entry>, b: seq<Entry>)
    ensures KeysOf(a + b) == KeysOf(a) + KeysOf(b)
  {
    if b == [] {
      assert a + b == a;
    } else {
      var n := |b| - 1;
      assert (a + b)[..|a| + n] == a + b[..n] && (a + b)[..|a| + n + 1] == a + b && b[..n + 1] == b;
      KeysAppend(a, b[..n]);
      KeysGrow(a + b, |a| + n);
      KeysGrow(b, n);
    }
  }

  lemma OverriddenGrow(rows: seq<Entry>, i: nat, secret: set<string>)
    requires i < |rows|
    ensures Overridden(rows[..i + 1], secret) == Overridden(rows[..i], secret)
      + if rows[i].key in secret + KeysOf(rows[..i]) then [rows[i].key] else []
  {
    assert rows[..i + 1][..i] == rows[..i];
  }

  // A folder that cannot be read makes the project layer unreadable.
  lemma {:induction false} ConcatHolds(folders: seq<seq<Entry>>, i: nat)
    requires i < |folders|
    ensures Readable(Concat(folders)) ==> Readable(folders[i])
    decreases |folders|
  {
    var n := |folders| - 1;
    var all := Concat(folders);
    var before := Concat(folders[..n]);
    if i < n {
      assert forall j :: 0 <= j < |before| ==> before[j] == all[j];
      ConcatHolds(folders[..n], i);
    } else {
      assert forall j :: 0 <= j < |folders[n]| ==> folders[n][j] == all[|before| + j];
    }
  }

  lemma AssignmentsGrow(lines: seq<string>, i: nat, m: Env)
    requires i < |lines|
    ensures Overlay(m, Assignments(lines[..i + 1])) ==
      if IsAssignment(lines[i])
      then Overlay(m, Assignments(lines[..i]))[Parse(lines[i]).key := Parse(lines[i]).value]
      else Overlay(m, Assignments(lines[..i]))
  {
    assert lines[..i + 1][..i] == lines[..i];
    var after := Assignments(lines[..i + 1]);
    if IsAssignment(lines[i]) {
      assert after[..|after| - 1] == Assignments(lines[..i]);
    } else {
      assert after == Assignments(lines[..i]);
    }
  }
}
