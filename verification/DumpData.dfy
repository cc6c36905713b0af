/**
  Reading a dump back as data: the names, rows and definitions that the statements executed by a
  restore carry.
 */
module DumpData {
  import opened Common
  import opened SqlDump
  import opened SqlValues

  const DQ: char := '\"'

  // ---- Names ------------------------------------------------------------------------------------------

  // SQL's reading of a quoted name: up to the closing quote, a doubled quote standing for one.
  function ReadNameBody(s: string): Read<string> {
    if s == "" then Unreadable
    else if s[0] == DQ && (|s| < 2 || s[1] != DQ) then Read("", s[1..])
    else
      var more := ReadNameBody(if s[0] == DQ then s[2..] else s[1..]);
      if more.Unreadable? then Unreadable else Read([s[0]] + more.value, more.rest)
  }

  function ReadName(s: string): Read<string> {
    if s == "" || s[0] != DQ then Unreadable else ReadNameBody(s[1..])
  }

  // How SQL writes a name.
  function DoubleQuotes(name: string): string {
    if name == "" then "" else (if name[0] == DQ then [DQ, DQ] else [name[0]]) + DoubleQuotes(name[1..])
  }

  predicate NoQuoteNext(rest: string) { rest == "" || rest[0] != DQ }

  lemma {:induction false} DoubledReadsBack(name: string, rest: string)
    requires NoQuoteNext(rest)
    ensures ReadNameBody(DoubleQuotes(name) + [DQ] + rest) == Read(name, rest)
  {
    var s := DoubleQuotes(name) + [DQ] + rest;
    if name == "" {
      assert s == [DQ] + rest;
    } else {
      var first := if name[0] == DQ then [DQ, DQ] else [name[0]];
      assert s == first + (DoubleQuotes(name[1..]) + [DQ] + rest);
      assert s[|first|..] == DoubleQuotes(name[1..]) + [DQ] + rest;
      DoubledReadsBack(name[1..], rest);
      assert [name[0]] + name[1..] == name;
    }
  }

  lemma DoubleQuotesCons(c: char, name: string)
    ensures DoubleQuotes([c] + name) == (if c == DQ then [DQ, DQ] else [c]) + DoubleQuotes(name)
  {
    assert ([c] + name)[1..] == name;
  }

  lemma Regroup(a: string, b: string, c: string, d: string)
    ensures a + (b + c + d) == a + b + c + d
  {
  }

  lemma {:induction false} OnlyDoubledReads(s: string)
    requires ReadNameBody(s).Read?
    ensures s == DoubleQuotes(ReadNameBody(s).value) + [DQ] + ReadNameBody(s).rest
  {
    if s[0] == DQ && (|s| < 2 || s[1] != DQ) {
      assert s == [DQ] + s[1..];
    } else {
      var n := if s[0] == DQ then 2 else 1;
      var more := ReadNameBody(s[n..]);
      OnlyDoubledReads(s[n..]);
      DoubleQuotesCons(s[0], more.value);
      assert s[..n] == if s[0] == DQ then [DQ, DQ] else [s[0]];
      Regroup(s[..n], DoubleQuotes(more.value), [DQ], more.rest);
      assert s == s[..n] + s[n..];
    }
  }

  predicate PlainChar(c: char) { c != DQ && c != '\\' && c >= ' ' && c != '\U{7F}' }

  // No double quote, backslash or ASCII control character.
  predicate PlainName(name: string) { forall i :: 0 <= i < |name| ==> PlainChar(name[i]) }

  lemma PlainIsUnescaped(c: char)
    ensures EscapeChar(c) == [c] <==> PlainChar(c)
  {
  }

  lemma {:induction false} EscapeIsLonger(name: string)
    ensures |Escape(name)| >= |DoubleQuotes(name)|
  {
    if name != "" { EscapeIsLonger(name[1..]); }
  }

  lemma {:induction false} EscapeIsDoubling(name: string)
    ensures Escape(name) == DoubleQuotes(name) <==> PlainName(name)
  {
    if name != "" {
      var c, tail := name[0], name[1..];
      EscapeIsDoubling(tail);
      EscapeIsLonger(tail);
      PlainIsUnescaped(c);
      assert PlainName(name) <==> PlainChar(c) && PlainName(tail) by {
        assert name == [c] + tail;
      }
      assert Escape(name) == EscapeChar(c) + Escape(tail);
      if EscapeChar(c) == [c] {
        assert Escape(name)[1..] == Escape(tail) && DoubleQuotes(name)[1..] == DoubleQuotes(tail);
      } else {
        assert Escape(name)[0] == '\\' && DoubleQuotes(name)[0] == c;
        assert c == '\\' ==> |Escape(name)| == 2 + |Escape(tail)| && |DoubleQuotes(name)| == 1 + |DoubleQuotes(tail)|;
      }
    }
  }

  lemma SameSuffix(a: string, b: string, suffix: string)
    requires a + suffix == b + suffix
    ensures a == b
  {
    assert |a| == |b|;
    assert (a + suffix)[..|a|] == a && (b + suffix)[..|b|] == b;
  }

  lemma IdentifierTail(name: string, rest: string)
    ensures (Identifier(name) + rest)[1..] == Escape(name) + [DQ] + rest
    ensures (Identifier(name) + rest)[0] == DQ
  {
  }

  lemma PlainNameReads(name: string, rest: string)
    requires NoQuoteNext(rest) && PlainName(name)
    ensures ReadName(Identifier(name) + rest) == Read(name, rest)
  {
    IdentifierTail(name, rest);
    EscapeIsDoubling(name);
    DoubledReadsBack(name, rest);
  }

  lemma OnlyPlainNamesRead(name: string, rest: string)
    requires ReadName(Identifier(name) + rest) == Read(name, rest)
    ensures PlainName(name)
  {
    IdentifierTail(name, rest);
    OnlyDoubledReads((Identifier(name) + rest)[1..]);
    Regroup("", Escape(name), [DQ], rest);
    SameBeforeTail(Escape(name), DoubleQuotes(name), rest);
    EscapeIsDoubling(name);
  }

  lemma SameBeforeTail(a: string, b: string, rest: string)
    requires a + [DQ] + rest == b + [DQ] + rest
    ensures a == b
  {
    assert a + [DQ] + rest == a + ([DQ] + rest) && b + [DQ] + rest == b + ([DQ] + rest);
    SameSuffix(a, b, [DQ] + rest);
  }

  /** A dumped name is read by SQL as the name it was written for exactly when it has no double quote,
      backslash or control character: %q escapes these with a backslash, SQL does not. */
  lemma NameReadsBackExactly(name: string, rest: string)
    requires NoQuoteNext(rest)
    ensures ReadName(Identifier(name) + rest) == Read(name, rest) <==> PlainName(name)
  {
    if PlainName(name) {
      PlainNameReads(name, rest);
    } else if ReadName(Identifier(name) + rest) == Read(name, rest) {
      OnlyPlainNamesRead(name, rest);
    }
  }

  // ---- What %q itself means -----------------------------------------------------------------------------

  predicate IsHex(c: char) { '0' <= c <= '9' || 'a' <= c <= 'f' }

  function HexValue(c: char): (v: int)
    requires IsHex(c)
    ensures 0 <= v < 16
  {
    if c <= '9' then c as int - '0' as int else c as int - 'a' as int + 10
  }

  // The reading of one character of a quoted literal.
  function Unescape(s: string): Read<char> {
    if s == "" then Unreadable
    else if s[0] != '\\' then Read(s[0], s[1..])
    else if |s| < 2 then Unreadable
    else if s[1] == 'x' then
      if |s| >= 4 && IsHex(s[2]) && IsHex(s[3]) then Read((HexValue(s[2]) * 16 + HexValue(s[3])) as char, s[4..])
      else Unreadable
    else
      var rest := s[2..];
      match s[1]
      case 'a' => Read('\U{07}', rest)
      case 'b' => Read('\U{08}', rest)
      case 't' => Read('\U{09}', rest)
      case 'n' => Read('\U{0A}', rest)
      case 'v' => Read('\U{0B}', rest)
      case 'f' => Read('\U{0C}', rest)
      case 'r' => Read('\U{0D}', rest)
      case _ => if s[1] == DQ || s[1] == '\\' then Read(s[1], rest) else Unreadable
  }

  // A whole literal, up to its closing quote.
  function Unquote(s: string): Read<string> {
    if s == "" then Unreadable
    else if s[0] == DQ then Read("", s[1..])
    else
      var first := Unescape(s);
      if first.Unreadable? then Unreadable
      else
        var more := Unquote(first.rest);
        if more.Unreadable? then Unreadable else Read([first.value] + more.value, more.rest)
  }

  lemma EscapedHexReads(c: char, rest: string)
    requires (c < ' ' || c == '\U{7F}') && !('\U{07}' <= c <= '\U{0D}')
    ensures Unescape(EscapeChar(c) + rest) == Read(c, rest)
  {
    var h, l := c as int / 16, c as int % 16;
    assert EscapeChar(c) == ['\\', 'x', HexDigit(h), HexDigit(l)];
    assert HexValue(HexDigit(h)) == h && HexValue(HexDigit(l)) == l;
    assert (h * 16 + l) as char == c;
    assert (EscapeChar(c) + rest)[4..] == rest;
  }

  lemma EscapedCharReads(c: char, rest: string)
    ensures Unescape(EscapeChar(c) + rest) == Read(c, rest)
  {
    var s := EscapeChar(c) + rest;
    assert |EscapeChar(c)| == 2 ==> s[2..] == rest;
    assert |EscapeChar(c)| == 1 ==> s[1..] == rest;
    if (c < ' ' || c == '\U{7F}') && !('\U{07}' <= c <= '\U{0D}') {
      EscapedHexReads(c, rest);
    }
  }

  /** %q is a faithful quoting, if not SQL's: unescaping gives back every name, so tables with different
      names are dumped under different identifiers. */
  lemma {:induction false} UnquoteUndoesEscape(name: string, rest: string)
    ensures Unquote(Escape(name) + [DQ] + rest) == Read(name, rest)
  {
    if name != "" {
      UnquoteUndoesEscape(name[1..], rest);
      UnquoteOneMore(name[0], Escape(name[1..]) + [DQ] + rest, name[1..], rest);
      Regroup(EscapeChar(name[0]), Escape(name[1..]), [DQ], rest);
      assert [name[0]] + name[1..] == name;
    } else {
      assert Escape(name) + [DQ] + rest == [DQ] + rest;
    }
  }

  lemma UnquoteOneMore(c: char, tail: string, name: string, rest: string)
    requires Unquote(tail) == Read(name, rest)
    ensures Unquote(EscapeChar(c) + tail) == Read([c] + name, rest)
  {
    EscapedCharReads(c, tail);
    assert (EscapeChar(c) + tail)[0] == EscapeChar(c)[0] != DQ;
  }

  lemma IdentifiersAreDistinct(a: string, b: string)
    ensures Identifier(a) == Identifier(b) <==> a == b
  {
    if Identifier(a) == Identifier(b) {
      UnquoteUndoesEscape(a, "");
      UnquoteUndoesEscape(b, "");
      assert Identifier(a)[1..] == Escape(a) + [DQ] + "" && Identifier(b)[1..] == Escape(b) + [DQ] + "";
    }
  }

  // ---- Statements ---------------------------------------------------------------------------------------

  function Strip(prefix: string, s: string): Option<string> {
    if |prefix| <= |s| && s[..|prefix|] == prefix then Some(s[|prefix|..]) else None
  }

  lemma StripPrefix(prefix: string, s: string)
    ensures Strip(prefix, prefix + s) == Some(s)
  {
  }

  lemma StripDiffers(prefix: string, s: string, i: nat)
    requires i < |prefix| && i < |s| && prefix[i] != s[i]
    ensures Strip(prefix, s).None?
  {
    if |prefix| <= |s| { assert s[..|prefix|][i] == s[i]; }
  }

  const DROP := "DROP TABLE IF EXISTS "

  const INSERT := "INSERT INTO "

  const VALUES := " VALUES ("

  const CREATE := "CREATE "

  predicate IsCreate(s: string) { Strip(CREATE, s).Some? }

  function ReadDrop(s: string): Option<string> {
    var body := Strip(DROP, s);
    if body.None? then None
    else
      var name := ReadName(body.value);
      if name.Read? && name.rest == "" then Some(name.value) else None
  }

  // The list of a row and its closing parenthesis.
  function ReadList(s: string): Option<seq<Value>> {
    if s == "" || s[|s| - 1] != ')' then None else ReadRow(s[..|s| - 1])
  }

  function ReadInsert(s: string): Option<(string, seq<Value>)> {
    var body := Strip(INSERT, s);
    if body.None? then None
    else
      var name := ReadName(body.value);
      if name.Unreadable? then None
      else
        var list := Strip(VALUES, name.rest);
        if list.None? || ReadList(list.value).None? then None
        else Some((name.value, ReadList(list.value).value))
  }

  /** A DROP statement names the table it was written for. */
  lemma DropReadsBack(t: Table)
    requires PlainName(t.name)
    ensures ReadDrop(DropStmt(t)) == Some(t.name)
  {
    DropBodyReads(DROP, t.name);
  }

  lemma DropBodyReads(prefix: string, name: string)
    requires PlainName(name)
    ensures Strip(prefix, prefix + Identifier(name)) == Some(Identifier(name))
    ensures ReadName(Identifier(name)) == Read(name, "")
  {
    StripPrefix(prefix, Identifier(name));
    PlainNameReads(name, "");
    assert Identifier(name) + "" == Identifier(name);
  }

  /** An INSERT statement carries the table's name and the whole row. */
  lemma InsertReadsBack(t: Table, row: seq<Value>)
    requires PlainName(t.name) && row != []
    ensures ReadInsert(InsertStmt(t, row)) == Some((t.name, StoredRow(row)))
  {
    var list := Join(row) + ")";
    InsertBodyReads(INSERT, VALUES, t.name, list);
    assert InsertStmt(t, row) == INSERT + Identifier(t.name) + VALUES + list;
    assert list[..|list| - 1] == Join(row);
    RowReadsBack(row);
  }

  lemma InsertBodyReads(insert: string, values: string, name: string, list: string)
    requires PlainName(name) && values != "" && values[0] != DQ
    ensures var s := insert + Identifier(name) + values + list;
      && Strip(insert, s) == Some(Identifier(name) + (values + list))
      && ReadName(Identifier(name) + (values + list)) == Read(name, values + list)
      && Strip(values, values + list) == Some(list)
  {
    assert insert + Identifier(name) + values + list == insert + (Identifier(name) + (values + list));
    StripPrefix(insert, Identifier(name) + (values + list));
    PlainNameReads(name, values + list);
    StripPrefix(values, list);
  }

  // ---- What a sequence of statements rebuilds -----------------------------------------------------------------

  // One table as a restore leaves it.
  datatype Section = Section(name: string, ddl: string, rows: seq<seq<Value>>)

  // What a statement does to the data.
  datatype Effect = Opens(name: string) | Defines(ddl: string) | Adds(name: string, row: seq<Value>) | Nothing

  function EffectOf(stmt: string): Effect {
    if ReadDrop(stmt).Some? then Opens(ReadDrop(stmt).value)
    else if IsCreate(stmt) then Defines(stmt)
    else if ReadInsert(stmt).Some? then Adds(ReadInsert(stmt).value.0, ReadInsert(stmt).value.1)
    else Nothing
  }

  function Effects(stmts: seq<string>): (es: seq<Effect>)
    ensures |es| == |stmts|
  {
    if stmts == [] then [] else Effects(stmts[..|stmts| - 1]) + [EffectOf(stmts[|stmts| - 1])]
  }

  // A DROP opens a table, its CREATE defines it, INSERTs into it add rows.
  function Feed(db: seq<Section>, e: Effect): seq<Section> {
    if e.Opens? then db + [Section(e.name, "", [])]
    else if db == [] then db
    else
      var n := |db| - 1;
      if e.Defines? then db[n := db[n].(ddl := e.ddl)]
      else if e.Adds? && e.name == db[n].name then db[n := db[n].(rows := db[n].rows + [e.row])]
      else db
  }

  function FeedAll(db: seq<Section>, es: seq<Effect>): seq<Section> {
    if es == [] then db else Feed(FeedAll(db, es[..|es| - 1]), es[|es| - 1])
  }

  function Rebuilt(stmts: seq<string>): seq<Section> { FeedAll([], Effects(stmts)) }

  function StoredRows(rows: seq<seq<Value>>): seq<seq<Value>> {
    if rows == [] then [] else StoredRows(rows[..|rows| - 1]) + [StoredRow(rows[|rows| - 1])]
  }

  // What was dumped, table by table; a table without DDL is not.
  function Dumped(ts: seq<Table>): seq<Section> {
    if ts == [] then [] else Dumped(ts[..|ts| - 1]) + DumpedOne(ts[|ts| - 1])
  }

  function DumpedOne(t: Table): seq<Section> {
    if t.ddl == "" then [] else [Section(t.name, t.ddl, StoredRows(t.rows))]
  }

  // A table as SQLite has it: a definition that begins with CREATE, at least one column; and a name
  // that its dump preserves.
  predicate Restorable(t: Table) {
    t.ddl != "" ==> PlainName(t.name) && IsCreate(t.ddl) && forall i :: 0 <= i < |t.rows| ==> t.rows[i] != []
  }

  // ---- ... as effects -----------------------------------------------------------------------------------------------

  lemma {:induction false} EffectsConcat(a: seq<string>, b: seq<string>)
    ensures Effects(a + b) == Effects(a) + Effects(b)
    decreases |b|
  {
    if b == [] {
      assert a + b == a;
    } else {
      assert (a + b)[..|a + b| - 1] == a + b[..|b| - 1];
      EffectsConcat(a, b[..|b| - 1]);
    }
  }

  lemma EffectsOne(stmt: string)
    ensures Effects([stmt]) == [EffectOf(stmt)]
  {
    assert [stmt][..0] == [];
  }

  lemma DropOpens(t: Table)
    requires PlainName(t.name)
    ensures EffectOf(DropStmt(t)) == Opens(t.name)
  {
    DropReadsBack(t);
  }

  lemma CreateDefines(ddl: string)
    requires IsCreate(ddl)
    ensures EffectOf(ddl) == Defines(ddl)
  {
    assert ddl[..|CREATE|][0] == 'C';
    StripDiffers(DROP, ddl, 0);
  }

  lemma InsertAdds(t: Table, row: seq<Value>)
    requires PlainName(t.name) && row != []
    ensures EffectOf(InsertStmt(t, row)) == Adds(t.name, StoredRow(row))
  {
    InsertReadsBack(t, row);
    StripDiffers(DROP, InsertStmt(t, row), 0);
    StripDiffers(CREATE, InsertStmt(t, row), 0);
  }

  // Statements that begin otherwise carry no data.
  lemma OthersDoNothing(stmt: string)
    requires |stmt| >= 2 && stmt[0] != 'D' && stmt[0] != 'I' && (stmt[0] == 'C' ==> stmt[1] != 'R')
    ensures EffectOf(stmt) == Nothing
  {
    StripDiffers(DROP, stmt, 0);
    StripDiffers(INSERT, stmt, 0);
    if stmt[0] == 'C' { StripDiffers(CREATE, stmt, 1); } else { StripDiffers(CREATE, stmt, 0); }
  }

  function AddAll(name: string, rows: seq<seq<Value>>): seq<Effect> {
    if rows == [] then [] else AddAll(name, rows[..|rows| - 1]) + [Adds(name, rows[|rows| - 1])]
  }

  function TableEffects(t: Table): seq<Effect> {
    if t.ddl == "" then [] else [Opens(t.name), Defines(t.ddl)] + AddAll(t.name, StoredRows(t.rows))
  }

  lemma {:induction false} InsertEffects(t: Table, n: nat)
    requires n <= |t.rows| && PlainName(t.name) && forall i :: 0 <= i < |t.rows| ==> t.rows[i] != []
    ensures Effects(InsertStmts(t, n)) == AddAll(t.name, StoredRows(t.rows[..n]))
  {
    if n > 0 {
      InsertEffects(t, n - 1);
      EffectsConcat(InsertStmts(t, n - 1), [InsertStmt(t, t.rows[n - 1])]);
      EffectsOne(InsertStmt(t, t.rows[n - 1]));
      InsertAdds(t, t.rows[n - 1]);
      AddOneMore(t.name, t.rows, n);
    }
  }

  lemma AddOneMore(name: string, rows: seq<seq<Value>>, n: nat)
    requires 0 < n <= |rows|
    ensures AddAll(name, StoredRows(rows[..n])) == AddAll(name, StoredRows(rows[..n - 1])) + [Adds(name, StoredRow(rows[n - 1]))]
  {
    assert rows[..n][..n - 1] == rows[..n - 1];
    var all := StoredRows(rows[..n]);
    assert all[..|all| - 1] == StoredRows(rows[..n - 1]);
  }

  lemma TableHasEffects(t: Table)
    requires Restorable(t)
    ensures Effects(TableStmts(t)) == TableEffects(t)
  {
    if t.ddl != "" {
      EffectsConcat([DropStmt(t), t.ddl], InsertStmts(t, |t.rows|));
      TwoEffects(DropStmt(t), t.ddl);
      DropOpens(t);
      CreateDefines(t.ddl);
      InsertEffects(t, |t.rows|);
      assert t.rows[..|t.rows|] == t.rows;
    }
  }

  lemma TwoEffects(a: string, b: string)
    ensures Effects([a, b]) == [EffectOf(a), EffectOf(b)]
  {
    assert [a, b] == [a] + [b];
    EffectsConcat([a], [b]);
    EffectsOne(a);
    EffectsOne(b);
  }

  // ---- ... and as data -------------------------------------------------------------------------------------------------

  lemma {:induction false} FeedConcat(db: seq<Section>, a: seq<Effect>, b: seq<Effect>)
    ensures FeedAll(db, a + b) == FeedAll(FeedAll(db, a), b)
    decreases |b|
  {
    if b == [] {
      assert a + b == a;
    } else {
      assert (a + b)[..|a + b| - 1] == a + b[..|b| - 1];
      FeedConcat(db, a, b[..|b| - 1]);
    }
  }

  lemma FeedOne(db: seq<Section>, a: Effect)
    ensures FeedAll(db, [a]) == Feed(db, a)
  {
    assert [a][..0] == [];
  }

  lemma FeedTwo(db: seq<Section>, a: Effect, b: Effect)
    ensures FeedAll(db, [a, b]) == Feed(Feed(db, a), b)
  {
    assert [a, b] == [a] + [b];
    FeedConcat(db, [a], [b]);
    FeedOne(db, a);
    FeedOne(Feed(db, a), b);
  }

  lemma FeedRow(db: seq<Section>, s: Section, row: seq<Value>)
    ensures Feed(db + [s], Adds(s.name, row)) == db + [s.(rows := s.rows + [row])]
  {
    var x := s.(rows := s.rows + [row]);
    assert (db + [s])[|db| := x] == db + [x];
  }

  lemma {:induction false} FeedRows(db: seq<Section>, s: Section, rows: seq<seq<Value>>)
    ensures FeedAll(db + [s], AddAll(s.name, rows)) == db + [s.(rows := s.rows + rows)]
  {
    if rows == [] {
      assert s.(rows := s.rows + rows) == s;
    } else {
      var n := |rows| - 1;
      var es, mid := AddAll(s.name, rows), s.(rows := s.rows + rows[..n]);
      FeedRows(db, s, rows[..n]);
      assert es[..|es| - 1] == AddAll(s.name, rows[..n]);
      FeedRow(db, mid, rows[n]);
      assert s.rows + rows == (s.rows + rows[..n]) + [rows[n]];
    }
  }

  lemma TableRebuilds(db: seq<Section>, t: Table)
    ensures FeedAll(db, TableEffects(t)) == db + DumpedOne(t)
  {
    if t.ddl == "" {
      assert db + [] == db;
    } else {
      var s := Section(t.name, t.ddl, []);
      FeedConcat(db, [Opens(t.name), Defines(t.ddl)], AddAll(t.name, StoredRows(t.rows)));
      FeedTwo(db, Opens(t.name), Defines(t.ddl));
      assert Feed(Feed(db, Opens(t.name)), Defines(t.ddl)) == db + [s];
      FeedRows(db, s, StoredRows(t.rows));
      assert [] + StoredRows(t.rows) == StoredRows(t.rows);
    }
  }

  function TablesEffects(ts: seq<Table>): seq<Effect> {
    if ts == [] then [] else TablesEffects(ts[..|ts| - 1]) + TableEffects(ts[|ts| - 1])
  }

  lemma {:induction false} TablesHaveEffects(ts: seq<Table>)
    requires forall i :: 0 <= i < |ts| ==> Restorable(ts[i])
    ensures Effects(TablesStmts(ts)) == TablesEffects(ts)
  {
    if ts != [] {
      TablesHaveEffects(ts[..|ts| - 1]);
      EffectsConcat(TablesStmts(ts[..|ts| - 1]), TableStmts(ts[|ts| - 1]));
      TableHasEffects(ts[|ts| - 1]);
    }
  }

  lemma {:induction false} TablesRebuild(ts: seq<Table>)
    ensures FeedAll([], TablesEffects(ts)) == Dumped(ts)
  {
    if ts != [] {
      var n := |ts| - 1;
      TablesRebuild(ts[..n]);
      FeedConcat([], TablesEffects(ts[..n]), TableEffects(ts[n]));
      TableRebuilds(Dumped(ts[..n]), ts[n]);
    }
  }

  // The statements around the tables carry no data.
  lemma FrameDoesNothing()
    ensures Effects(OPENING) == [Nothing, Nothing] && Effects(["COMMIT"]) == [Nothing]
  {
    var a, b := OPENING[0], OPENING[1];
    assert OPENING == [a, b];
    TwoEffects(a, b);
    OthersDoNothing(a);
    OthersDoNothing(b);
    EffectsOne("COMMIT");
    OthersDoNothing("COMMIT");
  }

  lemma DumpRebuilds(ts: seq<Table>)
    requires forall i :: 0 <= i < |ts| ==> Restorable(ts[i])
    ensures Rebuilt(DumpStmts(ts)) == Dumped(ts)
  {
    FrameDoesNothing();
    EffectsConcat(OPENING, TablesStmts(ts));
    EffectsConcat(OPENING + TablesStmts(ts), ["COMMIT"]);
    TablesHaveEffects(ts);
    FramedRebuild(TablesEffects(ts));
    TablesRebuild(ts);
  }

  lemma FramedRebuild(es: seq<Effect>)
    ensures FeedAll([], [Nothing, Nothing] + es + [Nothing]) == FeedAll([], es)
  {
    FeedConcat([], [Nothing, Nothing] + es, [Nothing]);
    FeedConcat([], [Nothing, Nothing], es);
    FeedTwo([], Nothing, Nothing);
    assert [Nothing][..0] == [];
  }

  /** The data comes back: what a restore executes on a dump, read as SQL, rebuilds every table under its
      name and definition with exactly its rows, in order, flags as integers. */
  lemma DumpRestoresData(stamp: string, ts: seq<Table>)
    requires Plain(stamp) && Trimmed(stamp)
    requires forall i :: 0 <= i < |ts| ==> Dumpable(ts[i])
    requires forall i :: 0 <= i < |ts| ==> Restorable(ts[i])
    ensures Rebuilt(Executable(Split(Written(DumpUnits(stamp, ts))))) == Dumped(ts)
  {
    DumpRestoreRoundTrip(stamp, ts);
    DumpRebuilds(ts);
  }
}
