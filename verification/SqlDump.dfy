/**
  SQLite dump and restore: the dump writes statements separated by semicolons, with text values in
  quotes; restore splits the text on the semicolons outside quotes and executes the pieces.
 */
module SqlDump {
  import opened Strings

  const QUOTE: char := '\''

  // ---- Splitting ------------------------------------------------------------------------------------

  datatype Scanner = Scanner(stmts: seq<string>, cur: string, inStr: bool)

  const START := Scanner([], "", false)

  // The plain reading: every quote toggles, a semicolon outside quotes ends the statement.
  function Feed(st: Scanner, ch: char): Scanner {
    if ch == QUOTE then Scanner(st.stmts, st.cur + [ch], !st.inStr)
    else if ch == ';' && !st.inStr then Scanner(st.stmts + [st.cur], "", false)
    else Scanner(st.stmts, st.cur + [ch], st.inStr)
  }

  function Scan(s: string, st: Scanner): Scanner {
    if s == "" then st else Scan(s[1..], Feed(st, s[0]))
  }

  function TrimLeft(s: string): string {
    if s != "" && IsSpace(s[0]) then TrimLeft(s[1..]) else s
  }

  function TrimRight(s: string): string {
    if s != "" && IsSpace(s[|s| - 1]) then TrimRight(s[..|s| - 1]) else s
  }

  function TrimSpace(s: string): string {
    TrimRight(TrimLeft(s))
  }

  function Split(s: string): seq<string> {
    var st := Scan(s, START);
    var remaining := TrimSpace(st.cur);
    if remaining != "" then st.stmts + [remaining] else st.stmts
  }

  /** The byte loop of splitSQL, with its look-ahead for doubled quotes, splits exactly as the plain
      toggling reading does. */
  method SplitSql(s: string) returns (stmts: seq<string>)
    ensures stmts == Split(s)
  {
    stmts := [];
    var cur, inStr := "", false;
    var i := 0;
    while i < |s|
      invariant 0 <= i <= |s|
      invariant Scan(s[i..], Scanner(stmts, cur, inStr)) == Scan(s, START)
    {
      var ch := s[i];
      ghost var st := Scanner(stmts, cur, inStr);
      assert s[i..][1..] == s[i + 1..];
      if ch == QUOTE && !inStr {
        inStr := true;
        cur := cur + [ch];
      } else if ch == QUOTE && inStr {
        cur := cur + [ch];
        if i + 1 < |s| && s[i + 1] == QUOTE {
          i := i + 1;
          assert s[i..][1..] == s[i + 1..];
          cur := cur + [s[i]];
        } else {
          inStr := false;
        }
      } else if ch == ';' && !inStr {
        stmts := stmts + [cur];
        cur := "";
      } else {
        cur := cur + [ch];
      }
      i := i + 1;
    }
    var remaining := TrimSpace(cur);
    if remaining != "" {
      stmts := stmts + [remaining];
    }
  }

  // ---- What Restore executes --------------------------------------------------------------------------

  predicate IsComment(stmt: string) {
    |stmt| >= 2 && stmt[..2] == "--"
  }

  // Blank pieces and comments are skipped.
  function Runs(piece: string): seq<string> {
    var stmt := TrimSpace(piece);
    if stmt == "" || IsComment(stmt) then [] else [stmt]
  }

  lemma TrimLeftSkipsBlanks(s: string)
    ensures TrimLeft(s) == "" <==> Blank(s)
    ensures TrimLeft(s) != "" ==> !IsSpace(TrimLeft(s)[0])
  {
    if s != "" && IsSpace(s[0]) {
      TrimLeftSkipsBlanks(s[1..]);
      assert s == [s[0]] + s[1..];
    }
  }

  lemma TrimRightKeepsFirst(s: string)
    ensures s != "" && !IsSpace(s[0]) ==> TrimRight(s) != ""
    ensures TrimRight("") == ""
  {
  }

  /** A piece is skipped exactly when it is blank or a comment, two dashes being its first text. */
  lemma SkippedExactly(piece: string)
    ensures Runs(piece) == [] <==> Blank(piece) || (exists rest :: TrimSpace(piece) == "--" + rest)
    ensures Runs(piece) != [] ==> Runs(piece) == [TrimSpace(piece)]
  {
    TrimLeftSkipsBlanks(piece);
    TrimRightKeepsFirst(TrimLeft(piece));
    var stmt := TrimSpace(piece);
    if IsComment(stmt) {
      assert stmt == "--" + stmt[2..];
    }
  }

  function Executable(pieces: seq<string>): seq<string> {
    if pieces == [] then [] else Executable(pieces[..|pieces| - 1]) + Runs(pieces[|pieces| - 1])
  }

  // `executed` collects the statements handed to the database, which accepts them all.
  method Restore(dump: string) returns (executed: seq<string>)
    ensures executed == Executable(Split(dump))
  {
    var stmts := SplitSql(dump);
    executed := [];
    for i := 0 to |stmts|
      invariant executed == Executable(stmts[..i])
    {
      var stmt := TrimSpace(stmts[i]);
      assert stmts[..i + 1][..i] == stmts[..i];
      if stmt == "" || IsComment(stmt) {
        continue;
      }
      executed := executed + [stmt];
    }
    assert stmts[..|stmts|] == stmts;
  }

  // ---- Scanning pieces of text --------------------------------------------------------------------------

  lemma {:induction false} ScanConcat(a: string, b: string, st: Scanner)
    ensures Scan(a + b, st) == Scan(b, Scan(a, st))
  {
    if a == "" {
      assert a + b == b;
    } else {
      assert (a + b)[1..] == a[1..] + b;
      ScanConcat(a[1..], b, Feed(st, a[0]));
    }
  }

  // Scanning s, entered with the given quote state, ends no statement and leaves the same state.
  ghost predicate Quiet(s: string, inStr: bool) {
    forall stmts, cur :: Scan(s, Scanner(stmts, cur, inStr)) == Scanner(stmts, cur + s, inStr)
  }

  lemma QuietConcat(a: string, b: string, inStr: bool)
    requires Quiet(a, inStr) && Quiet(b, inStr)
    ensures Quiet(a + b, inStr)
  {
    forall stmts, cur ensures Scan(a + b, Scanner(stmts, cur, inStr)) == Scanner(stmts, cur + (a + b), inStr) {
      ScanConcat(a, b, Scanner(stmts, cur, inStr));
      assert cur + a + b == cur + (a + b);
    }
  }

  lemma {:induction false} PlainScan(s: string, st: Scanner)
    requires forall k :: 0 <= k < |s| ==> s[k] != QUOTE && (s[k] != ';' || st.inStr)
    ensures Scan(s, st) == Scanner(st.stmts, st.cur + s, st.inStr)
  {
    if s == "" {
      assert st.cur + s == st.cur;
    } else {
      PlainScan(s[1..], Feed(st, s[0]));
      assert st.cur + [s[0]] + s[1..] == st.cur + s;
    }
  }

  // Text without quotes or semicolons.
  predicate Plain(s: string) {
    forall k :: 0 <= k < |s| ==> s[k] != QUOTE && s[k] != ';'
  }

  lemma PlainIsQuiet(s: string)
    requires Plain(s)
    ensures Quiet(s, false)
  {
    forall stmts, cur ensures Scan(s, Scanner(stmts, cur, false)) == Scanner(stmts, cur + s, false) {
      PlainScan(s, Scanner(stmts, cur, false));
    }
  }

  // ---- Literals -------------------------------------------------------------------------------------------

  // strings.ReplaceAll(s, "'", "''")
  function Double(s: string): string {
    if s == "" then "" else (if s[0] == QUOTE then [QUOTE, QUOTE] else [s[0]]) + Double(s[1..])
  }

  function QuoteString(s: string): string {
    [QUOTE] + Double(s) + [QUOTE]
  }

  lemma OneCharScan(ch: char, st: Scanner)
    ensures Scan([ch], st) == Feed(st, ch)
  {
    assert [ch][1..] == "";
  }

  lemma {:induction false} DoubledIsQuietInside(s: string)
    ensures Quiet(Double(s), true)
  {
    if s != "" {
      DoubledIsQuietInside(s[1..]);
      var first := if s[0] == QUOTE then [QUOTE, QUOTE] else [s[0]];
      forall stmts, cur ensures Scan(first, Scanner(stmts, cur, true)) == Scanner(stmts, cur + first, true) {
        var st := Scanner(stmts, cur, true);
        if s[0] == QUOTE {
          assert first == [QUOTE] + [QUOTE];
          ScanConcat([QUOTE], [QUOTE], st);
          OneCharScan(QUOTE, st);
          OneCharScan(QUOTE, Feed(st, QUOTE));
          assert cur + [QUOTE] + [QUOTE] == cur + first;
        } else {
          OneCharScan(s[0], st);
        }
      }
      QuietConcat(first, Double(s[1..]), true);
    }
  }

  /** A quoted text never ends a statement, whatever quotes, semicolons or newlines it contains. */
  lemma QuotedIsQuiet(s: string)
    ensures Quiet(QuoteString(s), false)
  {
    DoubledIsQuietInside(s);
    forall stmts, cur
      ensures Scan(QuoteString(s), Scanner(stmts, cur, false)) == Scanner(stmts, cur + QuoteString(s), false)
    {
      QuotedScan(s, stmts, cur);
    }
  }

  lemma QuotedScan(s: string, stmts: seq<string>, cur: string)
    requires Quiet(Double(s), true)
    ensures Scan(QuoteString(s), Scanner(stmts, cur, false)) == Scanner(stmts, cur + QuoteString(s), false)
  {
    var st := Scanner(stmts, cur, false);
    var inside := Scanner(stmts, cur + [QUOTE], true);
    var filled := Scanner(stmts, cur + [QUOTE] + Double(s), true);
    assert Scan([QUOTE], st) == inside by { OneCharScan(QUOTE, st); }
    assert Scan(Double(s), inside) == filled;
    assert Scan([QUOTE] + Double(s), st) == filled by { ScanConcat([QUOTE], Double(s), st); }
    ScanConcat([QUOTE] + Double(s), [QUOTE], st);
    OneCharScan(QUOTE, filled);
    assert cur + [QUOTE] + Double(s) + [QUOTE] == cur + QuoteString(s);
  }

  datatype Value = Null | Int(n: int) | Flag(b: bool) | Text(s: string)

  function Decimal(n: int): string {
    if n < 0 then "-" + Digits(-n) else Digits(n)
  }

  function Literal(v: Value): string {
    match v
    case Null => "NULL"
    case Int(n) => Decimal(n)
    case Flag(b) => if b then "1" else "0"
    case Text(s) => QuoteString(s)
  }

  lemma LiteralIsQuiet(v: Value)
    ensures Quiet(Literal(v), false)
  {
    match v {
      case Text(s) => QuotedIsQuiet(s);
      case _ => PlainIsQuiet(Literal(v));
    }
  }

  // strings.Join(literals, ",")
  function Join(vs: seq<Value>): string {
    if vs == [] then ""
    else if |vs| == 1 then Literal(vs[0])
    else Literal(vs[0]) + "," + Join(vs[1..])
  }

  lemma {:induction false} JoinIsQuiet(vs: seq<Value>)
    ensures Quiet(Join(vs), false)
  {
    if vs == [] {
      PlainIsQuiet("");
    } else {
      LiteralIsQuiet(vs[0]);
      if |vs| > 1 {
        JoinIsQuiet(vs[1..]);
        PlainIsQuiet(",");
        QuietConcat(Literal(vs[0]), ",", false);
        QuietConcat(Literal(vs[0]) + ",", Join(vs[1..]), false);
      }
    }
  }

  // ---- Trimming --------------------------------------------------------------------------------------------

  predicate Trimmed(s: string) {
    s != "" && !IsSpace(s[0]) && !IsSpace(s[|s| - 1])
  }

  lemma {:induction false} TrimBlankPrefix(ws: string, s: string)
    requires Blank(ws) && Trimmed(s)
    ensures TrimSpace(ws + s) == s
  {
    if ws == "" {
      assert ws + s == s;
    } else {
      assert (ws + s)[1..] == ws[1..] + s;
      TrimBlankPrefix(ws[1..], s);
    }
  }

  lemma {:induction false} TrimBlank(ws: string)
    requires Blank(ws)
    ensures TrimSpace(ws) == ""
  {
    if ws != "" {
      TrimBlank(ws[1..]);
    }
  }

  // ---- The text of a sequence of statements ------------------------------------------------------------------

  // A statement as the dump writes it: its text, a semicolon, and blanks up to the next one.
  datatype Unit = Unit(stmt: string, gap: string)

  function Written(us: seq<Unit>): string {
    if us == [] then "" else Written(us[..|us| - 1]) + (us[|us| - 1].stmt + ";" + us[|us| - 1].gap)
  }

  ghost predicate Separable(u: Unit) {
    Quiet(u.stmt, false) && Trimmed(u.stmt) && Blank(u.gap) && Plain(u.gap)
  }

  // The pieces the scanner sees: each statement preceded by the gap of the one before it.
  function Pieces(us: seq<Unit>): seq<string> {
    if us == [] then []
    else
      var n := |us| - 1;
      Pieces(us[..n]) + [LastGap(us[..n]) + us[n].stmt]
  }

  function LastGap(us: seq<Unit>): string {
    if us == [] then "" else us[|us| - 1].gap
  }

  lemma UnitScan(u: Unit, stmts: seq<string>, cur: string)
    requires Separable(u)
    ensures Scan(u.stmt + ";" + u.gap, Scanner(stmts, cur, false)) == Scanner(stmts + [cur + u.stmt], u.gap, false)
  {
    var st := Scanner(stmts, cur, false);
    var full := Scanner(stmts, cur + u.stmt, false);
    var ended := Scanner(stmts + [cur + u.stmt], "", false);
    assert Scan(u.stmt + ";", st) == ended by {
      ScanConcat(u.stmt, ";", st);
      OneCharScan(';', full);
    }
    ScanConcat(u.stmt + ";", u.gap, st);
    PlainScan(u.gap, ended);
    assert "" + u.gap == u.gap;
  }

  lemma {:induction false} WrittenScan(us: seq<Unit>)
    requires forall k :: 0 <= k < |us| ==> Separable(us[k])
    ensures Scan(Written(us), START) == Scanner(Pieces(us), LastGap(us), false)
  {
    if us != [] {
      var n := |us| - 1;
      WrittenScan(us[..n]);
      ScanConcat(Written(us[..n]), us[n].stmt + ";" + us[n].gap, START);
      UnitScan(us[n], Pieces(us[..n]), LastGap(us[..n]));
    }
  }

  function Statements(us: seq<Unit>): seq<string> {
    if us == [] then []
    else
      var n := |us| - 1;
      Statements(us[..n]) + (if IsComment(us[n].stmt) then [] else [us[n].stmt])
  }

  lemma PieceRuns(gap: string, stmt: string)
    requires Blank(gap) && Trimmed(stmt)
    ensures Runs(gap + stmt) == if IsComment(stmt) then [] else [stmt]
  {
    TrimBlankPrefix(gap, stmt);
  }

  lemma {:induction false} PiecesRun(us: seq<Unit>)
    requires forall k :: 0 <= k < |us| ==> Separable(us[k])
    ensures Executable(Pieces(us)) == Statements(us)
  {
    if us != [] {
      var n := |us| - 1;
      PiecesRun(us[..n]);
      PieceRuns(LastGap(us[..n]), us[n].stmt);
      assert Pieces(us)[..|Pieces(us)| - 1] == Pieces(us[..n]);
    }
  }

  /** Splitting and filtering recover exactly the statements that were written, comments aside. */
  lemma SplitUndoesWriting(us: seq<Unit>)
    requires forall k :: 0 <= k < |us| ==> Separable(us[k])
    ensures Executable(Split(Written(us))) == Statements(us)
  {
    WrittenScan(us);
    PiecesRun(us);
    TrimBlank(LastGap(us));
  }

  // ---- The dump ------------------------------------------------------------------------------------------------

  datatype Table = Table(name: string, ddl: string, rows: seq<seq<Value>>)

  function HexDigit(d: int): char
    requires 0 <= d < 16
  {
    if d < 10 then '0' + d as char else 'a' + (d - 10) as char
  }

  // The %q form of a character: quote, backslash and the control characters of ASCII are escaped.
  function EscapeChar(c: char): string {
    if c == '\"' || c == '\\' then ['\\', c]
    else if '\U{07}' <= c <= '\U{0D}' then ['\\', "abtnvfr"[c as int - 7]]
    else if c < ' ' || c == '\U{7F}' then ['\\', 'x', HexDigit(c as int / 16), HexDigit(c as int % 16)]
    else [c]
  }

  function Escape(s: string): string {
    if s == "" then "" else EscapeChar(s[0]) + Escape(s[1..])
  }

  function Identifier(name: string): string {
    "\"" + Escape(name) + "\""
  }

  function DropStmt(t: Table): string {
    "DROP TABLE IF EXISTS " + Identifier(t.name)
  }

  function InsertStmt(t: Table, row: seq<Value>): string {
    "INSERT INTO " + Identifier(t.name) + " VALUES (" + Join(row) + ")"
  }

  function InsertStmts(t: Table, n: nat): seq<string>
    requires n <= |t.rows|
  {
    if n == 0 then [] else InsertStmts(t, n - 1) + [InsertStmt(t, t.rows[n - 1])]
  }

  // A table without DDL is skipped.
  function TableStmts(t: Table): seq<string> {
    if t.ddl == "" then [] else [DropStmt(t), t.ddl] + InsertStmts(t, |t.rows|)
  }

  function TablesStmts(ts: seq<Table>): seq<string> {
    if ts == [] then [] else TablesStmts(ts[..|ts| - 1]) + TableStmts(ts[|ts| - 1])
  }

  const OPENING: seq<string> := ["PRAGMA foreign_keys=OFF", "BEGIN TRANSACTION"]

  // What a restore of the dump should execute.
  function DumpStmts(ts: seq<Table>): seq<string> {
    OPENING + TablesStmts(ts) + ["COMMIT"]
  }

  // Each statement with a newline after its semicolon.
  function Lines(stmts: seq<string>): seq<Unit> {
    if stmts == [] then [] else Lines(stmts[..|stmts| - 1]) + [Unit(stmts[|stmts| - 1], "\n")]
  }

  // One more newline after the last statement.
  function Widen(us: seq<Unit>): seq<Unit> {
    if us == [] then []
    else us[..|us| - 1] + [Unit(us[|us| - 1].stmt, us[|us| - 1].gap + "\n")]
  }

  function HeaderUnits(stamp: string): seq<Unit> {
    [Unit("-- BigBase SQLite dump " + stamp, "\n")] + Widen(Lines(OPENING))
  }

  function TableUnits(t: Table): seq<Unit> {
    if t.ddl == "" then [] else Widen(Widen(Lines([DropStmt(t), t.ddl])) + Lines(InsertStmts(t, |t.rows|)))
  }

  function TablesUnits(ts: seq<Table>): seq<Unit> {
    if ts == [] then [] else TablesUnits(ts[..|ts| - 1]) + TableUnits(ts[|ts| - 1])
  }

  function DumpUnits(stamp: string, ts: seq<Table>): seq<Unit> {
    HeaderUnits(stamp) + TablesUnits(ts) + Lines(["COMMIT"])
  }

  lemma {:induction false} WrittenConcat(us: seq<Unit>, vs: seq<Unit>)
    ensures Written(us + vs) == Written(us) + Written(vs)
    decreases |vs|
  {
    if vs == [] {
      assert us + vs == us;
    } else {
      var n := |vs| - 1;
      assert (us + vs)[..|us + vs| - 1] == us + vs[..n];
      WrittenConcat(us, vs[..n]);
    }
  }

  lemma WrittenSnoc(us: seq<Unit>, u: Unit)
    ensures Written(us + [u]) == Written(us) + (u.stmt + ";" + u.gap)
  {
    assert (us + [u])[..|us|] == us;
  }

  lemma WrittenWiden(us: seq<Unit>)
    requires us != []
    ensures Written(Widen(us)) == Written(us) + "\n"
  {
    var n := |us| - 1;
    assert Widen(us)[..n] == us[..n];
    assert us[n].stmt + ";" + (us[n].gap + "\n") == (us[n].stmt + ";" + us[n].gap) + "\n";
  }

  lemma LinesSnoc(stmts: seq<string>, s: string)
    ensures Lines(stmts + [s]) == Lines(stmts) + [Unit(s, "\n")]
  {
    assert (stmts + [s])[..|stmts|] == stmts;
  }

  lemma OneMoreRow(t: Table, n: nat)
    requires n < |t.rows|
    ensures Written(Lines(InsertStmts(t, n + 1))) == Written(Lines(InsertStmts(t, n))) + (InsertStmt(t, t.rows[n]) + ";" + "\n")
  {
    var insert := InsertStmt(t, t.rows[n]);
    LinesSnoc(InsertStmts(t, n), insert);
    WrittenSnoc(Lines(InsertStmts(t, n)), Unit(insert, "\n"));
  }

  method DumpRows(t: Table) returns (out: string)
    ensures out == Written(Lines(InsertStmts(t, |t.rows|)))
  {
    out := "";
    for i := 0 to |t.rows|
      invariant out == Written(Lines(InsertStmts(t, i)))
    {
      OneMoreRow(t, i);
      out := out + (InsertStmt(t, t.rows[i]) + ";" + "\n");
    }
  }

  lemma TableText(t: Table)
    requires t.ddl != ""
    ensures Written(TableUnits(t)) ==
      (DropStmt(t) + ";" + "\n") + (t.ddl + ";" + ("\n" + "\n")) + Written(Lines(InsertStmts(t, |t.rows|))) + "\n"
  {
    var head, rows := Widen(Lines([DropStmt(t), t.ddl])), Lines(InsertStmts(t, |t.rows|));
    OpeningLines(DropStmt(t), t.ddl);
    WrittenConcat(head, rows);
    WrittenWiden(head + rows);
  }

  method DumpTable(t: Table) returns (out: string)
    ensures out == Written(TableUnits(t))
  {
    if t.ddl == "" {
      return "";
    }
    out := (DropStmt(t) + ";" + "\n") + (t.ddl + ";" + ("\n" + "\n"));
    var rows := DumpRows(t);
    TableText(t);
    out := out + rows + "\n";
  }

  method Dump(stamp: string, ts: seq<Table>) returns (out: string)
    ensures out == Written(DumpUnits(stamp, ts))
  {
    HeaderLines(stamp);
    out := ("-- BigBase SQLite dump " + stamp + ";" + "\n") + ((OPENING[0] + ";" + "\n") + (OPENING[1] + ";" + ("\n" + "\n")));
    for i := 0 to |ts|
      invariant out == Written(HeaderUnits(stamp) + TablesUnits(ts[..i]))
    {
      var table := DumpTable(ts[i]);
      TableExtendsUnits(HeaderUnits(stamp), ts, i);
      out := out + table;
    }
    assert ts[..|ts|] == ts;
    FooterLine(HeaderUnits(stamp) + TablesUnits(ts));
    out := out + ("COMMIT" + ";" + "\n");
  }

  lemma WrittenOne(stmt: string, gap: string)
    ensures Written([Unit(stmt, gap)]) == stmt + ";" + gap
  {
    WrittenSnoc([], Unit(stmt, gap));
    assert [] + [Unit(stmt, gap)] == [Unit(stmt, gap)];
  }

  lemma HeaderLines(stamp: string)
    ensures Written(HeaderUnits(stamp) + TablesUnits([]))
      == ("-- BigBase SQLite dump " + stamp + ";" + "\n") + ((OPENING[0] + ";" + "\n") + (OPENING[1] + ";" + ("\n" + "\n")))
  {
    HeaderGlue("-- BigBase SQLite dump " + stamp);
    OpeningLines(OPENING[0], OPENING[1]);
    assert OPENING == [OPENING[0], OPENING[1]];
  }

  lemma HeaderGlue(comment: string)
    ensures Written([Unit(comment, "\n")] + Widen(Lines(OPENING)) + TablesUnits([]))
      == comment + ";" + "\n" + Written(Widen(Lines(OPENING)))
  {
    var u, rest := Unit(comment, "\n"), Widen(Lines(OPENING));
    assert [u] + rest + TablesUnits([]) == [u] + rest;
    WrittenConcat([u], rest);
    WrittenOne(comment, "\n");
  }

  lemma TablesUnitsSnoc(ts: seq<Table>, i: nat)
    requires i < |ts|
    ensures TablesUnits(ts[..i + 1]) == TablesUnits(ts[..i]) + TableUnits(ts[i])
  {
    assert ts[..i + 1][..i] == ts[..i];
  }

  lemma UnitsAssociate(a: seq<Unit>, b: seq<Unit>, c: seq<Unit>)
    ensures a + (b + c) == a + b + c
  {
  }

  lemma TableExtendsUnits(head: seq<Unit>, ts: seq<Table>, i: nat)
    requires i < |ts|
    ensures Written(head + TablesUnits(ts[..i + 1])) == Written(head + TablesUnits(ts[..i])) + Written(TableUnits(ts[i]))
  {
    TablesUnitsSnoc(ts, i);
    UnitsAssociate(head, TablesUnits(ts[..i]), TableUnits(ts[i]));
    WrittenConcat(head + TablesUnits(ts[..i]), TableUnits(ts[i]));
  }

  lemma FooterLine(us: seq<Unit>)
    ensures Written(us + Lines(["COMMIT"])) == Written(us) + ("COMMIT" + ";" + "\n")
  {
    LinesSnoc([], "COMMIT");
    assert [] + ["COMMIT"] == ["COMMIT"];
    assert Lines(["COMMIT"]) == [Unit("COMMIT", "\n")];
    WrittenSnoc(us, Unit("COMMIT", "\n"));
  }

  lemma TwoLines(a: string, b: string)
    ensures Widen(Lines([a, b])) == [Unit(a, "\n")] + [Unit(b, "\n" + "\n")]
  {
    assert [a, b][..1] == [a] && [a][..0] == [];
    assert Lines([a]) == [Unit(a, "\n")];
    assert Lines([a, b]) == [Unit(a, "\n"), Unit(b, "\n")];
    assert Lines([a, b])[..1] == [Unit(a, "\n")];
  }

  lemma OpeningLines(a: string, b: string)
    ensures Written(Widen(Lines([a, b]))) == (a + ";" + "\n") + (b + ";" + ("\n" + "\n"))
  {
    TwoLines(a, b);
    WrittenSnoc([Unit(a, "\n")], Unit(b, "\n" + "\n"));
    WrittenOne(a, "\n");
  }

  // ---- The round trip --------------------------------------------------------------------------------------------

  // Table names and DDL that keep quotes balanced and semicolons inside them.
  ghost predicate Dumpable(t: Table) {
    && Quiet(Identifier(t.name), false)
    && (t.ddl != "" ==> Quiet(t.ddl, false) && Trimmed(t.ddl) && !IsComment(t.ddl))
  }

  ghost predicate AllSeparable(us: seq<Unit>) {
    forall k :: 0 <= k < |us| ==> Separable(us[k])
  }

  // A statement that stands on its own in a dump.
  ghost predicate Sound(s: string) {
    Quiet(s, false) && Trimmed(s) && !IsComment(s)
  }

  ghost predicate AllSound(ss: seq<string>) {
    forall k :: 0 <= k < |ss| ==> Sound(ss[k])
  }

  lemma {:induction false} SoundLines(ss: seq<string>)
    requires AllSound(ss)
    ensures AllSeparable(Lines(ss)) && Statements(Lines(ss)) == ss
  {
    if ss != [] {
      var n := |ss| - 1;
      SoundLines(ss[..n]);
      assert Lines(ss)[..|Lines(ss)| - 1] == Lines(ss[..n]);
    }
  }

  lemma WidenKeeps(us: seq<Unit>)
    requires AllSeparable(us)
    ensures AllSeparable(Widen(us)) && Statements(Widen(us)) == Statements(us)
  {
    if us != [] {
      var n := |us| - 1;
      assert Widen(us)[..n] == us[..n];
    }
  }

  lemma {:induction false} StatementsConcat(us: seq<Unit>, vs: seq<Unit>)
    ensures Statements(us + vs) == Statements(us) + Statements(vs)
    decreases |vs|
  {
    if vs == [] {
      assert us + vs == us;
    } else {
      var n := |vs| - 1;
      assert (us + vs)[..|us + vs| - 1] == us + vs[..n];
      StatementsConcat(us, vs[..n]);
    }
  }

  lemma DropIsSound(t: Table)
    requires Quiet(Identifier(t.name), false)
    ensures Sound(DropStmt(t))
  {
    PlainIsQuiet("DROP TABLE IF EXISTS ");
    QuietConcat("DROP TABLE IF EXISTS ", Identifier(t.name), false);
    assert DropStmt(t)[0] == 'D';
    assert DropStmt(t)[|DropStmt(t)| - 1] == '\"';
  }

  lemma InsertIsSound(t: Table, row: seq<Value>)
    requires Quiet(Identifier(t.name), false)
    ensures Sound(InsertStmt(t, row))
  {
    var a, b := "INSERT INTO ", " VALUES (";
    PlainIsQuiet(a);
    PlainIsQuiet(b);
    PlainIsQuiet(")");
    JoinIsQuiet(row);
    QuietConcat(a, Identifier(t.name), false);
    QuietConcat(a + Identifier(t.name), b, false);
    QuietConcat(a + Identifier(t.name) + b, Join(row), false);
    QuietConcat(a + Identifier(t.name) + b + Join(row), ")", false);
    assert InsertStmt(t, row)[0] == 'I';
  }

  lemma {:induction false} InsertsAreSound(t: Table, n: nat)
    requires Quiet(Identifier(t.name), false) && n <= |t.rows|
    ensures AllSound(InsertStmts(t, n))
  {
    if n > 0 {
      InsertsAreSound(t, n - 1);
      InsertIsSound(t, t.rows[n - 1]);
    }
  }

  lemma TableRoundTrip(t: Table)
    requires Dumpable(t)
    ensures AllSeparable(TableUnits(t)) && Statements(TableUnits(t)) == TableStmts(t)
  {
    if t.ddl != "" {
      var first, inserts := [DropStmt(t), t.ddl], InsertStmts(t, |t.rows|);
      DropIsSound(t);
      InsertsAreSound(t, |t.rows|);
      SoundLines(first);
      SoundLines(inserts);
      WidenKeeps(Lines(first));
      StatementsConcat(Widen(Lines(first)), Lines(inserts));
      WidenKeeps(Widen(Lines(first)) + Lines(inserts));
    }
  }

  lemma {:induction false} TablesRoundTrip(ts: seq<Table>)
    requires forall k :: 0 <= k < |ts| ==> Dumpable(ts[k])
    ensures AllSeparable(TablesUnits(ts)) && Statements(TablesUnits(ts)) == TablesStmts(ts)
  {
    if ts != [] {
      var n := |ts| - 1;
      TablesRoundTrip(ts[..n]);
      TableRoundTrip(ts[n]);
      StatementsConcat(TablesUnits(ts[..n]), TableUnits(ts[n]));
    }
  }

  lemma PlainIsSound(s: string)
    requires Plain(s) && Trimmed(s) && !IsComment(s)
    ensures Sound(s)
  {
    PlainIsQuiet(s);
  }

  lemma FixedStmtsAreSound()
    ensures AllSound(OPENING) && AllSound(["COMMIT"])
  {
    var a, b := "PRAGMA foreign_keys=OFF", "BEGIN TRANSACTION";
    assert a[..2][0] == 'P' && b[..2][0] == 'B' && "COMMIT"[..2][0] == 'C';
    PlainIsSound(a);
    PlainIsSound(b);
    PlainIsSound("COMMIT");
    assert OPENING == [a, b];
  }

  lemma CommentVanishes(comment: string)
    requires IsComment(comment)
    ensures Statements([Unit(comment, "\n")]) == []
  {
    assert [Unit(comment, "\n")][..0] == [];
  }

  lemma CommentIsSeparable(intro: string, stamp: string)
    requires Plain(intro) && |intro| >= 2 && intro[..2] == "--" && !IsSpace(intro[0])
    requires Plain(stamp) && Trimmed(stamp)
    ensures Separable(Unit(intro + stamp, "\n")) && IsComment(intro + stamp)
  {
    var comment := intro + stamp;
    PlainIsQuiet(comment);
    assert comment[..2] == intro[..2];
    assert comment[0] == intro[0] && comment[|comment| - 1] == stamp[|stamp| - 1];
  }

  lemma HeaderRoundTrip(stamp: string)
    requires Plain(stamp) && Trimmed(stamp)
    ensures AllSeparable(HeaderUnits(stamp)) && Statements(HeaderUnits(stamp)) == OPENING
  {
    var intro := "-- BigBase SQLite dump ";
    assert intro[..2] == "--";
    CommentIsSeparable(intro, stamp);
    OpeningRoundTrip();
    CommentVanishes(intro + stamp);
    AssembleTwo([Unit(intro + stamp, "\n")], Widen(Lines(OPENING)));
  }

  lemma OpeningRoundTrip()
    ensures AllSeparable(Widen(Lines(OPENING))) && Statements(Widen(Lines(OPENING))) == OPENING
  {
    FixedStmtsAreSound();
    SoundLines(OPENING);
    WidenKeeps(Lines(OPENING));
  }

  lemma AssembleTwo(us: seq<Unit>, vs: seq<Unit>)
    requires AllSeparable(us) && AllSeparable(vs)
    ensures AllSeparable(us + vs) && Statements(us + vs) == Statements(us) + Statements(vs)
  {
    StatementsConcat(us, vs);
  }

  /** Dump, then restore: for any rows of NULLs, integers, flags and arbitrary text, the statements
      executed are exactly the ones dumped, in order. */
  lemma DumpRestoreRoundTrip(stamp: string, ts: seq<Table>)
    requires Plain(stamp) && Trimmed(stamp)
    requires forall k :: 0 <= k < |ts| ==> Dumpable(ts[k])
    ensures Executable(Split(Written(DumpUnits(stamp, ts)))) == DumpStmts(ts)
  {
    HeaderRoundTrip(stamp);
    TablesRoundTrip(ts);
    FixedStmtsAreSound();
    SoundLines(["COMMIT"]);
    AssembleTwo(HeaderUnits(stamp), TablesUnits(ts));
    AssembleTwo(HeaderUnits(stamp) + TablesUnits(ts), Lines(["COMMIT"]));
    SplitUndoesWriting(DumpUnits(stamp, ts));
  }

  /** The same for the two loops: what Restore executes on the output of Dump. */
  method DumpThenRestore(stamp: string, ts: seq<Table>) returns (executed: seq<string>)
    requires Plain(stamp) && Trimmed(stamp)
    requires forall k :: 0 <= k < |ts| ==> Dumpable(ts[k])
    ensures executed == DumpStmts(ts)
  {
    var text := Dump(stamp, ts);
    executed := Restore(text);
    DumpRestoreRoundTrip(stamp, ts);
  }
}
