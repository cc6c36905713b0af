/**
  Tenant scoping of a read-only query: the text rewriting that adds `org_id = ?` to a single-table
  SELECT, and what the rewritten text means.
 */
module SqlScope {
  import opened Common
  import opened SqlCondition

  // ---- Searches in the text (strings.Index with surrounding blanks) -----------------------------------

  // The pattern stands at position i with a lexeme before and after it.
  predicate MatchesAt(ts: Text, pat: Text, i: int) {
    1 <= i && i + |pat| < |ts| && ts[i..i + |pat|] == pat
  }

  // First match at or after `from`, or |ts|.
  function Index(ts: Text, pat: Text, from: nat): (i: nat)
    requires from <= |ts|
    ensures from <= i <= |ts|
    ensures i < |ts| ==> MatchesAt(ts, pat, i)
    ensures forall j :: from <= j < i ==> !MatchesAt(ts, pat, j)
    decreases |ts| - from
  {
    if from == |ts| || MatchesAt(ts, pat, from) then from else Index(ts, pat, from + 1)
  }

  // The clauses in front of which the condition is inserted.
  const TAIL_PATTERNS: seq<Text> := [[GROUP, BY], [HAVING], [ORDER, BY], [LIMIT]]

  predicate TailAt(ts: Text, i: int) {
    || MatchesAt(ts, [GROUP, BY], i)
    || MatchesAt(ts, [HAVING], i)
    || MatchesAt(ts, [ORDER, BY], i)
    || MatchesAt(ts, [LIMIT], i)
  }

  // The first tail clause, or the end of the text.
  function TailIndex(ts: Text, from: nat): (i: nat)
    requires from <= |ts|
    ensures from <= i <= |ts|
    ensures i < |ts| ==> TailAt(ts, i)
    ensures forall j :: from <= j < i ==> !TailAt(ts, j)
    decreases |ts| - from
  {
    if from == |ts| || TailAt(ts, from) then from else TailIndex(ts, from + 1)
  }

  // ---- The rewriting ------------------------------------------------------------------------------------

  // Panics: the slice of the condition has its bounds the wrong way round, because a tail clause
  // follows WHERE immediately.
  datatype Scoped = Scoped(text: Text) | Panics

  function Scope(ts: Text): Scoped {
    var insertPoint := TailIndex(ts, 0);
    var whereIdx := Index(ts, [WHERE], 0);
    if whereIdx < insertPoint then
      if whereIdx + 1 == insertPoint then Panics
      else
        Scoped(ts[..whereIdx] + [WHERE, Open] + ts[whereIdx + 1..insertPoint] + [Close, AND] + ORG_CONDITION
                 + ts[insertPoint..])
    else Scoped(ts[..insertPoint] + [WHERE] + ORG_CONDITION + ts[insertPoint..])
  }

  // The search for the insertion point as the code does it: the least hit over the four patterns.
  method ScopeQueryForOrg(ts: Text) returns (r: Scoped)
    ensures r == Scope(ts)
  {
    var insertPoint := |ts|;
    for k := 0 to |TAIL_PATTERNS|
      invariant 0 <= insertPoint <= |ts|
      invariant insertPoint < |ts| ==> TailAt(ts, insertPoint)
      invariant forall j, m :: 0 <= j < insertPoint && 0 <= m < k ==> !MatchesAt(ts, TAIL_PATTERNS[m], j)
    {
      var idx := Index(ts, TAIL_PATTERNS[k], 0);
      if idx < |ts| && idx < insertPoint {
        assert MatchesAt(ts, TAIL_PATTERNS[k], idx);
        insertPoint := idx;
      }
    }
    LeastTail(ts, insertPoint);
    var whereIdx := Index(ts, [WHERE], 0);
    if whereIdx < |ts| && whereIdx < insertPoint {
      if whereIdx + 1 == insertPoint {
        return Panics;
      }
      return Scoped(ts[..whereIdx] + [WHERE, Open] + ts[whereIdx + 1..insertPoint] + [Close, AND] + ORG_CONDITION
                      + ts[insertPoint..]);
    }
    return Scoped(ts[..insertPoint] + [WHERE] + ORG_CONDITION + ts[insertPoint..]);
  }

  lemma LeastTail(ts: Text, i: nat)
    requires i <= |ts| && (i < |ts| ==> TailAt(ts, i))
    requires forall j, m :: 0 <= j < i && 0 <= m < |TAIL_PATTERNS| ==> !MatchesAt(ts, TAIL_PATTERNS[m], j)
    ensures TailIndex(ts, 0) == i
  {
    forall j | 0 <= j < i ensures !TailAt(ts, j) {
      assert !MatchesAt(ts, TAIL_PATTERNS[0], j) && !MatchesAt(ts, TAIL_PATTERNS[1], j);
      assert !MatchesAt(ts, TAIL_PATTERNS[2], j) && !MatchesAt(ts, TAIL_PATTERNS[3], j);
    }
  }

  // ---- Queries of the simple grammar ---------------------------------------------------------------------

  // SELECT items FROM table [WHERE condition] [GROUP BY .. | HAVING .. | ORDER BY .. | LIMIT ..]
  datatype Query = Query(items: Text, table: string, condition: Option<Text>, tail: Text)

  // Lexemes that may occur in a select list or a condition.
  predicate Plain(l: Lexeme) {
    l.Word? || l.Open? || l.Close? || l.AND? || l.OR? || l.NOT? || l.BETWEEN?
  }

  predicate AllPlain(ts: Text) {
    forall k :: 0 <= k < |ts| ==> Plain(ts[k])
  }

  predicate StartsTail(tail: Text) {
    || (|tail| >= 3 && (tail[..2] == [GROUP, BY] || tail[..2] == [ORDER, BY]))
    || (|tail| >= 2 && (tail[0] == HAVING || tail[0] == LIMIT))
  }

  predicate Blocked(l: Lexeme) {
    l.JOIN? || l.UNION? || l.INTERSECT? || l.EXCEPT? || l.WITH?
  }

  // Any text may stand as the condition; whether it is one is another matter.
  predicate Shaped(q: Query) {
    && q.items != [] && AllPlain(q.items)
    && (q.condition.Some? ==> q.condition.value != [] && AllPlain(q.condition.value))
    && (q.tail != [] ==> StartsTail(q.tail))
    && forall k :: 0 <= k < |q.tail| ==> !Blocked(q.tail[k]) && !q.tail[k].SELECT?
  }

  predicate WellFormed(q: Query) {
    Shaped(q) && (q.condition.Some? ==> IsCondition(q.condition.value))
  }

  function Head(q: Query): Text {
    [SELECT] + q.items + [FROM, Word(q.table)]
  }

  function Clause(q: Query): Text {
    if q.condition.Some? then [WHERE] + q.condition.value else []
  }

  function Render(q: Query): Text {
    Head(q) + Clause(q) + q.tail
  }

  // ---- Meaning of a query ---------------------------------------------------------------------------------

  // A row passes if the condition is true on it, not merely unknown.
  predicate Keeps<Row>(condition: Option<Text>, atom: (Text, Row) -> Truth, row: Row)
    requires condition.Some? ==> IsCondition(condition.value)
  {
    condition.None? || Holds(ParseOr(condition.value, 0).e, atom, row) == True
  }

  // The rows the condition lets through, in table order.
  function Selected<Row>(condition: Option<Text>, atom: (Text, Row) -> Truth, rows: seq<Row>): seq<Row>
    requires condition.Some? ==> IsCondition(condition.value)
  {
    if rows == [] then []
    else
      var n := |rows| - 1;
      Selected(condition, atom, rows[..n])
        + (if Keeps(condition, atom, rows[n]) then [rows[n]] else [])
  }

  // Select list and tail clauses work on the selected rows, in any way whatever.
  function Answer<Row, Result>(q: Query, atom: (Text, Row) -> Truth, finish: (Text, Text, seq<Row>) -> Result,
                               rows: seq<Row>): Result
    requires WellFormed(q)
  {
    finish(q.items, q.tail, Selected(q.condition, atom, rows))
  }

  // The rows of the organisation: those whose org_id equals the bound argument.
  function OrgRows<Row>(atom: (Text, Row) -> Truth, rows: seq<Row>): seq<Row> {
    if rows == [] then []
    else
      var n := |rows| - 1;
      OrgRows(atom, rows[..n]) + (if atom(ORG_CONDITION, rows[n]) == True then [rows[n]] else [])
  }

  // ---- The rewriting preserves meaning --------------------------------------------------------------------

  function ScopedQuery(q: Query): Query {
    q.(condition := Some(if q.condition.Some? then ScopedCondition(q.condition.value) else ORG_CONDITION))
  }

  predicate TailWord(l: Lexeme) {
    l.GROUP? || l.HAVING? || l.ORDER? || l.LIMIT?
  }

  lemma TailAtNeedsTailWord(ts: Text, i: int)
    ensures TailAt(ts, i) ==> 1 <= i < |ts| && TailWord(ts[i])
  {
    if MatchesAt(ts, [GROUP, BY], i) { assert ts[i] == ts[i..i + 2][0]; }
    if MatchesAt(ts, [HAVING], i) { assert ts[i] == ts[i..i + 1][0]; }
    if MatchesAt(ts, [ORDER, BY], i) { assert ts[i] == ts[i..i + 2][0]; }
    if MatchesAt(ts, [LIMIT], i) { assert ts[i] == ts[i..i + 1][0]; }
  }

  lemma NoTailBefore(q: Query, j: nat)
    requires Shaped(q) && j < |Head(q) + Clause(q)|
    ensures !TailAt(Render(q), j)
  {
    TailAtNeedsTailWord(Render(q), j);
    assert Render(q)[j] == (Head(q) + Clause(q))[j];
  }

  lemma TailAtTail(before: Text, tail: Text)
    requires before != [] && StartsTail(tail)
    ensures TailAt(before + tail, |before|)
  {
    var ts, n := before + tail, |before|;
    if tail[0] == HAVING || tail[0] == LIMIT {
      assert ts[n..n + 1] == [tail[0]];
    } else {
      assert ts[n..n + 2] == tail[..2];
    }
  }

  lemma TailFoundAtTail(q: Query)
    requires Shaped(q)
    ensures TailIndex(Render(q), 0) == |Head(q) + Clause(q)|
  {
    forall j: nat | j < |Head(q) + Clause(q)| ensures !TailAt(Render(q), j) {
      NoTailBefore(q, j);
    }
    if q.tail != [] {
      TailAtTail(Head(q) + Clause(q), q.tail);
    }
  }

  lemma MatchNeedsLexeme(ts: Text, l: Lexeme, i: int)
    ensures MatchesAt(ts, [l], i) ==> 1 <= i < |ts| && ts[i] == l
  {
    if MatchesAt(ts, [l], i) { assert ts[i] == ts[i..i + 1][0]; }
  }

  lemma WhereFound(q: Query)
    requires Shaped(q)
    ensures var w := Index(Render(q), [WHERE], 0);
      if q.condition.Some? then w == |Head(q)| else w >= |Head(q)|
  {
    var ts := Render(q);
    var n := |Head(q)|;
    forall j | 0 <= j < n ensures !MatchesAt(ts, [WHERE], j) {
      assert ts[j] == Head(q)[j];
      MatchNeedsLexeme(ts, WHERE, j);
    }
    if q.condition.Some? {
      assert ts[n..n + 1] == [WHERE];
      assert MatchesAt(ts, [WHERE], n);
    }
  }

  lemma HeadShows(q: Query)
    ensures |Render(q)| >= |q.items| + 3
    ensures Render(q)[1..|q.items| + 1] == q.items
    ensures Render(q)[|q.items| + 1] == FROM && Render(q)[|q.items| + 2] == Word(q.table)
  {
  }

  lemma ItemsNotShorter(p: Query, q: Query)
    requires Shaped(p) && Shaped(q) && Render(p) == Render(q)
    ensures |p.items| >= |q.items|
  {
    HeadShows(p);
    HeadShows(q);
    forall k | 1 <= k <= |q.items| ensures Plain(Render(q)[k]) {
      assert Render(q)[1..|q.items| + 1][k - 1] == q.items[k - 1];
    }
  }

  lemma SameItems(p: Query, q: Query)
    requires Shaped(p) && Shaped(q) && Render(p) == Render(q)
    ensures p.items == q.items && p.table == q.table
  {
    ItemsNotShorter(p, q);
    ItemsNotShorter(q, p);
    HeadShows(p);
    HeadShows(q);
  }

  /** The grammar is unambiguous: a text is the text of at most one query. */
  lemma RenderIsInjective(p: Query, q: Query)
    requires Shaped(p) && Shaped(q) && Render(p) == Render(q)
    ensures p == q
  {
    SameItems(p, q);
    TailFoundAtTail(p);
    TailFoundAtTail(q);
    var n, m := |Head(p)|, |Head(p) + Clause(p)|;
    assert Render(p)[m..] == p.tail && Render(q)[m..] == q.tail;
    assert Render(p)[n..m] == Clause(p) && Render(q)[n..m] == Clause(q);
    if p.condition.Some? {
      assert Clause(p)[1..] == p.condition.value && Clause(q)[1..] == q.condition.value;
    }
  }

  /** The rewriting panics exactly on texts whose first tail clause follows their WHERE immediately. */
  lemma PanicsExactlyOnEmptyCondition(ts: Text)
    ensures Scope(ts).Panics? <==>
      exists w: nat :: MatchesAt(ts, [WHERE], w) && TailAt(ts, w + 1)
        && (forall j :: 0 <= j <= w ==> !TailAt(ts, j)) && (forall j :: 0 <= j < w ==> !MatchesAt(ts, [WHERE], j))
  {
    var w := Index(ts, [WHERE], 0);
    if Scope(ts).Panics? {
      MatchNeedsLexeme(ts, WHERE, w);
      assert MatchesAt(ts, [WHERE], w) && TailAt(ts, w + 1);
    }
  }

  /** ... of which `SELECT * FROM t WHERE GROUP BY x` is one. */
  lemma EmptyConditionPanics()
    ensures Scope([SELECT, Word("*"), FROM, Word("t"), WHERE, GROUP, BY, Word("x")]).Panics?
  {
    var ts := [SELECT, Word("*"), FROM, Word("t"), WHERE, GROUP, BY, Word("x")];
    assert ts[4..5] == [WHERE] && ts[5..7] == [GROUP, BY];
    assert MatchesAt(ts, [WHERE], 4) && TailAt(ts, 5);
    forall j | 0 <= j < 5 ensures !TailAt(ts, j) && (j < 4 ==> !MatchesAt(ts, [WHERE], j)) {
      TailAtNeedsTailWord(ts, j);
      MatchNeedsLexeme(ts, WHERE, j);
    }
    PanicsExactlyOnEmptyCondition(ts);
  }

  /** The text rewriting turns the text of a query into the text of its scoped query, and never
      panics on one. */
  lemma ScopeRewritesText(q: Query)
    requires Shaped(q)
    ensures Scope(Render(q)) == Scoped(Render(ScopedQuery(q)))
  {
    TailFoundAtTail(q);
    WhereFound(q);
    if q.condition.Some? {
      CutConditioned(Head(q), q.condition.value, q.tail);
      GlueConditioned(Head(q), q.condition.value, q.tail);
    } else {
      var ts, n := Render(q), |Head(q)|;
      assert Head(q) + [] == Head(q);
      assert ts[..n] == Head(q) && ts[n..] == q.tail;
      assert Head(q) + [WHERE] + ORG_CONDITION == Head(q) + ([WHERE] + ORG_CONDITION);
    }
  }

  lemma CutConditioned(head: Text, c: Text, tail: Text)
    ensures var ts := head + ([WHERE] + c) + tail;
      var n := |head| + 1 + |c|;
      ts[..|head|] == head && ts[|head| + 1..n] == c && ts[n..] == tail
  {
  }

  lemma GlueConditioned(head: Text, c: Text, tail: Text)
    ensures head + [WHERE, Open] + c + [Close, AND] + ORG_CONDITION + tail
         == head + ([WHERE] + ScopedCondition(c)) + tail
  {
    assert [WHERE] + ([Open] + c + [Close, AND] + ORG_CONDITION) == [WHERE, Open] + c + [Close, AND] + ORG_CONDITION;
  }

  lemma ScopedIsWellFormed(q: Query)
    requires WellFormed(q)
    ensures WellFormed(ScopedQuery(q))
  {
    if q.condition.Some? {
      ScopedConditionParses(q.condition.value);
    } else {
      OrgConditionParses(ORG_CONDITION, 0);
    }
  }

  lemma SelectedSnoc<Row>(condition: Option<Text>, atom: (Text, Row) -> Truth, rows: seq<Row>, row: Row)
    requires condition.Some? ==> IsCondition(condition.value)
    ensures Selected(condition, atom, rows + [row])
         == Selected(condition, atom, rows) + (if Keeps(condition, atom, row) then [row] else [])
  {
    assert (rows + [row])[..|rows|] == rows;
  }

  lemma OrgRowsSnoc<Row>(atom: (Text, Row) -> Truth, rows: seq<Row>, row: Row)
    ensures OrgRows(atom, rows + [row])
         == if atom(ORG_CONDITION, row) == True then OrgRows(atom, rows) + [row] else OrgRows(atom, rows)
  {
    assert (rows + [row])[..|rows|] == rows;
  }

  // A condition that keeps just the organisation's rows among those another one keeps.
  lemma {:induction false} SelectsOrgRows<Row>(narrow: Option<Text>, wide: Option<Text>, atom: (Text, Row) -> Truth, rows: seq<Row>)
    requires (narrow.Some? ==> IsCondition(narrow.value)) && (wide.Some? ==> IsCondition(wide.value))
    requires forall k :: 0 <= k < |rows| ==>
      (Keeps(narrow, atom, rows[k]) <==> Keeps(wide, atom, rows[k]) && atom(ORG_CONDITION, rows[k]) == True)
    ensures Selected(narrow, atom, rows) == Selected(wide, atom, OrgRows(atom, rows))
  {
    if rows != [] {
      var n := |rows| - 1;
      var before, row := rows[..n], rows[n];
      assert rows == before + [row];
      SelectsOrgRows(narrow, wide, atom, before);
      SelectedSnoc(narrow, atom, before, row);
      OrgRowsSnoc(atom, before, row);
      SelectedSnoc(wide, atom, OrgRows(atom, before), row);
    }
  }

  lemma ScopedSelectsOrgRows<Row>(q: Query, atom: (Text, Row) -> Truth, rows: seq<Row>)
    requires WellFormed(q) && WellFormed(ScopedQuery(q))
    ensures Selected(ScopedQuery(q).condition, atom, rows) == Selected(q.condition, atom, OrgRows(atom, rows))
  {
    forall k | 0 <= k < |rows|
      ensures Keeps(ScopedQuery(q).condition, atom, rows[k])
         <==> Keeps(q.condition, atom, rows[k]) && atom(ORG_CONDITION, rows[k]) == True
    {
      ScopedKeepsRow(q, atom, rows[k]);
    }
    SelectsOrgRows(ScopedQuery(q).condition, q.condition, atom, rows);
  }

  lemma ScopedKeepsRow<Row>(q: Query, atom: (Text, Row) -> Truth, row: Row)
    requires WellFormed(q) && WellFormed(ScopedQuery(q))
    ensures Keeps(ScopedQuery(q).condition, atom, row)
      <==> Keeps(q.condition, atom, row) && atom(ORG_CONDITION, row) == True
  {
    if q.condition.Some? {
      var e := ParseOr(q.condition.value, 0).e;
      ScopedConditionParses(q.condition.value);
      assert Holds(And(e, Atom(ORG_CONDITION)), atom, row)
        == Both(Holds(e, atom, row), Holds(Atom(ORG_CONDITION), atom, row));
    } else {
      OrgConditionParses(ORG_CONDITION, 0);
    }
  }

  /** Tenant scoping preserves meaning: for every text of the shape of a query whose condition is one,
      every table, every reading of the comparisons and of the select list and tail clauses, the
      rewritten query on the table answers what the original answers on the organisation's own rows.
      (A text whose condition is none has no answer of its own; SqlIsolation says what its rewriting
      selects.) */
  lemma ScopingPreservesMeaning<Row, Result>(q: Query, atom: (Text, Row) -> Truth,
                                             finish: (Text, Text, seq<Row>) -> Result, rows: seq<Row>)
    requires Shaped(q)
    ensures Scope(Render(q)) == Scoped(Render(ScopedQuery(q)))
    ensures WellFormed(q) ==>
      && WellFormed(ScopedQuery(q))
      && Answer(ScopedQuery(q), atom, finish, rows) == Answer(q, atom, finish, OrgRows(atom, rows))
  {
    ScopeRewritesText(q);
    if WellFormed(q) {
      ScopedIsWellFormed(q);
      ScopedSelectsOrgRows(q, atom, rows);
    }
  }

  // ---- The guards in front of the rewriting -----------------------------------------------------------------

  function Selects(ts: Text): nat {
    if ts == [] then 0 else Selects(ts[1..]) + (if ts[0].SELECT? then 1 else 0)
  }

  predicate IsSimpleQuery(ts: Text) {
    (forall k :: 0 <= k < |ts| ==> !Blocked(ts[k])) && Selects(ts) <= 1
  }

  lemma {:induction false} NoSelects(ts: Text)
    requires forall k :: 0 <= k < |ts| ==> !ts[k].SELECT?
    ensures Selects(ts) == 0
  {
    if ts != [] { NoSelects(ts[1..]); }
  }

  // A second SELECT somewhere.
  ghost predicate HasSubquery(ts: Text) {
    exists i, j :: 0 <= i < j < |ts| && ts[i] == SELECT && ts[j] == SELECT
  }

  // A keyword that brings a second source of rows into the query.
  ghost predicate HasSecondSource(ts: Text) {
    exists k :: 0 <= k < |ts|
      && (ts[k] == JOIN || ts[k] == UNION || ts[k] == INTERSECT || ts[k] == EXCEPT || ts[k] == WITH)
  }

  lemma {:induction false} SelectsCount(ts: Text)
    ensures Selects(ts) >= 1 <==> exists j :: 0 <= j < |ts| && ts[j] == SELECT
    ensures Selects(ts) >= 2 <==> HasSubquery(ts)
  {
    if ts != [] {
      var tail := ts[1..];
      SelectsCount(tail);
      assert forall j :: 1 <= j < |ts| ==> ts[j] == tail[j - 1];
      assert forall j :: 0 <= j < |tail| ==> tail[j] == ts[j + 1];
      if HasSubquery(ts) {
        var i, j :| 0 <= i < j < |ts| && ts[i] == SELECT && ts[j] == SELECT;
        assert tail[j - 1] == SELECT;
        if i > 0 { assert tail[i - 1] == SELECT; }
      }
      if HasSubquery(tail) {
        var i, j :| 0 <= i < j < |tail| && tail[i] == SELECT && tail[j] == SELECT;
        assert ts[i + 1] == SELECT && ts[j + 1] == SELECT;
      }
      if ts[0] == SELECT && Selects(tail) >= 1 {
        var j :| 0 <= j < |tail| && tail[j] == SELECT;
        assert ts[0] == SELECT && ts[j + 1] == SELECT;
      }
    }
  }

  /** The guard refuses exactly the texts with a keyword that combines sources or with a second SELECT. */
  lemma SimpleExactly(ts: Text)
    ensures IsSimpleQuery(ts) <==> !HasSecondSource(ts) && !HasSubquery(ts)
  {
    SelectsCount(ts);
    if forall k :: 0 <= k < |ts| ==> !Blocked(ts[k]) {
      assert !HasSecondSource(ts);
    } else {
      var k :| 0 <= k < |ts| && Blocked(ts[k]);
      assert HasSecondSource(ts);
    }
  }

  // Clauses that end the table reference.
  predicate EndsTable(l: Lexeme) {
    l.JOIN? || l.WHERE? || l.GROUP? || l.ORDER? || l.LIMIT? || l.OFFSET? || l.HAVING?
    || l.UNION? || l.INTERSECT? || l.EXCEPT?
  }

  // Index of the first table-ending clause with a lexeme on both sides, or the length.
  function TableEnd(ts: Text, i: nat): (r: nat)
    requires i <= |ts|
    ensures i <= r <= |ts|
    decreases |ts| - i
  {
    if i == |ts| || (1 <= i && i + 1 < |ts| && EndsTable(ts[i])) then i else TableEnd(ts, i + 1)
  }

  // The table reference of a text that does not start with WITH or EXPLAIN.
  function ExtractTableRef(ts: Text): Text {
    var f := Index(ts, [FROM], 0);
    if f == |ts| then [] else var after := ts[f + 1..]; after[..TableEnd(after, 0)]
  }

  /** Every text of the shape of a query passes the simplicity guard, before and after the rewriting,
      whether or not its condition is one, and the guard sees the table the query reads. */
  lemma ShapePassesGuards(q: Query)
    requires Shaped(q)
    ensures IsSimpleQuery(Render(q)) && IsSimpleQuery(Render(ScopedQuery(q)))
    ensures ExtractTableRef(Render(q)) == [Word(q.table)]
  {
    RenderIsSimple(q);
    RenderIsSimple(ScopedQuery(q));
    RenderShowsTable(q);
  }

  predicate Unblocked(ts: Text) {
    forall k :: 0 <= k < |ts| ==> !Blocked(ts[k]) && !ts[k].SELECT?
  }

  lemma UnblockedConcat(a: Text, b: Text)
    requires Unblocked(a) && Unblocked(b)
    ensures Unblocked(a + b)
  {
  }

  lemma PlainIsUnblocked(ts: Text)
    requires AllPlain(ts)
    ensures Unblocked(ts)
  {
  }

  lemma RenderIsSimple(q: Query)
    requires Shaped(q)
    ensures IsSimpleQuery(Render(q))
  {
    var from := [FROM, Word(q.table)];
    PlainIsUnblocked(q.items);
    UnblockedConcat(q.items, from);
    if q.condition.Some? {
      PlainIsUnblocked(q.condition.value);
      UnblockedConcat([WHERE], q.condition.value);
    }
    UnblockedConcat(q.items + from, Clause(q));
    var rest := q.items + from + Clause(q) + q.tail;
    UnblockedConcat(q.items + from + Clause(q), q.tail);
    NoSelects(rest);
    assert Render(q) == [SELECT] + rest;
    assert Render(q)[1..] == rest;
  }

  lemma NextEndsTable(q: Query)
    requires Shaped(q) && Clause(q) + q.tail != []
    ensures |Clause(q) + q.tail| >= 2 && EndsTable((Clause(q) + q.tail)[0])
  {
    if q.condition.Some? {
      assert q.condition.value != [];
    } else {
      assert Clause(q) + q.tail == q.tail;
      assert q.tail[..2][0] == q.tail[0];
    }
  }

  lemma FromFound(q: Query)
    requires Shaped(q)
    ensures Index(Render(q), [FROM], 0) == |q.items| + 1
  {
    var ts := Render(q);
    var n := |q.items| + 1;
    forall j | 0 <= j < n ensures !MatchesAt(ts, [FROM], j) {
      assert ts[j] == Head(q)[j];
      MatchNeedsLexeme(ts, FROM, j);
    }
    assert ts[n..n + 1] == [FROM];
    assert MatchesAt(ts, [FROM], n);
  }

  lemma TableEndsAtNext(table: Lexeme, next: Text)
    requires table.Word? && (next == [] || (|next| >= 2 && EndsTable(next[0])))
    ensures ([table] + next)[..TableEnd([table] + next, 0)] == [table]
  {
    var after := [table] + next;
    assert TableEnd(after, 1) == 1;
    assert after[..1] == [table];
  }

  lemma RenderShowsTable(q: Query)
    requires Shaped(q)
    ensures ExtractTableRef(Render(q)) == [Word(q.table)]
  {
    var next := Clause(q) + q.tail;
    FromFound(q);
    assert Render(q)[|q.items| + 2..] == [Word(q.table)] + next;
    if next != [] { NextEndsTable(q); }
    TableEndsAtNext(Word(q.table), next);
  }

  /** The table in front of any clause, a join or a set operation included, is the word after the first
      FROM; the clause needs something after it to be recognised. */
  lemma TableBeforeClause(before: Text, table: string, clause: Lexeme, rest: Text)
    requires before != [] && forall k :: 0 <= k < |before| ==> before[k] != FROM
    requires clause in {JOIN, WHERE, GROUP, ORDER, LIMIT, OFFSET, HAVING, UNION, INTERSECT, EXCEPT}
    ensures ExtractTableRef(before + [FROM, Word(table), clause] + rest)
      == if rest == [] then [Word(table), clause] else [Word(table)]
  {
    var ts, f := before + [FROM, Word(table), clause] + rest, |before|;
    forall j | 0 <= j < f ensures !MatchesAt(ts, [FROM], j) {
      assert ts[j] == before[j];
      MatchNeedsLexeme(ts, FROM, j);
    }
    assert ts[f..f + 1] == [FROM];
    assert MatchesAt(ts, [FROM], f) && Index(ts, [FROM], 0) == f;
    var after := ts[f + 1..];
    assert after == [Word(table)] + ([clause] + rest);
    if rest == [] {
      assert TableEnd(after, 2) == 2;
      assert TableEnd(after, 0) == TableEnd(after, 1) == 2;
    } else {
      TableEndsAtNext(Word(table), [clause] + rest);
    }
  }
}
