/**
  What the scoped text of an arbitrary condition text means.  The guards do not ask whether the text
  between WHERE and the tail is a condition, so it may close the parenthesis the rewriting opens.
  Whether the scoped query keeps to the organisation's rows depends on one thing: an OR that stands
  outside all parentheses of the scoped condition.
 */
module SqlIsolation {
  import opened Common
  import opened SqlCondition
  import opened SqlScope

  // ---- Nesting ------------------------------------------------------------------------------------------

  // Parentheses opened minus closed in ts[i..k].
  function Level(ts: Text, i: nat, k: nat): int
    requires k <= |ts|
    decreases k
  {
    if k <= i then 0 else Level(ts, i, k - 1) + (if ts[k - 1] == Open then 1 else if ts[k - 1] == Close then -1 else 0)
  }

  lemma {:induction false} LevelAdds(ts: Text, i: nat, j: nat, k: nat)
    requires i <= j <= k <= |ts|
    ensures Level(ts, i, k) == Level(ts, i, j) + Level(ts, j, k)
  {
    if j < k { LevelAdds(ts, i, j, k - 1); }
  }

  // Every parenthesis in ts[i..n] is matched there.
  predicate Balanced(ts: Text, i: nat, n: nat) {
    i <= n <= |ts| && Level(ts, i, n) == 0 && forall k :: i <= k <= n ==> Level(ts, i, k) >= 0
  }

  // ts[i..n] has an OR outside all parentheses.
  predicate OuterOr(ts: Text, i: nat, n: nat)
    requires n <= |ts|
  {
    exists k :: i <= k < n && ts[k] == OR && Level(ts, i, k) == 0
  }

  lemma BalancedConcat(ts: Text, i: nat, j: nat, n: nat)
    requires Balanced(ts, i, j) && j < n <= |ts| && ts[j] != Open && ts[j] != Close && Balanced(ts, j + 1, n)
    ensures Balanced(ts, i, n)
    ensures OuterOr(ts, i, n) <==> OuterOr(ts, i, j) || ts[j] == OR || OuterOr(ts, j + 1, n)
  {
    assert Level(ts, i, j + 1) == 0;
    forall k | j + 1 <= k <= n ensures Level(ts, i, k) == Level(ts, j + 1, k) {
      LevelAdds(ts, i, j + 1, k);
    }
    OuterOrConcat(ts, i, j, n);
  }

  lemma OuterOrConcat(ts: Text, i: nat, j: nat, n: nat)
    requires i <= j < n <= |ts| && Level(ts, i, j) == 0
    requires forall k :: j + 1 <= k <= n ==> Level(ts, i, k) == Level(ts, j + 1, k)
    ensures OuterOr(ts, i, n) <==> OuterOr(ts, i, j) || ts[j] == OR || OuterOr(ts, j + 1, n)
  {
    if OuterOr(ts, i, n) {
      var k :| i <= k < n && ts[k] == OR && Level(ts, i, k) == 0;
    }
    if OuterOr(ts, i, j) {
      var k :| i <= k < j && ts[k] == OR && Level(ts, i, k) == 0;
    }
    if OuterOr(ts, j + 1, n) {
      var k :| j + 1 <= k < n && ts[k] == OR && Level(ts, j + 1, k) == 0;
      assert Level(ts, i, k) == 0;
    }
  }

  lemma BalancedGroup(ts: Text, i: nat, m: nat)
    requires i < m < |ts| && ts[i] == Open && Balanced(ts, i + 1, m) && ts[m] == Close
    ensures Balanced(ts, i, m + 1) && !OuterOr(ts, i, m + 1)
  {
    assert Level(ts, i, i + 1) == 1;
    forall k | i + 1 <= k <= m ensures Level(ts, i, k) == 1 + Level(ts, i + 1, k) {
      LevelAdds(ts, i, i + 1, k);
    }
  }

  lemma {:induction false} FlatIsBalanced(ts: Text, i: nat, n: nat)
    requires i <= n <= |ts|
    requires forall k :: i <= k < n ==> ts[k] != Open && ts[k] != Close && ts[k] != OR
    ensures Balanced(ts, i, n) && !OuterOr(ts, i, n)
  {
    if i < n { FlatIsBalanced(ts, i, n - 1); }
  }

  // ---- What the parser reads is balanced, and only a disjunction has an outer OR ----------------------------

  lemma {:induction false} WordsAreWords(ts: Text, i: nat)
    requires i <= |ts|
    ensures forall k :: i <= k < WordsEnd(ts, i) ==> ts[k].Word?
    ensures WordsEnd(ts, i) < |ts| ==> !ts[WordsEnd(ts, i)].Word?
    decreases |ts| - i
  {
    if i < |ts| && ts[i].Word? { WordsAreWords(ts, i + 1); }
  }

  lemma AtomIsFlat(ts: Text, i: nat)
    requires i <= |ts|
    ensures forall k :: i <= k < AtomEnd(ts, i) ==> ts[k] != Open && ts[k] != Close && ts[k] != OR
  {
    var n := WordsEnd(ts, i);
    WordsAreWords(ts, i);
    if n < |ts| && ts[n] == BETWEEN {
      var m := WordsEnd(ts, n + 1);
      WordsAreWords(ts, n + 1);
      if m < |ts| { WordsAreWords(ts, m + 1); }
    }
  }

  lemma {:induction false} NotIsBalanced(ts: Text, i: nat)
    requires i <= |ts| && ParseNot(ts, i).Parsed?
    ensures Balanced(ts, i, ParseNot(ts, i).next) && !OuterOr(ts, i, ParseNot(ts, i).next)
    decreases |ts| - i, 1
  {
    if i < |ts| && ts[i] == NOT {
      NotIsBalanced(ts, i + 1);
      FlatIsBalanced(ts, i, i);
      BalancedConcat(ts, i, i, ParseNot(ts, i + 1).next);
    } else if i < |ts| && ts[i] == Open {
      OrIsBalanced(ts, i + 1);
      BalancedGroup(ts, i, ParseOr(ts, i + 1).next);
    } else {
      AtomIsFlat(ts, i);
      FlatIsBalanced(ts, i, AtomEnd(ts, i));
    }
  }

  lemma {:induction false} AndIsBalanced(ts: Text, i: nat)
    requires i <= |ts| && ParseAnd(ts, i).Parsed?
    ensures Balanced(ts, i, ParseAnd(ts, i).next) && !OuterOr(ts, i, ParseAnd(ts, i).next)
    decreases |ts| - i, 2
  {
    NotIsBalanced(ts, i);
    var j := ParseNot(ts, i).next;
    if j < |ts| && ts[j] == AND {
      AndIsBalanced(ts, j + 1);
      BalancedConcat(ts, i, j, ParseAnd(ts, j + 1).next);
    }
  }

  lemma {:induction false} OrIsBalanced(ts: Text, i: nat)
    requires i <= |ts| && ParseOr(ts, i).Parsed?
    ensures Balanced(ts, i, ParseOr(ts, i).next)
    ensures OuterOr(ts, i, ParseOr(ts, i).next) <==> ParseAnd(ts, i).next < ParseOr(ts, i).next
    decreases |ts| - i, 3
  {
    AndIsBalanced(ts, i);
    var j := ParseAnd(ts, i).next;
    if j < |ts| && ts[j] == OR {
      OrIsBalanced(ts, j + 1);
      BalancedConcat(ts, i, j, ParseOr(ts, j + 1).next);
    }
  }

  // ---- Where the org test ends up ------------------------------------------------------------------------------

  // A conjunction whose last conjunct is the org test.
  predicate OrgConjoined(e: Expr) {
    e.And? && (e.r == Atom(ORG_CONDITION) || OrgConjoined(e.r))
  }

  // The last disjunct carries the org test.
  predicate OrgInLastDisjunct(e: Expr) {
    OrgConjoined(e) || (e.Or? && OrgInLastDisjunct(e.r))
  }

  // u ends with `) AND org_id = ?`, the AND standing at q.
  predicate EndsScoped(u: Text, q: nat) {
    q >= 1 && q + 4 == |u| && u[q - 1] == Close && u[q] == AND && u[q + 1..] == ORG_CONDITION
  }

  lemma OrgWords(u: Text, q: nat)
    requires EndsScoped(u, q)
    ensures forall k :: q < k < |u| ==> u[k].Word?
  {
    assert forall k :: q < k < |u| ==> u[k] == u[q + 1..][k - q - 1];
  }

  lemma {:induction false} WordsStop(ts: Text, i: nat, q: nat)
    requires i <= q < |ts| && !ts[q].Word?
    ensures WordsEnd(ts, i) <= q
    decreases q - i
  {
    if i < q && ts[i].Word? { WordsStop(ts, i + 1, q); }
  }

  lemma AtomStops(u: Text, i: nat, q: nat)
    requires EndsScoped(u, q) && i <= q
    ensures AtomEnd(u, i) <= q
  {
    if i == q {
      assert WordsEnd(u, q) == q;
    } else {
      WordsStop(u, i, q - 1);
      var n := WordsEnd(u, i);
      if u[n] == BETWEEN {
        WordsStop(u, n + 1, q - 1);
        var m := WordsEnd(u, n + 1);
        if u[m] == AND { WordsStop(u, m + 1, q - 1); }
      }
    }
  }

  // No factor read from before q reaches past it.
  lemma {:induction false} NotStops(u: Text, i: nat, q: nat)
    requires EndsScoped(u, q) && i <= q && ParseNot(u, i).Parsed?
    ensures ParseNot(u, i).next <= q
    decreases q - i
  {
    if u[i] == NOT {
      NotStops(u, i + 1, q);
    } else if u[i] == Open {
      OrgWords(u, q);
      assert u[ParseOr(u, i + 1).next] == Close;
    } else {
      AtomStops(u, i, q);
    }
  }

  lemma {:induction false} AndCarriesOrg(u: Text, i: nat, q: nat)
    requires EndsScoped(u, q) && i < q && ParseAnd(u, i).Parsed? && ParseAnd(u, i).next == |u|
    ensures OrgConjoined(ParseAnd(u, i).e)
    decreases q - i
  {
    NotStops(u, i, q);
    var n := ParseNot(u, i).next;
    assert u[n] == AND;
    if n == q {
      OrgConditionParses(u, q + 1);
      assert ParseAnd(u, i).e.r == Atom(ORG_CONDITION);
    } else {
      AndCarriesOrg(u, n + 1, q);
      assert ParseAnd(u, i).e.r == ParseAnd(u, n + 1).e;
    }
  }

  lemma {:induction false} OrCarriesOrg(u: Text, i: nat, q: nat)
    requires EndsScoped(u, q) && i < q && ParseOr(u, i).Parsed? && ParseOr(u, i).next == |u|
    ensures OrgInLastDisjunct(ParseOr(u, i).e)
    ensures ParseAnd(u, i).next < |u| ==> ParseAnd(u, i).next < q
    decreases q - i
  {
    var n := ParseAnd(u, i).next;
    if n == |u| {
      AndCarriesOrg(u, i, q);
    } else {
      OrgWords(u, q);
      assert u[n] == OR && n != q && n != q - 1;
      OrCarriesOrg(u, n + 1, q);
    }
  }

  lemma ScopedEnds(c: Text)
    ensures EndsScoped(ScopedCondition(c), |c| + 2)
  {
  }

  /** The scoped text of any text c that reads as a condition at all.  Without an OR outside all
      parentheses it is a conjunction ending in the org test.  With one it is a disjunction whose first
      disjunct is read from before the appended org test, which ends up in the last disjunct. */
  lemma ScopedTextStructure(c: Text)
    requires IsCondition(ScopedCondition(c))
    ensures var u := ScopedCondition(c);
      var e := ParseOr(u, 0).e;
      if !OuterOr(u, 0, |u|) then OrgConjoined(e)
      else e.Or? && OrgInLastDisjunct(e.r) && ParseAnd(u, 0).next <= |c| + 1 && e.l == ParseAnd(u, 0).e
  {
    var u := ScopedCondition(c);
    ScopedEnds(c);
    OrIsBalanced(u, 0);
    OrCarriesOrg(u, 0, |c| + 2);
    if !OuterOr(u, 0, |u|) {
      AndCarriesOrg(u, 0, |c| + 2);
    }
  }

  // ---- Isolation ---------------------------------------------------------------------------------------------------

  lemma {:induction false} ConjoinedNeedsOrg<Row>(e: Expr, atom: (Text, Row) -> Truth, row: Row)
    requires OrgConjoined(e) && Holds(e, atom, row) == True
    ensures atom(ORG_CONDITION, row) == True
  {
    if e.r != Atom(ORG_CONDITION) { ConjoinedNeedsOrg(e.r, atom, row); }
  }

  /** Isolation, for any text between WHERE and the tail that the database accepts after the rewriting:
      with no OR outside all parentheses, every row kept is the organisation's; with one, the row is
      kept whenever the first disjunct holds on it, whoever owns it. */
  lemma IsolationOfRow<Row>(c: Text, atom: (Text, Row) -> Truth, row: Row)
    requires IsCondition(ScopedCondition(c))
    ensures var u := ScopedCondition(c);
      if !OuterOr(u, 0, |u|) then Keeps(Some(u), atom, row) ==> atom(ORG_CONDITION, row) == True
      else Holds(ParseAnd(u, 0).e, atom, row) == True ==> Keeps(Some(u), atom, row)
  {
    var u := ScopedCondition(c);
    ScopedTextStructure(c);
    if !OuterOr(u, 0, |u|) && Keeps(Some(u), atom, row) {
      ConjoinedNeedsOrg(ParseOr(u, 0).e, atom, row);
    }
  }

  // A text that is itself a condition never has such an OR once parenthesised.
  lemma ConditionsAreSafe(c: Text)
    requires IsCondition(c)
    ensures IsCondition(ScopedCondition(c)) && !OuterOr(ScopedCondition(c), 0, |ScopedCondition(c)|)
  {
    ScopedConditionParses(c);
    ScopedTextStructure(c);
  }

  // The condition of the rewritten query, whatever stood in the original.
  function ScopedPart(q: Query): Text { ScopedQuery(q).condition.value }

  predicate Breaks(q: Query) {
    q.condition.Some? && OuterOr(ScopedPart(q), 0, |ScopedPart(q)|)
  }

  /** For every text of the shape of a query, condition or not: the guards accept it, the rewriting
      gives the scoped query, and if the database accepts that and its condition has no OR outside all
      parentheses, the rows selected are all the organisation's. */
  lemma UnbrokenQueriesAreIsolated<Row>(q: Query, atom: (Text, Row) -> Truth, rows: seq<Row>)
    requires Shaped(q) && IsCondition(ScopedPart(q)) && !Breaks(q)
    ensures IsSimpleQuery(Render(q)) && Scope(Render(q)) == Scoped(Render(ScopedQuery(q)))
    ensures OrgRows(atom, Selected(Some(ScopedPart(q)), atom, rows)) == Selected(Some(ScopedPart(q)), atom, rows)
  {
    ShapedPasses(q);
    SelectedAreOwn(q, atom, rows);
  }

  lemma {:induction false} SelectedAreOwn<Row>(q: Query, atom: (Text, Row) -> Truth, rows: seq<Row>)
    requires IsCondition(ScopedPart(q)) && !Breaks(q)
    ensures OrgRows(atom, Selected(Some(ScopedPart(q)), atom, rows)) == Selected(Some(ScopedPart(q)), atom, rows)
  {
    if rows != [] {
      var before, row := rows[..|rows| - 1], rows[|rows| - 1];
      assert rows == before + [row];
      SelectedAreOwn(q, atom, before);
      SelectedSnoc(Some(ScopedPart(q)), atom, before, row);
      KeptIsOwn(q, atom, row);
      var kept := Selected(Some(ScopedPart(q)), atom, before);
      OrgRowsSnoc(atom, kept, row);
      assert kept + [] == kept;
    }
  }

  lemma KeptIsOwn<Row>(q: Query, atom: (Text, Row) -> Truth, row: Row)
    requires IsCondition(ScopedPart(q)) && !Breaks(q)
    ensures Keeps(Some(ScopedPart(q)), atom, row) ==> atom(ORG_CONDITION, row) == True
  {
    if q.condition.Some? {
      IsolationOfRow(q.condition.value, atom, row);
    } else {
      OrgConditionParses(ORG_CONDITION, 0);
    }
  }

  // ---- The property fails on texts that are no conditions ---------------------------------------------------------------

  // The comparisons that stand under an even (or, if not positive, an odd) number of negations.
  function Occurring(e: Expr, positive: bool): set<Text> {
    match e
    case Atom(words) => if positive then {words} else {}
    case Not(x) => Occurring(x, !positive)
    case And(l, r) => Occurring(l, positive) + Occurring(r, positive)
    case Or(l, r) => Occurring(l, positive) + Occurring(r, positive)
  }

  // No comparison stands both negated and not, and the org test only negated if at all.
  predicate Consistent(e: Expr) {
    Occurring(e, true) !! Occurring(e, false) && ORG_CONDITION !in Occurring(e, true)
  }

  // Just the given comparisons hold, on every row.
  function Reading(holding: set<Text>): (Text, bool) -> Truth {
    (words: Text, row: bool) => if words in holding then True else False
  }

  // The reading chosen by polarity decides the expression as wanted.
  lemma {:induction false} PolarityDecides(e: Expr, want: bool, holding: set<Text>, row: bool)
    requires Occurring(e, want) <= holding && Occurring(e, !want) !! holding
    ensures Holds(e, Reading(holding), row) == if want then True else False
  {
    match e
    case Atom(_) =>
    case Not(x) => PolarityDecides(x, !want, holding, row);
    case And(l, r) =>
      PolarityDecides(l, want, holding, row);
      PolarityDecides(r, want, holding, row);
    case Or(l, r) =>
      PolarityDecides(l, want, holding, row);
      PolarityDecides(r, want, holding, row);
  }

  // Under every reading of the comparisons, every row the scoped text keeps is the organisation's.
  ghost predicate Isolates(c: Text)
    requires IsCondition(ScopedCondition(c))
  {
    forall atom: (Text, bool) -> Truth, row: bool :: Keeps(Some(ScopedCondition(c)), atom, row) ==> atom(ORG_CONDITION, row) == True
  }

  /** When no comparison stands both negated and not in the first disjunct of the scoped text, and the
      org test not unnegated, the rewriting isolates exactly when no OR stands outside all
      parentheses. */
  lemma IsolatesExactly(c: Text)
    requires IsCondition(ScopedCondition(c))
    requires OuterOr(ScopedCondition(c), 0, |ScopedCondition(c)|) ==> Consistent(ParseAnd(ScopedCondition(c), 0).e)
    ensures Isolates(c) <==> !OuterOr(ScopedCondition(c), 0, |ScopedCondition(c)|)
  {
    var u := ScopedCondition(c);
    if OuterOr(u, 0, |u|) {
      var first := ParseAnd(u, 0).e;
      var atom := Reading(Occurring(first, true));
      PolarityDecides(first, true, Occurring(first, true), true);
      IsolationOfRow(c, atom, true);
      assert Keeps(Some(u), atom, true) && atom(ORG_CONDITION, true) == False;
    } else {
      forall atom: (Text, bool) -> Truth, row: bool ensures Keeps(Some(u), atom, row) ==> atom(ORG_CONDITION, row) == True {
        IsolationOfRow(c, atom, row);
      }
    }
  }

  const BREAKOUT: Text := [Word("x"), Close, OR, Open, Word("y")]

  const BREAKOUT_QUERY: Query := Query([Word("*")], "items", Some(BREAKOUT), [])

  lemma WordInParentheses(u: Text, i: nat)
    requires i + 3 < |u| && u[i] == Open && u[i + 1].Word? && u[i + 2] == Close
    ensures ParseNot(u, i) == Parsed(Atom([u[i + 1]]), i + 3)
  {
    assert WordsEnd(u, i + 2) == i + 2;
    assert u[i + 1..i + 2] == [u[i + 1]];
    assert ParseNot(u, i + 1) == Parsed(Atom([u[i + 1]]), i + 2);
    assert ParseAnd(u, i + 1) == Parsed(Atom([u[i + 1]]), i + 2);
  }

  // `(y) AND org_id = ?` at i is the whole rest.
  lemma LastGroupParses(u: Text, i: nat)
    requires i + 7 == |u| && u[i] == Open && u[i + 1].Word? && u[i + 2] == Close && u[i + 3] == AND && u[i + 4..] == ORG_CONDITION
    ensures ParseOr(u, i).Parsed? && ParseOr(u, i).next == |u|
  {
    WordInParentheses(u, i);
    OrgConditionParses(u, i + 4);
    assert ParseAnd(u, i).Parsed? && ParseAnd(u, i).next == |u|;
  }

  lemma BreakoutParses(u: Text)
    requires |u| == 11 && u[0] == Open && u[1] == Word("x") && u[2] == Close && u[3] == OR
    requires u[4] == Open && u[5].Word? && u[6] == Close && u[7] == AND && u[8..] == ORG_CONDITION
    ensures IsCondition(u) && ParseAnd(u, 0) == Parsed(Atom([Word("x")]), 3)
  {
    WordInParentheses(u, 0);
    LastGroupParses(u, 4);
    assert ParseAnd(u, 0) == ParseNot(u, 0);
  }

  lemma BreakoutIsScoped()
    ensures var u := ScopedCondition(BREAKOUT);
      IsCondition(u) && ParseAnd(u, 0) == Parsed(Atom([Word("x")]), 3) && OuterOr(u, 0, |u|)
  {
    var u := ScopedCondition(BREAKOUT);
    assert u[8..] == ORG_CONDITION;
    BreakoutParses(u);
    OrIsBalanced(u, 0);
  }

  /** `SELECT * FROM items WHERE x) OR (y` passes the guards and is rewritten to
      `... WHERE (x) OR (y) AND org_id = ?`, ... */
  lemma GuardsLetBreakoutThrough()
    ensures IsSimpleQuery(Render(BREAKOUT_QUERY))
    ensures Scope(Render(BREAKOUT_QUERY)) == Scoped(Render(ScopedQuery(BREAKOUT_QUERY)))
    ensures ScopedPart(BREAKOUT_QUERY) == [Open, Word("x"), Close, OR, Open, Word("y"), Close, AND] + ORG_CONDITION
  {
    ShapedPasses(BREAKOUT_QUERY);
  }

  lemma ShapedPasses(q: Query)
    requires Shaped(q)
    ensures IsSimpleQuery(Render(q)) && Scope(Render(q)) == Scoped(Render(ScopedQuery(q)))
  {
    ShapePassesGuards(q);
    ScopeRewritesText(q);
  }

  /** ... which keeps a foreign row on which x holds. */
  lemma BreakoutKeepsForeignRow<Row>(atom: (Text, Row) -> Truth, foreign: Row)
    requires atom([Word("x")], foreign) == True && atom(ORG_CONDITION, foreign) != True
    ensures var u := ScopedCondition(BREAKOUT);
      IsCondition(u) && OuterOr(u, 0, |u|) && Keeps(Some(u), atom, foreign)
  {
    BreakoutIsScoped();
    FirstDisjunctKeeps(BREAKOUT, [Word("x")], atom, foreign);
  }

  lemma FirstDisjunctKeeps<Row>(c: Text, words: Text, atom: (Text, Row) -> Truth, row: Row)
    requires var u := ScopedCondition(c);
      IsCondition(u) && OuterOr(u, 0, |u|) && ParseAnd(u, 0).Parsed? && ParseAnd(u, 0).e == Atom(words)
    requires atom(words, row) == True
    ensures Keeps(Some(ScopedCondition(c)), atom, row)
  {
    IsolationOfRow(c, atom, row);
  }

  // ---- What reaches the rewriting ------------------------------------------------------------------------------------------

  // What the handler does with a caller's text: refuse it, panic, run it as it is or run it scoped.
  datatype Handling = Refused | Panicked | AsIs(text: Text) | ByOrg(text: Text)

  function Handle(ts: Text, internal: Text -> bool): Handling {
    var table := ExtractTableRef(ts);
    if table == [] || internal(table) then AsIs(ts)
    else if !IsSimpleQuery(ts) then Refused
    else if Scope(ts).Panics? then Panicked
    else ByOrg(Scope(ts).text)
  }

  /** A text runs unscoped exactly when it reads an internal table or has no FROM between two lexemes:
      what the table extraction does not recognise is let through as it is. */
  lemma UnscopedExactly(ts: Text, internal: Text -> bool)
    ensures Handle(ts, internal).AsIs? <==>
      (forall i :: !MatchesAt(ts, [FROM], i)) || internal(ExtractTableRef(ts))
  {
    var f := Index(ts, [FROM], 0);
    if f < |ts| {
      var after := ts[f + 1..];
      assert MatchesAt(ts, [FROM], f) && after != [];
      assert TableEnd(after, 0) >= 1;
    } else {
      forall i ensures !MatchesAt(ts, [FROM], i) { MatchNeedsLexeme(ts, FROM, i); }
    }
  }

  /** A FROM that is not set off by blanks is none: `SELECT "x"FROM items` runs as it is. */
  lemma UnspacedFromRunsUnscoped(internal: Text -> bool)
    ensures var ts := [SELECT, Word("\"x\"FROM"), Word("items")];
      Handle(ts, internal) == AsIs(ts)
  {
    var ts := [SELECT, Word("\"x\"FROM"), Word("items")];
    forall i ensures !MatchesAt(ts, [FROM], i) { MatchNeedsLexeme(ts, FROM, i); }
    UnscopedExactly(ts, internal);
  }

  /** A text is refused exactly when it has a FROM between two lexemes, the table is not internal, and it
      combines sources or has a second SELECT; so what runs scoped has one source of rows. */
  lemma RefusedExactly(ts: Text, internal: Text -> bool)
    ensures Handle(ts, internal).Refused? <==>
      && (exists i :: MatchesAt(ts, [FROM], i)) && !internal(ExtractTableRef(ts))
      && (HasSecondSource(ts) || HasSubquery(ts))
    ensures Handle(ts, internal).ByOrg? ==> !HasSecondSource(ts) && !HasSubquery(ts)
  {
    UnscopedExactly(ts, internal);
    SimpleExactly(ts);
  }

  /** Every text of the shape of a query on a table that is not internal runs as its scoped query. */
  lemma ShapedRunsScoped(q: Query, internal: Text -> bool)
    requires Shaped(q) && !internal([Word(q.table)])
    ensures Handle(Render(q), internal) == ByOrg(Render(ScopedQuery(q)))
  {
    ShapePassesGuards(q);
    ScopeRewritesText(q);
  }
}
