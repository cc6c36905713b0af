/**
  Conditions of a query: their text, how it is read, what it means, and what becomes of it when it is
  put in parentheses and conjoined with `org_id = ?`.

  A text is the sequence of its lexemes after whitespace normalisation.  Keywords are lexemes of
  their own; a Word is any other run of text (an identifier, a literal, an operator, a call).
  Open and Close are grouping parentheses of a condition.
 */
module SqlCondition {
  datatype Lexeme =
    | SELECT | FROM | WHERE | GROUP | BY | HAVING | ORDER | LIMIT | OFFSET
    | JOIN | UNION | INTERSECT | EXCEPT | WITH
    | AND | OR | NOT | BETWEEN
    | Open | Close
    | Word(text: string)

  type Text = seq<Lexeme>

  const ORG_CONDITION: Text := [Word("org_id"), Word("="), Word("?")]

  // ---- Conditions: grammar and meaning ------------------------------------------------------------------

  datatype Expr =
    | Atom(words: Text)
    | Not(e: Expr)
    | And(l: Expr, r: Expr)
    | Or(l: Expr, r: Expr)

  datatype Parse = Fail | Parsed(e: Expr, next: nat)

  // The end of the run of words that starts at i.
  function WordsEnd(ts: Text, i: nat): (r: nat)
    requires i <= |ts|
    ensures i <= r <= |ts|
    decreases |ts| - i
  {
    if i == |ts| || !ts[i].Word? then i else WordsEnd(ts, i + 1)
  }

  // The end of `words AND words` at i, or i if there is none.
  function RangeEnd(ts: Text, i: nat): (r: nat)
    requires i <= |ts|
    ensures i <= r <= |ts|
  {
    var m := WordsEnd(ts, i);
    if m == i || m == |ts| || ts[m] != AND then i
    else
      var r := WordsEnd(ts, m + 1);
      if r == m + 1 then i else r
  }

  // The end of a comparison at i, or i if there is none: words, optionally BETWEEN words AND words
  // (that AND is not a connective).
  function AtomEnd(ts: Text, i: nat): (r: nat)
    requires i <= |ts|
    ensures i <= r <= |ts|
  {
    var n := WordsEnd(ts, i);
    if n == i || n == |ts| || ts[n] != BETWEEN then n
    else
      var r := RangeEnd(ts, n + 1);
      if r == n + 1 then i else r
  }

  function ParseAtom(ts: Text, i: nat): (p: Parse)
    requires i <= |ts|
    ensures p.Parsed? ==> i < p.next <= |ts|
  {
    var r := AtomEnd(ts, i);
    if r == i then Fail else Parsed(Atom(ts[i..r]), r)
  }

  // OR binds loosest, then AND, then NOT.
  function ParseOr(ts: Text, i: nat): (p: Parse)
    requires i <= |ts|
    ensures p.Parsed? ==> i < p.next <= |ts|
    decreases |ts| - i, 3
  {
    var left := ParseAnd(ts, i);
    if left.Fail? || left.next == |ts| || ts[left.next] != OR then left
    else
      var right := ParseOr(ts, left.next + 1);
      if right.Fail? then Fail else Parsed(Or(left.e, right.e), right.next)
  }

  function ParseAnd(ts: Text, i: nat): (p: Parse)
    requires i <= |ts|
    ensures p.Parsed? ==> i < p.next <= |ts|
    decreases |ts| - i, 2
  {
    var left := ParseNot(ts, i);
    if left.Fail? || left.next == |ts| || ts[left.next] != AND then left
    else
      var right := ParseAnd(ts, left.next + 1);
      if right.Fail? then Fail else Parsed(And(left.e, right.e), right.next)
  }

  function ParseNot(ts: Text, i: nat): (p: Parse)
    requires i <= |ts|
    ensures p.Parsed? ==> i < p.next <= |ts|
    decreases |ts| - i, 1
  {
    if i < |ts| && ts[i] == NOT then
      var inner := ParseNot(ts, i + 1);
      if inner.Fail? then Fail else Parsed(Not(inner.e), inner.next)
    else if i < |ts| && ts[i] == Open then
      var inner := ParseOr(ts, i + 1);
      if inner.Fail? || inner.next == |ts| || ts[inner.next] != Close then Fail
      else Parsed(inner.e, inner.next + 1)
    else ParseAtom(ts, i)
  }

  // The whole text is one condition.
  predicate IsCondition(ts: Text) {
    ParseOr(ts, 0).Parsed? && ParseOr(ts, 0).next == |ts|
  }

  // SQL's three-valued logic.
  datatype Truth = True | False | Unknown

  function Negate(a: Truth): Truth {
    match a case True => False case False => True case Unknown => Unknown
  }

  function Both(a: Truth, b: Truth): Truth {
    if a == False || b == False then False else if a == True && b == True then True else Unknown
  }

  function Either(a: Truth, b: Truth): Truth {
    if a == True || b == True then True else if a == False && b == False then False else Unknown
  }

  function Rank(a: Truth): int {
    match a case False => 0 case Unknown => 1 case True => 2
  }

  // With False < Unknown < True, AND is the least, OR the greatest, and NOT turns the order round.
  lemma LogicIsOrdered(a: Truth, b: Truth)
    ensures Rank(Both(a, b)) == if Rank(a) < Rank(b) then Rank(a) else Rank(b)
    ensures Rank(Either(a, b)) == if Rank(a) < Rank(b) then Rank(b) else Rank(a)
    ensures Rank(Negate(a)) == 2 - Rank(a)
  {
  }

  function Holds<Row>(e: Expr, atom: (Text, Row) -> Truth, row: Row): Truth {
    match e
    case Atom(words) => atom(words, row)
    case Not(x) => Negate(Holds(x, atom, row))
    case And(l, r) => Both(Holds(l, atom, row), Holds(r, atom, row))
    case Or(l, r) => Either(Holds(l, atom, row), Holds(r, atom, row))
  }

  // ---- Parsing is not disturbed by what surrounds a condition ---------------------------------------------

  // The text ts stands in u at offset d, and u ends there or goes on with a closing parenthesis.
  predicate Embedded(ts: Text, u: Text, d: nat) {
    && d + |ts| <= |u|
    && (forall k :: 0 <= k < |ts| ==> u[d + k] == ts[k])
    && (d + |ts| == |u| || u[d + |ts|] == Close)
  }

  lemma {:induction false} WordsEmbed(ts: Text, u: Text, d: nat, i: nat)
    requires Embedded(ts, u, d) && i <= |ts|
    ensures WordsEnd(u, d + i) == d + WordsEnd(ts, i)
    decreases |ts| - i
  {
    if i < |ts| && ts[i].Word? {
      assert u[d + i] == ts[i];
      WordsEmbed(ts, u, d, i + 1);
    } else if i < |ts| {
      assert u[d + i] == ts[i];
    }
  }

  lemma RangeEmbed(ts: Text, u: Text, d: nat, i: nat)
    requires Embedded(ts, u, d) && i <= |ts| && RangeEnd(ts, i) > i
    ensures RangeEnd(u, d + i) == d + RangeEnd(ts, i)
  {
    var m := WordsEnd(ts, i);
    WordsEmbed(ts, u, d, i);
    assert u[d + m] == ts[m];
    WordsEmbed(ts, u, d, m + 1);
  }

  lemma AtomEmbed(ts: Text, u: Text, d: nat, i: nat)
    requires Embedded(ts, u, d) && i <= |ts| && AtomEnd(ts, i) > i
    ensures AtomEnd(u, d + i) == d + AtomEnd(ts, i)
  {
    var n := WordsEnd(ts, i);
    WordsEmbed(ts, u, d, i);
    if n < |ts| {
      assert u[d + n] == ts[n];
      if ts[n] == BETWEEN {
        RangeEmbed(ts, u, d, n + 1);
      }
    }
  }

  function Shift(p: Parse, d: nat): Parse {
    if p.Fail? then Fail else Parsed(p.e, d + p.next)
  }

  lemma SliceEmbed(ts: Text, u: Text, d: nat, i: nat, r: nat)
    requires Embedded(ts, u, d) && i <= r <= |ts|
    ensures u[d + i..d + r] == ts[i..r]
  {
    forall k | 0 <= k < r - i ensures u[d + i..d + r][k] == ts[i..r][k] {
      assert u[d + (i + k)] == ts[i + k];
    }
  }

  lemma ParseAtomEmbed(ts: Text, u: Text, d: nat, i: nat)
    requires Embedded(ts, u, d) && i <= |ts| && ParseAtom(ts, i).Parsed?
    ensures ParseAtom(u, d + i) == Shift(ParseAtom(ts, i), d)
  {
    AtomEmbed(ts, u, d, i);
    SliceEmbed(ts, u, d, i, AtomEnd(ts, i));
  }

  lemma {:induction false} OrEmbed(ts: Text, u: Text, d: nat, i: nat)
    requires Embedded(ts, u, d) && i <= |ts| && ParseOr(ts, i).Parsed?
    ensures ParseOr(u, d + i) == Shift(ParseOr(ts, i), d)
    decreases |ts| - i, 3
  {
    AndEmbed(ts, u, d, i);
    var n := ParseAnd(ts, i).next;
    assert i <= n;
    if n < |ts| && ts[n] == OR {
      OrStep(ts, i, n);
      OrEmbed(ts, u, d, n + 1);
      JoinedOrEmbed(ts, u, d, i, n);
    } else {
      AloneOrEmbed(ts, u, d, i, n);
    }
  }

  lemma OrStep(ts: Text, i: nat, n: nat)
    requires i <= n < |ts| && ts[n] == OR && ParseAnd(ts, i).Parsed? && ParseAnd(ts, i).next == n
    ensures var r := ParseOr(ts, n + 1);
      ParseOr(ts, i) == if r.Fail? then Fail else Parsed(Or(ParseAnd(ts, i).e, r.e), r.next)
  {
  }

  lemma AndStep(ts: Text, i: nat, n: nat)
    requires i <= n < |ts| && ts[n] == AND && ParseNot(ts, i).Parsed? && ParseNot(ts, i).next == n
    ensures var r := ParseAnd(ts, n + 1);
      ParseAnd(ts, i) == if r.Fail? then Fail else Parsed(And(ParseNot(ts, i).e, r.e), r.next)
  {
  }

  lemma JoinedOrEmbed(ts: Text, u: Text, d: nat, i: nat, n: nat)
    requires Embedded(ts, u, d) && i <= n < |ts| && ts[n] == OR && ParseOr(ts, i).Parsed?
    requires ParseAnd(ts, i).Parsed? && ParseAnd(ts, i).next == n
    requires ParseAnd(u, d + i) == Shift(ParseAnd(ts, i), d)
    requires ParseOr(u, d + (n + 1)) == Shift(ParseOr(ts, n + 1), d)
    ensures ParseOr(u, d + i) == Shift(ParseOr(ts, i), d)
  {
    assert u[d + n] == ts[n];
    assert d + (n + 1) == (d + n) + 1;
    OrStep(ts, i, n);
    OrStep(u, d + i, d + n);
  }

  lemma AloneOrEmbed(ts: Text, u: Text, d: nat, i: nat, n: nat)
    requires Embedded(ts, u, d) && i <= n <= |ts| && (n < |ts| ==> ts[n] != OR)
    requires ParseAnd(ts, i).Parsed? && ParseAnd(ts, i).next == n
    requires ParseAnd(u, d + i) == Shift(ParseAnd(ts, i), d)
    ensures ParseOr(u, d + i) == Shift(ParseOr(ts, i), d)
  {
    assert n < |ts| ==> u[d + n] == ts[n];
  }

  lemma {:induction false} AndEmbed(ts: Text, u: Text, d: nat, i: nat)
    requires Embedded(ts, u, d) && i <= |ts| && ParseAnd(ts, i).Parsed?
    ensures ParseAnd(u, d + i) == Shift(ParseAnd(ts, i), d)
    decreases |ts| - i, 2
  {
    NotEmbed(ts, u, d, i);
    var n := ParseNot(ts, i).next;
    if n < |ts| && ts[n] == AND {
      AndStep(ts, i, n);
      AndEmbed(ts, u, d, n + 1);
      JoinedAndEmbed(ts, u, d, i, n);
    } else {
      AloneAndEmbed(ts, u, d, i, n);
    }
  }

  lemma JoinedAndEmbed(ts: Text, u: Text, d: nat, i: nat, n: nat)
    requires Embedded(ts, u, d) && i <= n < |ts| && ts[n] == AND && ParseAnd(ts, i).Parsed?
    requires ParseNot(ts, i).Parsed? && ParseNot(ts, i).next == n
    requires ParseNot(u, d + i) == Shift(ParseNot(ts, i), d)
    requires ParseAnd(u, d + (n + 1)) == Shift(ParseAnd(ts, n + 1), d)
    ensures ParseAnd(u, d + i) == Shift(ParseAnd(ts, i), d)
  {
    assert u[d + n] == ts[n];
    assert d + (n + 1) == (d + n) + 1;
    AndStep(ts, i, n);
    AndStep(u, d + i, d + n);
  }

  lemma AloneAndEmbed(ts: Text, u: Text, d: nat, i: nat, n: nat)
    requires Embedded(ts, u, d) && i <= n <= |ts| && (n < |ts| ==> ts[n] != AND)
    requires ParseNot(ts, i).Parsed? && ParseNot(ts, i).next == n
    requires ParseNot(u, d + i) == Shift(ParseNot(ts, i), d)
    ensures ParseAnd(u, d + i) == Shift(ParseAnd(ts, i), d)
  {
    assert n < |ts| ==> u[d + n] == ts[n];
  }

  lemma {:induction false} NotEmbed(ts: Text, u: Text, d: nat, i: nat)
    requires Embedded(ts, u, d) && i <= |ts| && ParseNot(ts, i).Parsed?
    ensures ParseNot(u, d + i) == Shift(ParseNot(ts, i), d)
    decreases |ts| - i, 1
  {
    assert i < |ts| ==> u[d + i] == ts[i];
    if i < |ts| && ts[i] == NOT {
      NotEmbed(ts, u, d, i + 1);
      NegationEmbed(ts, u, d, i);
    } else if i < |ts| && ts[i] == Open {
      OrEmbed(ts, u, d, i + 1);
      GroupEmbed(ts, u, d, i);
    } else {
      ParseAtomEmbed(ts, u, d, i);
    }
  }

  lemma NegationEmbed(ts: Text, u: Text, d: nat, i: nat)
    requires Embedded(ts, u, d) && i < |ts| && ts[i] == NOT && ParseNot(ts, i).Parsed?
    requires ParseNot(u, d + (i + 1)) == Shift(ParseNot(ts, i + 1), d)
    ensures ParseNot(u, d + i) == Shift(ParseNot(ts, i), d)
  {
    assert u[d + i] == ts[i];
    assert d + (i + 1) == (d + i) + 1;
  }

  lemma GroupEmbed(ts: Text, u: Text, d: nat, i: nat)
    requires Embedded(ts, u, d) && i < |ts| && ts[i] == Open && ParseNot(ts, i).Parsed?
    requires ParseOr(u, d + (i + 1)) == Shift(ParseOr(ts, i + 1), d)
    ensures ParseNot(u, d + i) == Shift(ParseNot(ts, i), d)
  {
    assert u[d + i] == ts[i];
    assert d + (i + 1) == (d + i) + 1;
    var n := ParseOr(ts, i + 1).next;
    assert u[d + n] == ts[n];
  }

  function ScopedCondition(c: Text): Text {
    [Open] + c + [Close, AND] + ORG_CONDITION
  }

  lemma OrgConditionParses(u: Text, i: nat)
    requires i + 3 == |u| && u[i..] == ORG_CONDITION
    ensures ParseAnd(u, i) == Parsed(Atom(ORG_CONDITION), |u|)
    ensures ParseOr(u, i) == Parsed(Atom(ORG_CONDITION), |u|)
  {
    assert u[i] == u[i..][0] && u[i + 1] == u[i..][1] && u[i + 2] == u[i..][2];
    assert WordsEnd(u, i + 2) == i + 3;
    assert WordsEnd(u, i) == i + 3;
    assert u[i..i + 3] == u[i..];
  }

  lemma ParenthesisedParses(c: Text, u: Text)
    requires IsCondition(c) && |c| + 2 <= |u| && u[0] == Open && Embedded(c, u, 1) && u[|c| + 1] == Close
    ensures ParseNot(u, 0) == Parsed(ParseOr(c, 0).e, |c| + 2)
  {
    OrEmbed(c, u, 1, 0);
  }

  lemma ScopedConjunctionParses(c: Text)
    requires IsCondition(c)
    ensures ParseAnd(ScopedCondition(c), 0) == Parsed(And(ParseOr(c, 0).e, Atom(ORG_CONDITION)), |ScopedCondition(c)|)
  {
    var u := ScopedCondition(c);
    ParenthesisedParses(c, u);
    assert u[|c| + 2] == AND;
    assert u[|c| + 3..] == ORG_CONDITION;
    OrgConditionParses(u, |c| + 3);
    AndStep(u, 0, |c| + 2);
  }

  /** Whatever connectives a condition is made of, the parenthesised text with `AND org_id = ?`
      appended reads as the conjunction of that whole condition and the org test. */
  lemma ScopedConditionParses(c: Text)
    requires IsCondition(c)
    ensures IsCondition(ScopedCondition(c))
    ensures ParseOr(ScopedCondition(c), 0).e == And(ParseOr(c, 0).e, Atom(ORG_CONDITION))
  {
    ScopedConjunctionParses(c);
  }

  // ---- Every combination of comparisons is a condition ---------------------------------------------------

  function Paren(w: Text): Text { [Open] + w + [Close] }

  // An expression as text, every operand in parentheses.
  function Written(e: Expr): Text {
    match e
    case Atom(words) => words
    case Not(x) => [NOT] + Paren(Written(x))
    case And(l, r) => Paren(Written(l)) + [AND] + Paren(Written(r))
    case Or(l, r) => Paren(Written(l)) + [OR] + Paren(Written(r))
  }

  // Every atom is the text of one comparison.
  predicate Proper(e: Expr) {
    match e
    case Atom(words) => words != [] && AtomEnd(words, 0) == |words|
    case Not(x) => Proper(x)
    case And(l, r) => Proper(l) && Proper(r)
    case Or(l, r) => Proper(l) && Proper(r)
  }

  lemma GroupParses(e: Expr, w: Text, u: Text, i: nat)
    requires ParseOr(w, 0) == Parsed(e, |w|) && i + |w| + 2 <= |u| && u[i..i + |w| + 2] == Paren(w)
    ensures ParseNot(u, i) == Parsed(e, i + |w| + 2)
  {
    var p := Paren(w);
    assert forall k :: 0 <= k < |p| ==> u[i + k] == u[i..i + |p|][k] == p[k];
    assert u[i] == p[0] == Open && u[i + (|w| + 1)] == p[|w| + 1] == Close;
    forall k | 0 <= k < |w| ensures u[i + 1 + k] == w[k] {
      assert u[i + (k + 1)] == p[k + 1];
    }
    assert Embedded(w, u, i + 1);
    OrEmbed(w, u, i + 1, 0);
  }

  lemma ConnectiveParses(l: Expr, r: Expr, u: Text, n: nat)
    requires 0 < n < |u| && ParseNot(u, 0) == Parsed(l, n) && ParseNot(u, n + 1) == Parsed(r, |u|)
    ensures u[n] == AND ==> ParseOr(u, 0) == Parsed(And(l, r), |u|)
    ensures u[n] == OR ==> ParseOr(u, 0) == Parsed(Or(l, r), |u|)
  {
    assert ParseAnd(u, n + 1) == Parsed(r, |u|);
    if u[n] == AND {
      assert ParseAnd(u, 0) == Parsed(And(l, r), |u|);
    } else if u[n] == OR {
      assert ParseAnd(u, 0) == Parsed(l, n);
      assert ParseOr(u, n + 1) == Parsed(r, |u|);
    }
  }

  lemma TwoGroupsParse(l: Expr, r: Expr, v: Text, w: Text, connective: Lexeme)
    requires ParseOr(v, 0) == Parsed(l, |v|) && ParseOr(w, 0) == Parsed(r, |w|)
    ensures var u := Paren(v) + [connective] + Paren(w);
      && (connective == AND ==> ParseOr(u, 0) == Parsed(And(l, r), |u|))
      && (connective == OR ==> ParseOr(u, 0) == Parsed(Or(l, r), |u|))
  {
    var u, n := Paren(v) + [connective] + Paren(w), |v| + 2;
    assert u[0..n] == Paren(v);
    assert u[n + 1..n + 1 + |w| + 2] == Paren(w);
    GroupParses(l, v, u, 0);
    GroupParses(r, w, u, n + 1);
    ConnectiveParses(l, r, u, n);
  }

  lemma NegationParses(e: Expr, w: Text)
    requires ParseOr(w, 0) == Parsed(e, |w|)
    ensures ParseOr([NOT] + Paren(w), 0) == Parsed(Not(e), |[NOT] + Paren(w)|)
  {
    var u, p := [NOT] + Paren(w), Paren(w);
    assert u == [NOT] + p && u[1..] == p && u[1..|u|] == u[1..];
    GroupParses(e, w, u, 1);
    assert ParseNot(u, 0) == Parsed(Not(e), |u|);
  }

  /** The grammar leaves out no combination: every expression over comparisons has a text that parses
      back to it. */
  lemma {:induction false} WrittenParses(e: Expr)
    requires Proper(e)
    ensures ParseOr(Written(e), 0) == Parsed(e, |Written(e)|)
  {
    match e
    case Atom(words) =>
      assert words[0].Word?;
      assert words[0..|words|] == words;
      assert ParseAtom(words, 0) == Parsed(e, |words|);
      assert ParseNot(words, 0) == Parsed(e, |words|);
    case Not(x) =>
      WrittenParses(x);
      NegationParses(x, Written(x));
    case And(l, r) =>
      WrittenParses(l);
      WrittenParses(r);
      TwoGroupsParse(l, r, Written(l), Written(r), AND);
    case Or(l, r) =>
      WrittenParses(l);
      WrittenParses(r);
      TwoGroupsParse(l, r, Written(l), Written(r), OR);
  }

  // ---- Why the parentheses are there ---------------------------------------------------------------------

  lemma OneWord(ts: Text, i: nat)
    requires i < |ts| && ts[i].Word? && (i + 1 == |ts| || ts[i + 1] == AND || ts[i + 1] == OR)
    ensures ParseNot(ts, i) == Parsed(Atom([ts[i]]), i + 1)
  {
    assert WordsEnd(ts, i + 1) == i + 1;
    assert ts[i..i + 1] == [ts[i]];
  }

  const X_OR_Y: Text := [Word("x"), OR, Word("y")]

  const NAIVE: Text := X_OR_Y + [AND] + ORG_CONDITION

  lemma DisjunctionParse()
    ensures IsCondition(X_OR_Y) && ParseOr(X_OR_Y, 0).e == Or(Atom([Word("x")]), Atom([Word("y")]))
  {
    OneWord(X_OR_Y, 0);
    OneWord(X_OR_Y, 2);
  }

  lemma NaiveParse()
    ensures IsCondition(NAIVE)
    ensures ParseOr(NAIVE, 0).e == Or(Atom([Word("x")]), And(Atom([Word("y")]), Atom(ORG_CONDITION)))
  {
    assert NAIVE[4..] == ORG_CONDITION;
    NaiveTextParses(NAIVE);
  }

  lemma NaiveTextParses(u: Text)
    requires |u| == 7 && u[0] == Word("x") && u[1] == OR && u[2] == Word("y") && u[3] == AND && u[4..] == ORG_CONDITION
    ensures ParseOr(u, 0) == Parsed(Or(Atom([Word("x")]), And(Atom([Word("y")]), Atom(ORG_CONDITION))), |u|)
  {
    OneWord(u, 0);
    OneWord(u, 2);
    OrgConditionParses(u, 4);
    assert ParseAnd(u, 0) == ParseNot(u, 0);
    assert ParseAnd(u, 2) == Parsed(And(Atom([Word("y")]), Atom(ORG_CONDITION)), |u|);
    assert ParseOr(u, 2) == ParseAnd(u, 2);
  }

  /** For a text that is a condition, the parentheses are needed: without them the org test would bind
      to the last disjunct of `x OR y` only and be true on a foreign row where x holds; the scoped
      text is not. */
  lemma ParenthesesAreNeeded<Row>(atom: (Text, Row) -> Truth, foreign: Row)
    requires atom([Word("x")], foreign) == True && atom(ORG_CONDITION, foreign) == False
    ensures IsCondition(NAIVE) && Holds(ParseOr(NAIVE, 0).e, atom, foreign) == True
    ensures IsCondition(ScopedCondition(X_OR_Y)) && Holds(ParseOr(ScopedCondition(X_OR_Y), 0).e, atom, foreign) == False
  {
    DisjunctionParse();
    NaiveParse();
    ScopedConditionParses(X_OR_Y);
  }
}
