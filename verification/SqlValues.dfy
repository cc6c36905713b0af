/**
  Reading the values of a dumped row back: every literal the dump writes denotes the value it was
  written for, wherever it stands in the VALUES list.
 */
module SqlValues {
  import opened Common
  import opened Strings
  import opened SqlDump

  datatype Read<T> = Unreadable | Read(value: T, rest: string)

  // The text up to the closing quote, a doubled quote standing for one.
  function ReadText(s: string): Read<string> {
    if s == "" then Unreadable
    else if s[0] == QUOTE && (|s| < 2 || s[1] != QUOTE) then Read("", s[1..])
    else
      var more := ReadText(if s[0] == QUOTE then s[2..] else s[1..]);
      if more.Unreadable? then Unreadable else Read([s[0]] + more.value, more.rest)
  }

  predicate IsDigit(c: char) {
    '0' <= c <= '9'
  }

  function DigitRun(s: string): (n: nat)
    ensures n <= |s| && forall k :: 0 <= k < n ==> IsDigit(s[k])
  {
    if s == "" || !IsDigit(s[0]) then 0 else 1 + DigitRun(s[1..])
  }

  function DigitValue(c: char): int
    requires IsDigit(c)
  {
    c as int - '0' as int
  }

  function Number(ds: string): int
    requires forall k :: 0 <= k < |ds| ==> IsDigit(ds[k])
  {
    if ds == "" then 0 else Number(ds[..|ds| - 1]) * 10 + DigitValue(ds[|ds| - 1])
  }

  function ReadNumber(s: string): Read<int> {
    var n := DigitRun(s);
    if n == 0 then Unreadable else Read(Number(s[..n]), s[n..])
  }

  function ReadLiteral(s: string): Read<Value> {
    if s == "" then Unreadable
    else if s[0] == QUOTE then
      var t := ReadText(s[1..]);
      if t.Unreadable? then Unreadable else Read(Text(t.value), t.rest)
    else if s[0] == '-' then
      var n := ReadNumber(s[1..]);
      if n.Unreadable? then Unreadable else Read(Int(-n.value), n.rest)
    else if IsDigit(s[0]) then
      var n := ReadNumber(s);
      if n.Unreadable? then Unreadable else Read(Int(n.value), n.rest)
    else if |s| >= 4 && s[..4] == "NULL" then Read(Null, s[4..])
    else Unreadable
  }

  function ReadRow(s: string): Option<seq<Value>>
    decreases |s|
  {
    var first := ReadLiteral(s);
    if first.Unreadable? then None
    else if first.rest == "" then Some([first.value])
    else if first.rest[0] != ',' || |first.rest| > |s| then None
    else
      var more := ReadRow(first.rest[1..]);
      if more.None? then None else Some([first.value] + more.value)
  }

  // Flags are stored as integers.
  function Stored(v: Value): Value {
    if v.Flag? then Int(if v.b then 1 else 0) else v
  }

  function StoredRow(vs: seq<Value>): seq<Value> {
    if vs == [] then [] else [Stored(vs[0])] + StoredRow(vs[1..])
  }

  // The literal is followed by the end of the row or by a comma.
  predicate Delimited(rest: string) {
    rest == "" || rest[0] == ','
  }

  lemma {:induction false} TextReadsBack(t: string, rest: string)
    requires Delimited(rest)
    ensures ReadText(Double(t) + [QUOTE] + rest) == Read(t, rest)
  {
    var s := Double(t) + [QUOTE] + rest;
    if t == "" {
      assert s == [QUOTE] + rest;
      assert s[1..] == rest;
    } else {
      var first := if t[0] == QUOTE then [QUOTE, QUOTE] else [t[0]];
      assert s == first + (Double(t[1..]) + [QUOTE] + rest);
      assert s[|first|..] == Double(t[1..]) + [QUOTE] + rest;
      TextReadsBack(t[1..], rest);
      assert [t[0]] + t[1..] == t;
    }
  }

  /** Unquoting a quoted string gives the string back. */
  lemma QuoteReadsBack(t: string)
    ensures ReadLiteral(QuoteString(t)) == Read(Text(t), "")
  {
    TextReadsBack(t, "");
    assert QuoteString(t)[1..] == Double(t) + [QUOTE] + "";
  }

  lemma {:induction false} DigitsReadBack(n: nat)
    ensures Number(Digits(n)) == n
  {
    if n >= 10 {
      DigitsReadBack(n / 10);
      assert Digits(n)[..|Digits(n)| - 1] == Digits(n / 10);
    } else {
      assert [Digit(n)][..0] == "";
    }
  }

  lemma {:induction false} RunStops(ds: string, rest: string)
    requires (forall k :: 0 <= k < |ds| ==> IsDigit(ds[k])) && (rest == "" || !IsDigit(rest[0]))
    ensures DigitRun(ds + rest) == |ds|
  {
    if ds == "" {
      assert ds + rest == rest;
    } else {
      assert (ds + rest)[1..] == ds[1..] + rest;
      RunStops(ds[1..], rest);
    }
  }

  lemma NumberReadsBack(n: nat, rest: string)
    requires Delimited(rest)
    ensures ReadNumber(Digits(n) + rest) == Read(n, rest)
  {
    RunStops(Digits(n), rest);
    DigitsReadBack(n);
    assert (Digits(n) + rest)[..|Digits(n)|] == Digits(n);
    assert (Digits(n) + rest)[|Digits(n)|..] == rest;
  }

  lemma PositiveReads(ds: string, rest: string, v: int)
    requires ds != "" && IsDigit(ds[0]) && ReadNumber(ds + rest) == Read(v, rest)
    ensures ReadLiteral(ds + rest) == Read(Int(v), rest)
  {
    assert (ds + rest)[0] == ds[0];
  }

  lemma NegativeReads(ds: string, rest: string, v: int)
    requires ReadNumber(ds + rest) == Read(v, rest)
    ensures ReadLiteral("-" + ds + rest) == Read(Int(-v), rest)
  {
    var s := "-" + ds + rest;
    assert s[0] == '-' && s[1..] == ds + rest;
  }

  lemma IntReadsBack(n: int, rest: string)
    requires Delimited(rest)
    ensures ReadLiteral(Decimal(n) + rest) == Read(Int(n), rest)
  {
    if n < 0 {
      NumberReadsBack(-n, rest);
      NegativeReads(Digits(-n), rest, -n);
    } else {
      NumberReadsBack(n, rest);
      PositiveReads(Digits(n), rest, n);
    }
  }

  lemma LiteralReadsBack(v: Value, rest: string)
    requires Delimited(rest)
    ensures ReadLiteral(Literal(v) + rest) == Read(Stored(v), rest)
  {
    match v {
      case Null =>
        assert ("NULL" + rest)[..4] == "NULL" && ("NULL" + rest)[4..] == rest;
      case Int(n) => IntReadsBack(n, rest);
      case Flag(b) =>
        IntReadsBack(if b then 1 else 0, rest);
        assert Digits(1) == "1" && Digits(0) == "0";
      case Text(t) =>
        TextReadsBack(t, rest);
        assert (QuoteString(t) + rest)[1..] == Double(t) + [QUOTE] + rest;
    }
  }

  /** The VALUES list of a dumped row reads back as the row, for every mixture of NULLs, integers,
      flags and texts, including texts with quotes, commas and semicolons. */
  lemma {:induction false} RowReadsBack(vs: seq<Value>)
    requires vs != []
    ensures ReadRow(Join(vs)) == Some(StoredRow(vs))
  {
    if |vs| == 1 {
      LiteralReadsBack(vs[0], "");
      assert Literal(vs[0]) + "" == Literal(vs[0]);
      assert StoredRow(vs) == [Stored(vs[0])] + StoredRow(vs[1..]) == [Stored(vs[0])];
    } else {
      var rest := "," + Join(vs[1..]);
      LiteralReadsBack(vs[0], rest);
      assert Join(vs) == Literal(vs[0]) + rest;
      assert rest[1..] == Join(vs[1..]);
      RowReadsBack(vs[1..]);
    }
  }
}
