/**
 * Text form of a grid, as persisted: the compact JSON array of arrays of
 * integers that Gson writes for a `List<List<Int>>`, e.g. `[[1,0],[-2]]`.
 * The decoder reads this compact form; like a lenient reader it also takes
 * leading zeros (`01`) and a negative zero (`-0`), which the encoder never
 * writes.
 */
module GridCodec {
  import opened Wrappers
  import opened PuzzleModel

  predicate IsDigit(c: char) {
    '0' <= c <= '9'
  }

  predicate AllDigits(s: string) {
    forall i :: 0 <= i < |s| ==> IsDigit(s[i])
  }

  function DigitChar(d: nat): (c: char)
    requires d < 10
    ensures IsDigit(c) && c as int - '0' as int == d
  {
    ('0' as int + d) as char
  }

  /** The value of a digit character (0 for any other character). */
  function DigitValue(c: char): nat {
    if IsDigit(c) then c as int - '0' as int else 0
  }

  // ---------------------------------------------------------------- encoding

  /** Decimal digits of `n`, most significant first, without leading zeros. */
  function NatText(n: nat): (s: string)
    ensures |s| >= 1
    decreases n
  {
    if n < 10 then [DigitChar(n)] else NatText(n / 10) + [DigitChar(n % 10)]
  }

  function IntText(n: int): string {
    if n < 0 then "-" + NatText(-n) else NatText(n)
  }

  /** The items of a row, comma separated. */
  function RowItemsText(row: seq<int>): string {
    if |row| == 0 then ""
    else if |row| == 1 then IntText(row[0])
    else IntText(row[0]) + "," + RowItemsText(row[1..])
  }

  function RowText(row: seq<int>): string {
    "[" + RowItemsText(row) + "]"
  }

  /** The rows of a grid, comma separated. */
  function GridItemsText(g: Grid): string {
    if |g| == 0 then ""
    else if |g| == 1 then RowText(g[0])
    else RowText(g[0]) + "," + GridItemsText(g[1..])
  }

  /** A whole grid: its rows inside one pair of brackets. */
  function EncodeGrid(g: Grid): (s: string)
    ensures |s| >= 2 && s[0] == '[' && s[|s| - 1] == ']'
    ensures s == "[]" <==> |g| == 0
  {
    assert |g| > 0 ==> GridItemsText(g)[0] == '[' by {
      if |g| > 0 { GridItemsTextOpens(g); }
    }
    "[" + GridItemsText(g) + "]"
  }

  // ---------------------------------------------------------------- decoding

  /** Number of leading digits of `s`. */
  function DigitSpan(s: string): (k: nat)
    ensures k <= |s|
    ensures k < |s| ==> !IsDigit(s[k])
  {
    if |s| == 0 || !IsDigit(s[0]) then 0 else 1 + DigitSpan(s[1..])
  }

  /** Value of a digit string, most significant digit first. */
  function DigitsValue(s: string): nat {
    if |s| == 0 then 0 else DigitsValue(s[..|s| - 1]) * 10 + DigitValue(s[|s| - 1])
  }

  /** A decimal natural number at the head of `s`, and what follows it. */
  function ParseNat(s: string): (r: Option<(nat, string)>)
    ensures r.Some? ==> |r.value.1| < |s|
  {
    var k := DigitSpan(s);
    if k == 0 then None else Some((DigitsValue(s[..k]), s[k..]))
  }

  /** An optionally negative decimal integer at the head of `s`, and what follows it. */
  function ParseInt(s: string): (r: Option<(int, string)>)
    ensures r.Some? ==> |r.value.1| < |s|
  {
    if |s| > 0 && s[0] == '-' then
      match ParseNat(s[1..])
      case None => None
      case Some((n, rest)) => Some((-(n as int), rest))
    else
      match ParseNat(s)
      case None => None
      case Some((n, rest)) => Some((n, rest))
  }

  /** One or more comma-separated integers at the head of `s`. */
  function ParseRowItems(s: string): (r: Option<(seq<int>, string)>)
    ensures r.Some? ==> |r.value.1| < |s|
    decreases |s|
  {
    match ParseInt(s)
    case None => None
    case Some((n, rest)) =>
      if |rest| > 0 && rest[0] == ',' then
        match ParseRowItems(rest[1..])
        case None => None
        case Some((ns, rest')) => Some(([n] + ns, rest'))
      else Some(([n], rest))
  }

  /** A bracketed row at the head of `s`, and what follows it. */
  function ParseRow(s: string): (r: Option<(seq<int>, string)>)
    ensures r.Some? ==> |r.value.1| < |s|
  {
    if |s| == 0 || s[0] != '[' then None
    else if |s| > 1 && s[1] == ']' then Some(([], s[2..]))
    else
      match ParseRowItems(s[1..])
      case None => None
      case Some((row, rest)) =>
        if |rest| > 0 && rest[0] == ']' then Some((row, rest[1..])) else None
  }

  /** One or more comma-separated rows at the head of `s`. */
  function ParseGridItems(s: string): (r: Option<(Grid, string)>)
    ensures r.Some? ==> |r.value.1| < |s|
    ensures r.Some? ==> |r.value.0| > 0
    decreases |s|
  {
    match ParseRow(s)
    case None => None
    case Some((row, rest)) =>
      if |rest| > 0 && rest[0] == ',' then
        match ParseGridItems(rest[1..])
        case None => None
        case Some((rows, rest')) => Some(([row] + rows, rest'))
      else Some(([row], rest))
  }

  /** The whole of `s` as a grid, or nothing when it is not one. */
  function DecodeGrid(s: string): (r: Option<Grid>)
    ensures r.Some? ==> |s| >= 2 && s[0] == '['
    ensures r == Some([]) <==> s == "[]"
  {
    if |s| == 0 || s[0] != '[' then None
    else if |s| > 1 && s[1] == ']' then
      if |s| == 2 then Some([]) else None
    else
      match ParseGridItems(s[1..])
      case None => None
      case Some((g, rest)) => if |rest| == 1 && rest[0] == ']' then Some(g) else None
  }

  // ---------------------------------------------------------------- round trip

  /** Regrouping `a + b + c` followed by `d`. */
  lemma {:induction false} Regroup(a: string, b: string, c: string, d: string)
    ensures a + b + c + d == a + (b + (c + d))
  {
  }

  lemma {:induction false} DigitsValueOfNatText(n: nat)
    ensures DigitsValue(NatText(n)) == n
    decreases n
  {
    if n >= 10 {
      var s := NatText(n);
      DigitsValueOfNatText(n / 10);
      assert s[..|s| - 1] == NatText(n / 10);
    }
  }

  lemma {:induction false} NatTextDigits(n: nat)
    ensures AllDigits(NatText(n))
    decreases n
  {
    if n >= 10 {
      NatTextDigits(n / 10);
    }
  }

  lemma {:induction false} DigitSpanOfDigits(d: string, rest: string)
    requires AllDigits(d)
    requires |rest| == 0 || !IsDigit(rest[0])
    ensures DigitSpan(d + rest) == |d|
  {
    if |d| > 0 {
      assert (d + rest)[1..] == d[1..] + rest;
      DigitSpanOfDigits(d[1..], rest);
    }
  }

  /** A natural number's digits are read back as that number, leaving what follows. */
  lemma {:induction false} NatTextThen(n: nat, rest: string)
    requires |rest| == 0 || !IsDigit(rest[0])
    ensures ParseNat(NatText(n) + rest) == Some((n, rest))
  {
    var d := NatText(n);
    NatTextDigits(n);
    DigitSpanOfDigits(d, rest);
    DigitsValueOfNatText(n);
    assert (d + rest)[..|d|] == d;
    assert (d + rest)[|d|..] == rest;
  }

  lemma {:induction false} NonNegativeIntTextThen(n: nat, rest: string)
    requires |rest| == 0 || !IsDigit(rest[0])
    ensures ParseInt(IntText(n) + rest) == Some((n, rest))
  {
    var s := NatText(n) + rest;
    assert IntText(n) == NatText(n);
    NatTextThen(n, rest);
    assert s[0] == NatText(n)[0];
  }

  /** A leading minus sign negates the natural number that follows it. */
  lemma {:induction false} ParseIntAfterMinus(t: string)
    ensures ParseNat(t).Some? ==>
              ParseInt(['-'] + t) == Some((-(ParseNat(t).value.0 as int), ParseNat(t).value.1))
  {
    var s := ['-'] + t;
    assert s[0] == '-' && s[1..] == t;
  }

  /** A negative integer's text, split after its minus sign. */
  lemma {:induction false} NegativeIntTextSplit(n: int, rest: string)
    requires n < 0
    ensures IntText(n) + rest == ['-'] + (NatText(-n) + rest)
  {
    assert IntText(n) == ['-'] + NatText(-n);
  }

  lemma {:induction false} NegativeIntTextThen(n: int, rest: string)
    requires n < 0
    requires |rest| == 0 || !IsDigit(rest[0])
    ensures ParseInt(IntText(n) + rest) == Some((n, rest))
  {
    var m: nat := -n;
    NatTextThen(m, rest);
    ParseIntAfterMinus(NatText(m) + rest);
    NegativeIntTextSplit(n, rest);
  }

  /** An integer's text is read back as that integer, leaving what follows. */
  lemma {:induction false} IntTextThen(n: int, rest: string)
    requires |rest| == 0 || !IsDigit(rest[0])
    ensures ParseInt(IntText(n) + rest) == Some((n, rest))
  {
    if n < 0 {
      NegativeIntTextThen(n, rest);
    } else {
      NonNegativeIntTextThen(n, rest);
    }
  }

  /** How the items parser proceeds once an integer has been read. */
  lemma {:induction false} ParseRowItemsAfterInt(s: string, n: int, t: string)
    requires ParseInt(s) == Some((n, t))
    ensures |t| > 0 && t[0] == ',' && ParseRowItems(t[1..]).Some? ==>
              ParseRowItems(s) == Some(([n] + ParseRowItems(t[1..]).value.0, ParseRowItems(t[1..]).value.1))
    ensures (|t| == 0 || t[0] != ',') ==> ParseRowItems(s) == Some(([n], t))
  {
  }

  /** An integer, a comma and more items read as one longer row. */
  lemma {:induction false} ParseRowItemsCons(s: string, n: int, t: string, ns: seq<int>, rest: string)
    requires ParseInt(s) == Some((n, [','] + t))
    requires ParseRowItems(t) == Some((ns, rest))
    ensures ParseRowItems(s) == Some(([n] + ns, rest))
  {
    assert ([','] + t)[1..] == t;
    ParseRowItemsAfterInt(s, n, [','] + t);
  }

  /** The items text of a row of two or more integers, split after its first integer. */
  lemma {:induction false} RowItemsTextSplit(row: seq<int>, rest: string)
    requires |row| > 1
    ensures RowItemsText(row) + rest == IntText(row[0]) + ([','] + (RowItemsText(row[1..]) + rest))
  {
    assert RowItemsText(row) == IntText(row[0]) + "," + RowItemsText(row[1..]);
    Regroup(IntText(row[0]), ",", RowItemsText(row[1..]), rest);
  }

  /** The items text of a row of two or more integers, read given that its tail reads back. */
  lemma {:induction false} RowItemsStep(row: seq<int>, rest: string)
    requires |row| > 1
    requires ParseRowItems(RowItemsText(row[1..]) + rest) == Some((row[1..], rest))
    ensures ParseRowItems(RowItemsText(row) + rest) == Some((row, rest))
  {
    var tail := RowItemsText(row[1..]) + rest;
    RowItemsTextSplit(row, rest);
    IntTextThen(row[0], [','] + tail);
    ParseRowItemsCons(RowItemsText(row) + rest, row[0], tail, row[1..], rest);
    assert [row[0]] + row[1..] == row;
  }

  lemma {:induction false} RowItemsThen(row: seq<int>, rest: string)
    requires |row| > 0
    requires |rest| == 0 || (rest[0] != ',' && !IsDigit(rest[0]))
    ensures ParseRowItems(RowItemsText(row) + rest) == Some((row, rest))
    decreases |row|
  {
    if |row| == 1 {
      var head := IntText(row[0]);
      assert RowItemsText(row) == head;
      IntTextThen(row[0], rest);
      ParseRowItemsAfterInt(head + rest, row[0], rest);
      assert [row[0]] == row;
    } else {
      RowItemsThen(row[1..], rest);
      RowItemsStep(row, rest);
    }
  }

  lemma {:induction false} RowThen(row: seq<int>, rest: string)
    ensures ParseRow(RowText(row) + rest) == Some((row, rest))
  {
    var items := RowItemsText(row);
    var closed := "]" + rest;
    var s := RowText(row) + rest;
    Regroup("[", items, "]", rest);
    assert s == ['['] + (items + closed);
    if |row| == 0 {
      assert s == ['[', ']'] + rest;
      assert s[2..] == rest;
    } else {
      assert s[1..] == items + closed;
      RowItemsThen(row, closed);
      assert closed[1..] == rest;
    }
  }

  /** How the rows parser proceeds once a row has been read. */
  lemma {:induction false} ParseGridItemsAfterRow(s: string, row: seq<int>, t: string)
    requires ParseRow(s) == Some((row, t))
    ensures |t| > 0 && t[0] == ',' && ParseGridItems(t[1..]).Some? ==>
              ParseGridItems(s) == Some(([row] + ParseGridItems(t[1..]).value.0, ParseGridItems(t[1..]).value.1))
    ensures (|t| == 0 || t[0] != ',') ==> ParseGridItems(s) == Some(([row], t))
  {
  }

  /** The rows text of a grid of two or more rows, read given that its tail reads back. */
  lemma {:induction false} GridItemsStep(g: Grid, rest: string)
    requires |g| > 1
    requires ParseGridItems(GridItemsText(g[1..]) + rest) == Some((g[1..], rest))
    ensures ParseGridItems(GridItemsText(g) + rest) == Some((g, rest))
  {
    var head := RowText(g[0]);
    var tail := GridItemsText(g[1..]) + rest;
    var comma := [','] + tail;
    assert GridItemsText(g) == head + "," + GridItemsText(g[1..]);
    Regroup(head, ",", GridItemsText(g[1..]), rest);
    RowThen(g[0], comma);
    assert comma[1..] == tail;
    ParseGridItemsAfterRow(head + comma, g[0], comma);
    assert [g[0]] + g[1..] == g;
  }

  lemma {:induction false} GridItemsThen(g: Grid, rest: string)
    requires |g| > 0
    requires |rest| == 0 || rest[0] != ','
    ensures ParseGridItems(GridItemsText(g) + rest) == Some((g, rest))
    decreases |g|
  {
    if |g| == 1 {
      var head := RowText(g[0]);
      assert GridItemsText(g) == head;
      RowThen(g[0], rest);
      ParseGridItemsAfterRow(head + rest, g[0], rest);
      assert [g[0]] == g;
    } else {
      GridItemsThen(g[1..], rest);
      GridItemsStep(g, rest);
    }
  }

  lemma {:induction false} GridItemsTextOpens(g: Grid)
    requires |g| > 0
    ensures |GridItemsText(g)| > 0 && GridItemsText(g)[0] == '['
  {
    var head := RowText(g[0]);
    assert head[0] == '[';
    if |g| > 1 {
      assert GridItemsText(g) == head + "," + GridItemsText(g[1..]);
    }
  }

  /** Decoding an encoded grid gives the grid back, rows and order included. */
  lemma {:induction false} DecodeEncodeGrid(g: Grid)
    ensures DecodeGrid(EncodeGrid(g)) == Some(g)
  {
    var items := GridItemsText(g);
    var s := EncodeGrid(g);
    if |g| == 0 {
      assert s == "[]";
    } else {
      GridItemsTextOpens(g);
      var closing := "]";
      assert s == ['['] + (items + closing);
      assert s[0] == '[' && s[1] == '[' && s[1..] == items + closing;
      GridItemsThen(g, closing);
    }
  }

  /** Text that is not a bracketed grid of rows does not decode. */
  lemma {:induction false} MalformedTextDoesNotDecode()
    ensures DecodeGrid("") == None
    ensures DecodeGrid("x") == None
    ensures DecodeGrid("[5]") == None
    ensures DecodeGrid("[[]") == None
  {
    assert "[5]"[1..] == "5]";
    assert "[[]"[1..] == "[]";
    assert "[]"[2..] == "";
  }
}
