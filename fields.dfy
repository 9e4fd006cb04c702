/**
 * Field parsers of the statement parser: the percentage, dollar-amount and
 * date recognisers applied to single text cells.
 *
 * The percentage and amount patterns are applied with Python's `re.match`,
 * which anchors at the start of the cell only, so a valid prefix is enough
 * and whatever follows it is ignored. The date pattern is anchored at both
 * ends, and Python's `$` also matches just before one final newline.
 * Digits are the ASCII digits '0'..'9'.
 */
module Fields {

  /** The offending cell text of a `ParseException`. */
  datatype ParseError =
    | InvalidPercent(text: string)
    | InvalidAmount(text: string)

  datatype Option<T> = None | Some(value: T)

  /** A value, or the `ParseException` that replaces it. */
  datatype Result<T> = Ok(value: T) | Err(error: ParseError)

  /** An exact decimal number: `units / 10^scale`. */
  datatype Decimal = Decimal(units: int, scale: nat)

  function Pow10(n: nat): (p: nat)
    ensures p >= 1
  {
    if n == 0 then 1 else 10 * Pow10(n - 1)
  }

  /** The number a decimal stands for. */
  function Value(d: Decimal): real
  {
    d.units as real / Pow10(d.scale) as real
  }

  function Negate(d: Decimal): Decimal
  {
    Decimal(-d.units, d.scale)
  }

  /** Negating a decimal negates the number it stands for. */
  lemma NegateValue(d: Decimal)
    ensures Value(Negate(d)) == -Value(d)
  {
    NegDiv(d.units as real, Pow10(d.scale) as real);
  }

  function Signed(negative: bool, v: nat): int
  {
    if negative then -(v as int) else v
  }

  /** The text of the optional leading minus sign. */
  function Sign(negative: bool): string
  {
    if negative then "-" else ""
  }

  predicate IsDigit(c: char)
  {
    '0' <= c <= '9'
  }

  predicate IsDigits(s: string)
  {
    forall i :: 0 <= i < |s| ==> IsDigit(s[i])
  }

  /** Length of the run of digits at the start of `s` (a greedy `\d*`). */
  function DigitSpan(s: string): (n: nat)
    ensures n <= |s|
    ensures IsDigits(s[..n])
    ensures n < |s| ==> !IsDigit(s[n])
  {
    if s != "" && IsDigit(s[0]) then
      var n := 1 + DigitSpan(s[1..]);
      assert s[..n] == [s[0]] + s[1..][..n - 1];
      n
    else
      0
  }

  /** The decimal number written by a string of digits. */
  function DigitsValue(s: string): (v: nat)
    requires IsDigits(s)
    ensures v < Pow10(|s|)
  {
    if s == "" then 0 else 10 * DigitsValue(s[..|s| - 1]) + (s[|s| - 1] as int - '0' as int)
  }

  /** The groups of a successful `PERCENT_PAT.match`: the minus sign and the digits. */
  datatype PercentMatch = PercentMatch(minus: bool, digits: string)

  /** `PERCENT_PAT.match(p)` for `(-?)(\d+)\%`, anchored at the start only. */
  function MatchPercent(p: string): (m: Option<PercentMatch>)
    ensures m.Some? ==> m.value.digits != "" && IsDigits(m.value.digits)
  {
    var minus := p != "" && p[0] == '-';
    var s := if minus then p[1..] else p;
    var n := DigitSpan(s);
    if 0 < n < |s| && s[n] == '%' then Some(PercentMatch(minus, s[..n])) else None
  }

  /**
   * `_parse_percent`: the empty cell is 0; otherwise the cell must start
   * with `-?\d+%` and the result is the signed digit value, in hundredths.
   */
  function ParsePercent(p: string): (r: Result<int>)
    ensures p == "" ==> r == Ok(0)
    ensures r.Err? ==> r.error == InvalidPercent(p)
  {
    if p == "" then Ok(0)
    else
      match MatchPercent(p)
      case None => Err(InvalidPercent(p))
      case Some(m) => Ok(Signed(m.minus, DigitsValue(m.digits)))
  }

  /** The groups of a successful `AMOUNT_PAT.match`: the minus sign and the digits around the point. */
  datatype AmountMatch = AmountMatch(minus: bool, whole: string, frac: string)

  /** The text an amount match covers: `-?$whole.frac`. */
  function AmountText(m: AmountMatch): string
  {
    Sign(m.minus) + "$" + m.whole + "." + m.frac
  }

  /**
   * `AMOUNT_PAT.match(p)` for `(-?)\$(\d+\.\d+)`, anchored at the start
   * only; both digit groups are greedy runs.
   */
  function MatchAmount(p: string): (m: Option<AmountMatch>)
    ensures m.Some? ==> m.value.whole != "" && IsDigits(m.value.whole)
    ensures m.Some? ==> m.value.frac != "" && IsDigits(m.value.frac)
  {
    var minus := p != "" && p[0] == '-';
    var s := if minus then p[1..] else p;
    if s == "" || s[0] != '$' then None
    else
      var t := s[1..];
      var n := DigitSpan(t);
      if !(0 < n < |t| && t[n] == '.') then None
      else
        var u := t[n + 1..];
        var f := DigitSpan(u);
        if f == 0 then None else Some(AmountMatch(minus, t[..n], u[..f]))
  }

  /** The exact decimal an amount match stands for: its digits without the point, scaled by the fraction's length. */
  function MatchValue(m: AmountMatch): (d: Decimal)
    requires IsDigits(m.whole) && IsDigits(m.frac)
    ensures d.scale == |m.frac|
    ensures m.minus ==> d.units <= 0
    ensures !m.minus ==> d.units >= 0
  {
    Decimal(Signed(m.minus, DigitsValue(m.whole) * Pow10(|m.frac|) + DigitsValue(m.frac)), |m.frac|)
  }

  /**
   * `_parse_amount`: the empty cell is 0; otherwise the cell must start with
   * `-?\$\d+\.\d+` and the result is the signed decimal, negated once more
   * when `negate` is set.
   */
  function ParseAmount(p: string, negate: bool): (r: Result<Decimal>)
    ensures p == "" ==> r == Ok(Decimal(0, 0))
    ensures r.Err? ==> r.error == InvalidAmount(p)
  {
    if p == "" then Ok(Decimal(0, 0))
    else
      match MatchAmount(p)
      case None => Err(InvalidAmount(p))
      case Some(m) => Ok(if negate then Negate(MatchValue(m)) else MatchValue(m))
  }

  /** The ten characters `dd/dd/dddd`. */
  predicate DateText(s: string)
  {
    && |s| == 10
    && IsDigits(s[0..2]) && s[2] == '/'
    && IsDigits(s[3..5]) && s[5] == '/'
    && IsDigits(s[6..10])
  }

  /** `DATE_PAT.match`: `^\d{2}/\d{2}/\d{4}$`, where `$` may stand before a final newline. */
  predicate IsDate(s: string)
    ensures IsDate(s) ==> (|s| == 10 || (|s| == 11 && s[10] == '\n')) && DateText(s[..10])
  {
    assert |s| == 10 ==> s[..10] == s;
    DateText(s) || (|s| == 11 && s[10] == '\n' && DateText(s[..10]))
  }

  /** The result of `ParseAmount` with the negate flag applied to it afterwards. */
  function NegatedResult(r: Result<Decimal>): Result<Decimal>
  {
    match r
    case Ok(d) => Ok(Negate(d))
    case Err(e) => Err(e)
  }

  // ---------------------------------------------------------------------------
  // Digits

  /** The digit run of `d + r` is exactly `d` when `d` is digits and `r` does not start with one. */
  lemma {:induction false} SpanOfDigits(d: string, r: string)
    requires IsDigits(d)
    requires r == "" || !IsDigit(r[0])
    ensures DigitSpan(d + r) == |d|
  {
    if d != "" {
      assert (d + r)[0] == d[0];
      assert (d + r)[1..] == d[1..] + r;
      SpanOfDigits(d[1..], r);
    } else {
      assert d + r == r;
    }
  }

  /** The sign prefix of a cell is recognised exactly: the cell after it is what follows the sign. */
  lemma SignPrefix(negative: bool, s: string)
    requires s != "" && s[0] != '-'
    ensures var p := Sign(negative) + s;
            (p != "" && p[0] == '-') == negative && (if negative then p[1..] else p) == s
  {
    var p := Sign(negative) + s;
    if negative {
      assert p[1..] == s;
    } else {
      assert p == s;
    }
  }

  // ---------------------------------------------------------------------------
  // Percentages

  /** Every cell that starts with `-?digits%` parses to the signed digit value, whatever follows. */
  lemma PercentOfForm(negative: bool, digits: string, rest: string)
    requires digits != "" && IsDigits(digits)
    ensures MatchPercent(Sign(negative) + digits + "%" + rest) == Some(PercentMatch(negative, digits))
    ensures ParsePercent(Sign(negative) + digits + "%" + rest) == Ok(Signed(negative, DigitsValue(digits)))
  {
    var s := digits + ("%" + rest);
    assert Sign(negative) + digits + "%" + rest == Sign(negative) + s;
    assert s[0] == digits[0];
    SignPrefix(negative, s);
    SpanOfDigits(digits, "%" + rest);
    assert s[..|digits|] == digits && s[|digits|] == '%';
  }

  /** Every non-empty cell that parses is of the form `-?digits%rest`, and its value is the signed digits. */
  lemma PercentForm(p: string) returns (negative: bool, digits: string, rest: string)
    requires p != "" && ParsePercent(p).Ok?
    ensures digits != "" && IsDigits(digits)
    ensures p == Sign(negative) + digits + "%" + rest
    ensures ParsePercent(p) == Ok(Signed(negative, DigitsValue(digits)))
  {
    negative := p[0] == '-';
    var s := if negative then p[1..] else p;
    var n := DigitSpan(s);
    digits, rest := s[..n], s[n + 1..];
    SplitAt(p, negative, s, n);
  }

  /** Cutting a cell after its sign and once more around the character at `n`. */
  lemma SplitAt(p: string, negative: bool, s: string, n: nat)
    requires p != "" && negative == (p[0] == '-') && s == (if negative then p[1..] else p)
    requires n < |s|
    ensures p == Sign(negative) + s[..n] + [s[n]] + s[n + 1..]
  {
    assert p == Sign(negative) + s;
    assert s == s[..n] + [s[n]] + s[n + 1..];
  }

  // ---------------------------------------------------------------------------
  // Amounts

  /**
   * Every cell that starts with `-?$whole.frac`, where `frac` is the whole
   * run of digits after the point, parses to the signed decimal `whole.frac`,
   * negated when `negate` is set, whatever follows.
   */
  lemma AmountOfForm(negative: bool, whole: string, frac: string, rest: string, negate: bool)
    requires whole != "" && IsDigits(whole) && frac != "" && IsDigits(frac)
    requires rest == "" || !IsDigit(rest[0])
    ensures var m := AmountMatch(negative, whole, frac);
            && MatchAmount(AmountText(m) + rest) == Some(m)
            && ParseAmount(AmountText(m) + rest, negate) == Ok(if negate then Negate(MatchValue(m)) else MatchValue(m))
  {
    MatchAmountOfForm(AmountMatch(negative, whole, frac), rest);
  }

  lemma MatchAmountOfForm(m: AmountMatch, rest: string)
    requires m.whole != "" && IsDigits(m.whole) && m.frac != "" && IsDigits(m.frac)
    requires rest == "" || !IsDigit(rest[0])
    ensures MatchAmount(AmountText(m) + rest) == Some(m)
  {
    Concat6(Sign(m.minus), "$", m.whole, ".", m.frac, rest);
    MatchAmountOfParts(m.minus, m.whole, m.frac, rest);
  }

  lemma MatchAmountOfParts(minus: bool, whole: string, frac: string, rest: string)
    requires whole != "" && IsDigits(whole) && frac != "" && IsDigits(frac)
    requires rest == "" || !IsDigit(rest[0])
    ensures MatchAmount(Sign(minus) + ("$" + (whole + ("." + (frac + rest))))) == Some(AmountMatch(minus, whole, frac))
  {
    var u := frac + rest;
    var t := whole + ("." + u);
    var s := "$" + t;
    SignPrefix(minus, s);
    SpanOfDigits(whole, "." + u);
    SpanOfDigits(frac, rest);
    AfterPoint(whole, u);
    PrefixOf(whole, "." + u);
    PrefixOf(frac, rest);
    PrefixOf("$", t);
    MatchAmountAt(Sign(minus) + s, s, t, |whole|, u, |frac|);
  }

  /** Every non-empty cell that parses is of the form `-?$whole.frac rest`, where `rest` does not start with a digit. */
  lemma AmountForm(p: string, negate: bool) returns (negative: bool, whole: string, frac: string, rest: string)
    requires p != "" && ParseAmount(p, negate).Ok?
    ensures whole != "" && IsDigits(whole) && frac != "" && IsDigits(frac)
    ensures rest == "" || !IsDigit(rest[0])
    ensures var m := AmountMatch(negative, whole, frac);
            && p == AmountText(m) + rest
            && ParseAmount(p, negate) == Ok(if negate then Negate(MatchValue(m)) else MatchValue(m))
  {
    var m := MatchAmount(p).value;
    negative, whole, frac := m.minus, m.whole, m.frac;
    rest := MatchAmountSplit(p);
  }

  /** A cell that matches is the text of its match followed by a rest that does not start with a digit. */
  lemma MatchAmountSplit(p: string) returns (rest: string)
    requires MatchAmount(p).Some?
    ensures p == AmountText(MatchAmount(p).value) + rest
    ensures rest == "" || !IsDigit(rest[0])
  {
    var negative, s, t, n, u, f := MatchAmountPieces(p);
    var whole, frac := t[..n], u[..f];
    rest := u[f..];
    assert rest != "" ==> rest[0] == u[f];
    SignSplit(p, negative, s);
    DollarSplit(s, t);
    PointSplit(t, n, whole, u);
    TailSplit(u, f, frac, rest);
    Assemble(Sign(negative), p, s, t, whole, u, frac, rest);
  }

  /** The pieces `MatchAmount` cuts a matching cell into. */
  lemma MatchAmountPieces(p: string) returns (negative: bool, s: string, t: string, n: nat, u: string, f: nat)
    requires MatchAmount(p).Some?
    ensures p != "" && negative == (p[0] == '-') && s == (if negative then p[1..] else p)
    ensures s != "" && s[0] == '$' && t == s[1..]
    ensures n < |t| && t[n] == '.' && u == t[n + 1..] && f <= |u| && (f < |u| ==> !IsDigit(u[f]))
    ensures MatchAmount(p).value == AmountMatch(negative, t[..n], u[..f])
  {
    negative := p != "" && p[0] == '-';
    s := if negative then p[1..] else p;
    t := s[1..];
    n := DigitSpan(t);
    u := t[n + 1..];
    f := DigitSpan(u);
  }

  /** The negate flag flips the sign of the parsed amount and nothing else; errors are the same. */
  lemma AmountNegate(p: string)
    ensures ParseAmount(p, true) == NegatedResult(ParseAmount(p, false))
  {
  }

  /** A matched amount stands for the number `±(whole + frac / 10^|frac|)`. */
  lemma AmountValue(m: AmountMatch)
    requires IsDigits(m.whole) && IsDigits(m.frac)
    ensures var v := DigitsValue(m.whole) as real + DigitsValue(m.frac) as real / Pow10(|m.frac|) as real;
            Value(MatchValue(m)) == if m.minus then -v else v
  {
    var w, f, q := DigitsValue(m.whole), DigitsValue(m.frac), Pow10(|m.frac|);
    var n: nat := w * q + f;
    assert MatchValue(m) == Decimal(Signed(m.minus, n), |m.frac|);
    SignedValue(m.minus, n, |m.frac|);
    ScaledValue(w, f, q);
  }

  lemma SignedValue(negative: bool, n: nat, scale: nat)
    ensures var v := n as real / Pow10(scale) as real;
            Value(Decimal(Signed(negative, n), scale)) == if negative then -v else v
  {
    if negative {
      NegDiv(n as real, Pow10(scale) as real);
    }
  }

  lemma ScaledValue(w: nat, f: nat, q: nat)
    requires q >= 1
    ensures (w * q + f) as real / q as real == w as real + f as real / q as real
  {
    var W, F, Q := w as real, f as real, q as real;
    assert (w * q + f) as real == W * Q + F;
    assert (W * Q) / Q == W;
    assert (W * Q + F) / Q == (W * Q) / Q + F / Q;
  }

  lemma NegDiv(x: real, q: real)
    requires q > 0.0
    ensures (-x) / q == -(x / q)
  {
  }

  // ---------------------------------------------------------------------------
  // Sequence steps
  //
  // The lemmas of this section only cut the amount proofs above into small
  // verification conditions: each states one fact about slicing or
  // concatenating strings, and none of them is a property of the parser.

  /** `MatchAmount` in terms of the pieces it cuts the cell into. */
  lemma MatchAmountAt(p: string, s: string, t: string, n: nat, u: string, f: nat)
    requires s == (if p != "" && p[0] == '-' then p[1..] else p)
    requires s != "" && s[0] == '$' && t == s[1..]
    requires DigitSpan(t) == n && 0 < n < |t| && t[n] == '.'
    requires u == t[n + 1..] && DigitSpan(u) == f && f > 0
    ensures MatchAmount(p) == Some(AmountMatch(p != "" && p[0] == '-', t[..n], u[..f]))
  {
  }

  lemma PrefixOf(a: string, b: string)
    ensures (a + b)[..|a|] == a && (a + b)[|a|..] == b
  {
  }

  lemma AfterPoint(whole: string, u: string)
    ensures (whole + ("." + u))[|whole| + 1..] == u
  {
    assert (whole + ("." + u))[|whole|..] == "." + u;
  }

  lemma SignSplit(p: string, negative: bool, s: string)
    requires p != "" && negative == (p[0] == '-') && s == (if negative then p[1..] else p)
    ensures p == Sign(negative) + s
  {
  }

  lemma DollarSplit(s: string, t: string)
    requires s != "" && s[0] == '$' && t == s[1..]
    ensures s == "$" + t
  {
  }

  lemma PointSplit(t: string, n: nat, whole: string, u: string)
    requires n < |t| && t[n] == '.' && whole == t[..n] && u == t[n + 1..]
    ensures t == whole + ("." + u)
  {
    assert t == t[..n] + ([t[n]] + t[n + 1..]);
  }

  lemma TailSplit(u: string, f: nat, frac: string, rest: string)
    requires f <= |u| && frac == u[..f] && rest == u[f..]
    ensures u == frac + rest
  {
  }

  /** Gluing the pieces of an amount cell back together. */
  lemma Assemble(sign: string, p: string, s: string, t: string, whole: string, u: string, frac: string, rest: string)
    requires p == sign + s && s == "$" + t && t == whole + ("." + u) && u == frac + rest
    ensures p == sign + "$" + whole + "." + frac + rest
  {
    Concat6(sign, "$", whole, ".", frac, rest);
  }

  lemma Concat6(a: string, b: string, c: string, d: string, e: string, f: string)
    ensures a + b + c + d + e + f == a + (b + (c + (d + (e + f))))
  {
  }

  // ---------------------------------------------------------------------------
  // Dates

  /** `dd/mm/yyyy`, optionally followed by one newline, is a date for any digits. */
  lemma DateOfForm(dd: string, mm: string, yyyy: string)
    requires |dd| == 2 && |mm| == 2 && |yyyy| == 4
    requires IsDigits(dd) && IsDigits(mm) && IsDigits(yyyy)
    ensures IsDate(dd + "/" + mm + "/" + yyyy)
    ensures IsDate(dd + "/" + mm + "/" + yyyy + "\n")
  {
    var s := dd + "/" + mm + "/" + yyyy;
    assert s[0..2] == dd && s[3..5] == mm && s[6..10] == yyyy;
    assert (s + "\n")[..10] == s;
  }

  /** Every date is `dd/mm/yyyy` of digits with at most one trailing newline and nothing else. */
  lemma DateForm(s: string) returns (dd: string, mm: string, yyyy: string, newline: bool)
    requires IsDate(s)
    ensures |dd| == 2 && |mm| == 2 && |yyyy| == 4
    ensures IsDigits(dd) && IsDigits(mm) && IsDigits(yyyy)
    ensures s == dd + "/" + mm + "/" + yyyy + (if newline then "\n" else "")
  {
    newline := |s| == 11;
    dd, mm, yyyy := s[0..2], s[3..5], s[6..10];
    if newline {
      assert s[..10][0..2] == dd && s[..10][3..5] == mm && s[..10][6..10] == yyyy;
      assert s == s[0..2] + [s[2]] + s[3..5] + [s[5]] + s[6..10] + [s[10]];
    } else {
      assert s == s[0..2] + [s[2]] + s[3..5] + [s[5]] + s[6..10];
    }
  }
}
