/** JavaScript `Number(s)` applied to a string (ToNumber on a String value),
    restricted to the decimal-literal grammar: optional surrounding
    whitespace, an optional `+`/`-` sign, digits with an optional `.` and
    fraction, and an optional exponent. An all-whitespace string converts to
    0; every other string outside the grammar converts to NaN, written `None`.
    Values are exact reals. */
module JsNumber {
  import opened Wrappers
  import JsString

  predicate IsDigit(c: char) { '0' <= c <= '9' }

  predicate AllDigits(s: string)
  {
    forall k :: 0 <= k < |s| ==> IsDigit(s[k])
  }

  datatype Sign = NoSign | Plus | Minus

  /** `e`/`E`, an optional sign, and at least one digit. */
  datatype Exponent = Exponent(marker: char, sign: Sign, digits: string)

  /** A StrDecimalLiteral: sign, digits before the point, the optional
      `.` with the digits after it, and the optional exponent. */
  datatype Literal = Literal(sign: Sign, whole: string, fraction: Option<string>, exponent: Option<Exponent>)

  function FractionLength(f: Option<string>): nat
  {
    match f
    case None => 0
    case Some(d) => |d|
  }

  predicate WellFormedExponent(e: Exponent)
  {
    (e.marker == 'e' || e.marker == 'E') && |e.digits| > 0 && AllDigits(e.digits)
  }

  /** At least one digit in the mantissa, and digits only where digits go. */
  predicate WellFormed(lit: Literal)
  {
    && AllDigits(lit.whole)
    && (lit.fraction.Some? ==> AllDigits(lit.fraction.value))
    && |lit.whole| + FractionLength(lit.fraction) > 0
    && (lit.exponent.Some? ==> WellFormedExponent(lit.exponent.value))
  }

  // ---------------------------------------------------------------------
  // Printing a literal: the reference definition of the accepted strings.

  function SignText(s: Sign): string
  {
    match s
    case NoSign => ""
    case Plus => "+"
    case Minus => "-"
  }

  function FractionText(f: Option<string>): string
  {
    match f
    case None => ""
    case Some(d) => "." + d
  }

  function ExponentText(e: Option<Exponent>): string
  {
    match e
    case None => ""
    case Some(x) => [x.marker] + (SignText(x.sign) + x.digits)
  }

  function Render(lit: Literal): string
  {
    SignText(lit.sign) + (lit.whole + (FractionText(lit.fraction) + ExponentText(lit.exponent)))
  }

  // ---------------------------------------------------------------------
  // Scanning a string into a literal.

  /** Length of the longest all-digit prefix. */
  function DigitRun(s: string): (n: nat)
    ensures n <= |s| && AllDigits(s[..n])
    ensures n < |s| ==> !IsDigit(s[n])
  {
    if s != [] && IsDigit(s[0]) then
      var n := 1 + DigitRun(s[1..]);
      assert s[..n] == [s[0]] + s[1..][..n - 1];
      n
    else 0
  }

  function SplitSign(s: string): (Sign, string)
  {
    if s != [] && s[0] == '+' then (Plus, s[1..])
    else if s != [] && s[0] == '-' then (Minus, s[1..])
    else (NoSign, s)
  }

  /** A `.` followed by its digit run, or nothing. */
  function SplitFraction(s: string): (Option<string>, string)
  {
    if s != [] && s[0] == '.' then
      var n := DigitRun(s[1..]);
      (Some(s[1..][..n]), s[1..][n..])
    else (None, s)
  }

  /** What may follow the mantissa: nothing (`Some(None)`), a complete
      exponent (`Some(Some(e))`), or anything else (`None`). */
  function ScanExponent(s: string): Option<Option<Exponent>>
  {
    if s == [] then Some(None)
    else if s[0] == 'e' || s[0] == 'E' then
      var (sign, digits) := SplitSign(s[1..]);
      if digits != [] && AllDigits(digits) then Some(Some(Exponent(s[0], sign, digits))) else None
    else None
  }

  /** Reads the whole string as one decimal literal, or fails. */
  function Scan(s: string): (r: Option<Literal>)
    ensures r.Some? ==> WellFormed(r.value)
  {
    var (sign, body) := SplitSign(s);
    var w := DigitRun(body);
    var (fraction, tail) := SplitFraction(body[w..]);
    if w + FractionLength(fraction) == 0 then None
    else
      match ScanExponent(tail)
      case None => None
      case Some(e) => Some(Literal(sign, body[..w], fraction, e))
  }

  // ---------------------------------------------------------------------
  // The value of a literal.

  function DigitValue(c: char): nat
    requires IsDigit(c)
  {
    c as int - '0' as int
  }

  /** Decimal value of a digit string, most significant digit first. */
  function DigitsValue(s: string): nat
    requires AllDigits(s)
  {
    if s == [] then 0 else 10 * DigitsValue(s[..|s| - 1]) + DigitValue(s[|s| - 1])
  }

  /** Appending a digit multiplies the value by ten and adds the digit. */
  lemma DigitsValueAppend(d: string, c: char)
    requires AllDigits(d) && IsDigit(c)
    ensures AllDigits(d + [c]) && DigitsValue(d + [c]) == 10 * DigitsValue(d) + DigitValue(c)
  {
    assert (d + [c])[..|d|] == d;
  }

  /** `x` times ten to the power `n`, by repeated multiplication or
      division by ten. */
  function Scale10(x: real, n: int): real
    decreases if n < 0 then -n else n
  {
    if n == 0 then x
    else if n > 0 then 10.0 * Scale10(x, n - 1)
    else Scale10(x, n + 1) / 10.0
  }

  function FractionValue(f: Option<string>): real
    requires f.Some? ==> AllDigits(f.value)
  {
    match f
    case None => 0.0
    case Some(d) => Scale10(DigitsValue(d) as real, -|d|)
  }

  function ExponentValue(e: Option<Exponent>): int
    requires e.Some? ==> AllDigits(e.value.digits)
  {
    match e
    case None => 0
    case Some(x) => var k: int := DigitsValue(x.digits); if x.sign == Minus then -k else k
  }

  /** The exact value a literal denotes. */
  function Value(lit: Literal): real
    requires WellFormed(lit)
  {
    var magnitude := Scale10(DigitsValue(lit.whole) as real + FractionValue(lit.fraction), ExponentValue(lit.exponent));
    if lit.sign == Minus then -magnitude else magnitude
  }

  lemma ValueOfDecimal(whole: string, fraction: Option<string>)
    requires WellFormed(Literal(NoSign, whole, fraction, None))
    ensures Value(Literal(NoSign, whole, fraction, None)) == DigitsValue(whole) as real + FractionValue(fraction)
  {
  }

  /** `Number` of `digits.digits` is the value of that literal. */
  lemma NumberOfDecimal(whole: string, fraction: string)
    requires AllDigits(whole) && AllDigits(fraction) && whole != []
    ensures ToNumber(whole + "." + fraction) == Some(Value(Literal(NoSign, whole, Some(fraction), None)))
  {
    RenderDecimal(whole, fraction);
    NumberOfLiteral(Literal(NoSign, whole, Some(fraction), None));
  }

  lemma RenderDecimal(whole: string, fraction: string)
    ensures Render(Literal(NoSign, whole, Some(fraction), None)) == whole + "." + fraction
  {
  }

  /** `Number` of a digit string is the integer it spells. */
  lemma NumberOfInteger(whole: string)
    requires AllDigits(whole) && whole != []
    ensures ToNumber(whole) == Some(DigitsValue(whole) as real)
  {
    var lit := Literal(NoSign, whole, None, None);
    ValueOfDecimal(whole, None);
    NumberOfLiteral(lit);
    assert Render(lit) == whole;
  }

  /** `Number(s)` for a string `s`: surrounding whitespace is ignored, the
      empty remainder is 0, a decimal literal is its value, anything else is
      NaN (`None`). */
  function ToNumber(s: string): Option<real>
  {
    var t := JsString.Trim(s);
    if t == [] then Some(0.0)
    else
      match Scan(t)
      case None => None
      case Some(lit) => Some(Value(lit))
  }

  // ---------------------------------------------------------------------
  // Scan and Render are inverse to each other.

  lemma {:induction false} DigitRunOf(d: string, rest: string)
    requires AllDigits(d)
    requires rest == [] || !IsDigit(rest[0])
    ensures DigitRun(d + rest) == |d|
  {
    if d != [] {
      assert (d + rest)[1..] == d[1..] + rest;
      DigitRunOf(d[1..], rest);
    } else {
      assert d + rest == rest;
    }
  }

  lemma SplitSignOf(s: Sign, body: string)
    requires body == [] || (body[0] != '+' && body[0] != '-')
    ensures SplitSign(SignText(s) + body) == (s, body)
  {
    if s == NoSign {
      assert SignText(s) + body == body;
    }
  }

  lemma SplitFractionOf(f: Option<string>, tail: string)
    requires f.Some? ==> AllDigits(f.value)
    requires f.Some? ==> tail == [] || !IsDigit(tail[0])
    requires f.None? ==> tail == [] || tail[0] != '.'
    ensures SplitFraction(FractionText(f) + tail) == (f, tail)
  {
    match f
    case None =>
      assert FractionText(f) + tail == tail;
    case Some(d) =>
      var s := FractionText(f) + tail;
      assert s[1..] == d + tail;
      DigitRunOf(d, tail);
  }

  lemma ScanExponentOf(e: Option<Exponent>)
    requires e.Some? ==> WellFormedExponent(e.value)
    ensures ScanExponent(ExponentText(e)) == Some(e)
  {
    if e.Some? {
      var x := e.value;
      var s := ExponentText(e);
      assert s[1..] == SignText(x.sign) + x.digits;
      SplitSignOf(x.sign, x.digits);
    }
  }

  /** Every well-formed literal is read back exactly from its text. */
  lemma {:induction false} ScanRender(lit: Literal)
    requires WellFormed(lit)
    ensures Scan(Render(lit)) == Some(lit)
  {
    var tail := ExponentText(lit.exponent);
    var rest := FractionText(lit.fraction) + tail;
    var body := lit.whole + rest;
    assert Render(lit) == SignText(lit.sign) + body;
    assert body != [] ==> body[0] == '.' || IsDigit(body[0]);
    SplitSignOf(lit.sign, body);
    assert rest == [] || !IsDigit(rest[0]);
    DigitRunOf(lit.whole, rest);
    assert body[|lit.whole|..] == rest;
    assert body[..|lit.whole|] == lit.whole;
    assert tail == [] || tail[0] == 'e' || tail[0] == 'E';
    SplitFractionOf(lit.fraction, tail);
    ScanExponentOf(lit.exponent);
  }

  lemma SplitSignText(s: string)
    ensures SignText(SplitSign(s).0) + SplitSign(s).1 == s
  {
  }

  lemma SplitFractionText(s: string)
    ensures FractionText(SplitFraction(s).0) + SplitFraction(s).1 == s
  {
    if s != [] && s[0] == '.' {
      var n := DigitRun(s[1..]);
      assert s == "." + (s[1..][..n] + s[1..][n..]);
    }
  }

  lemma ScanExponentText(s: string)
    requires ScanExponent(s).Some?
    ensures ExponentText(ScanExponent(s).value) == s
  {
    if s != [] {
      SplitSignText(s[1..]);
      assert s == [s[0]] + s[1..];
    }
  }

  /** Whatever Scan accepts is the text of the literal it returns. */
  lemma {:induction false} RenderScan(s: string)
    requires Scan(s).Some?
    ensures Render(Scan(s).value) == s
  {
    var lit := Scan(s).value;
    var (sign, body) := SplitSign(s);
    SplitSignText(s);
    var w := DigitRun(body);
    var (fraction, tail) := SplitFraction(body[w..]);
    SplitFractionText(body[w..]);
    assert body == body[..w] + body[w..];
    ScanExponentText(tail);
    assert lit == Literal(sign, body[..w], fraction, ScanExponent(tail).value);
  }

  /** The strings Scan accepts are exactly the texts of well-formed literals. */
  lemma ScanAcceptsExactlyLiterals(s: string)
    ensures Scan(s).Some? <==> exists lit :: WellFormed(lit) && Render(lit) == s
  {
    if Scan(s).Some? {
      RenderScan(s);
    }
    if exists lit :: WellFormed(lit) && Render(lit) == s {
      var lit :| WellFormed(lit) && Render(lit) == s;
      ScanRender(lit);
    }
  }

  // ---------------------------------------------------------------------
  // Number() in terms of literals.

  /** A literal's text has no whitespace at its ends. */
  lemma RenderIsTrimmed(lit: Literal)
    requires WellFormed(lit)
    ensures Render(lit) != [] && JsString.IsTrimmed(Render(lit))
  {
    var s := Render(lit);
    var tail := ExponentText(lit.exponent);
    var rest := FractionText(lit.fraction) + tail;
    var body := lit.whole + rest;
    assert s == SignText(lit.sign) + body;
    assert body != [];
    if tail != [] {
      assert s[|s| - 1] == tail[|tail| - 1];
    } else if lit.fraction.Some? {
      assert s[|s| - 1] == FractionText(lit.fraction)[|FractionText(lit.fraction)| - 1];
    } else {
      assert s[|s| - 1] == lit.whole[|lit.whole| - 1];
    }
  }

  /** `Number` of a literal's text is the literal's value. */
  lemma NumberOfLiteral(lit: Literal)
    requires WellFormed(lit)
    ensures ToNumber(Render(lit)) == Some(Value(lit))
  {
    RenderIsTrimmed(lit);
    JsString.TrimOfTrimmed(Render(lit));
    ScanRender(lit);
  }

  /** `Number(s)` is NaN exactly when the trimmed string is neither empty nor
      the text of a decimal literal. */
  lemma NumberIsNaNIff(s: string)
    ensures ToNumber(s).None? <==>
            JsString.Trim(s) != [] && forall lit :: WellFormed(lit) ==> Render(lit) != JsString.Trim(s)
  {
    ScanAcceptsExactlyLiterals(JsString.Trim(s));
  }

  /** An empty or all-whitespace string converts to 0, not NaN. */
  lemma NumberOfBlank(s: string)
    requires JsString.AllWhitespace(s)
    ensures ToNumber(s) == Some(0.0)
  {
    JsString.TrimEmptyIff(s);
  }

  /** Surrounding whitespace never changes the outcome. */
  lemma NumberIgnoresSurroundingWhitespace(s: string)
    ensures ToNumber(JsString.Trim(s)) == ToNumber(s)
  {
    JsString.TrimIdempotent(s);
  }
}
