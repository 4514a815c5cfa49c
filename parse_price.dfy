/** `parsePrice` (src/utils/parsePrice.js): delete every euro sign and
    U+FFFD replacement character, then every comma, trim, and hand the rest
    to `Number()`. NaN is `None`. */
module ParsePrice {
  import opened Wrappers
  import JsString
  import JsNumber

  /** The characters of the first `replace`: the euro sign and the
      replacement character a mis-decoded euro sign turns into. */
  const CurrencyNoise: set<char> := {'\U{20AC}', '\U{FFFD}'}

  /** The character of the second `replace`: the grouping comma. */
  const Separators: set<char> := {','}

  /** `s.replace(/[...]/g, "")`: every character of `drop` is deleted and
      nothing else. */
  function RemoveAll(s: string, drop: set<char>): (r: string)
    ensures |r| <= |s|
  {
    if s == [] then []
    else (if s[0] in drop then [] else [s[0]]) + RemoveAll(s[1..], drop)
  }

  /** The characters that survive are exactly those of `s` not in `drop`. */
  lemma {:induction false} RemoveAllMembers(s: string, drop: set<char>)
    ensures forall c :: c in RemoveAll(s, drop) <==> c in s && c !in drop
  {
    if s != [] {
      RemoveAllMembers(s[1..], drop);
      assert s == [s[0]] + s[1..];
    }
  }

  /** The string handed to `Number()`: never longer than the price text, and
      with no white space at either end. */
  function Clean(s: string): (r: string)
    ensures JsString.IsTrimmed(r) && |r| <= |s|
  {
    JsString.Trim(RemoveAll(RemoveAll(s, CurrencyNoise), Separators))
  }

  function ParsePrice(s: string): Option<real>
  {
    JsNumber.ToNumber(Clean(s))
  }

  // ---------------------------------------------------------------------
  // Properties of the deletion passes.

  /** Deletion works character by character, so it distributes over
      concatenation: the surviving characters keep their order. */
  lemma {:induction false} RemoveAllConcat(a: string, b: string, drop: set<char>)
    ensures RemoveAll(a + b, drop) == RemoveAll(a, drop) + RemoveAll(b, drop)
  {
    if a == [] {
      assert a + b == b;
    } else {
      assert (a + b)[1..] == a[1..] + b;
      RemoveAllConcat(a[1..], b, drop);
    }
  }

  /** A string with nothing to delete is left as it is. */
  lemma {:induction false} RemoveAllNothingToDrop(s: string, drop: set<char>)
    requires forall k :: 0 <= k < |s| ==> s[k] !in drop
    ensures RemoveAll(s, drop) == s
  {
    if s != [] {
      RemoveAllNothingToDrop(s[1..], drop);
    }
  }

  /** The two passes together delete exactly the union of their characters. */
  lemma {:induction false} RemoveAllTwice(s: string, first: set<char>, second: set<char>)
    ensures RemoveAll(RemoveAll(s, first), second) == RemoveAll(s, first + second)
  {
    if s != [] {
      RemoveAllConcat(if s[0] in first then [] else [s[0]], RemoveAll(s[1..], first), second);
      RemoveAllTwice(s[1..], first, second);
    }
  }

  // ---------------------------------------------------------------------
  // Properties of the cleaned string.

  /** Clean deletes the euro signs, replacement characters and commas, then
      trims: the result is a slice of the deleted-from string with only
      whitespace cut at either end, it holds none of the deleted characters,
      and it has no whitespace at its ends. */
  lemma CleanShape(s: string)
    ensures forall c :: c in Clean(s) ==> c in s && c !in CurrencyNoise && c !in Separators
    ensures JsString.IsTrimmed(Clean(s))
    ensures var t := RemoveAll(s, CurrencyNoise + Separators);
            exists i, j :: 0 <= i <= j <= |t| && Clean(s) == t[i..j]
                           && JsString.AllWhitespace(t[..i]) && JsString.AllWhitespace(t[j..])
  {
    RemoveAllTwice(s, CurrencyNoise, Separators);
    var t := RemoveAll(s, CurrencyNoise + Separators);
    JsString.TrimIsSlice(t);
    var i, j :| 0 <= i <= j <= |t| && Clean(s) == t[i..j]
                && JsString.AllWhitespace(t[..i]) && JsString.AllWhitespace(t[j..]);
    SliceMembers(t, i, j);
    RemoveAllMembers(s, CurrencyNoise + Separators);
  }

  lemma SliceMembers(t: string, i: nat, j: nat)
    requires i <= j <= |t|
    ensures forall c :: c in t[i..j] ==> c in t
  {
    forall c | c in t[i..j] ensures c in t {
      var k :| i <= k < j && t[k] == c;
    }
  }

  /** Cleaning twice is cleaning once. */
  lemma CleanIdempotent(s: string)
    ensures Clean(Clean(s)) == Clean(s)
  {
    var c := Clean(s);
    CleanShape(s);
    RemoveAllNothingToDrop(c, CurrencyNoise);
    RemoveAllNothingToDrop(c, Separators);
    JsString.TrimOfTrimmed(c);
  }

  /** A euro sign, a replacement character or a comma makes no difference
      wherever it sits, so the grouping of digits by commas is irrelevant. */
  lemma IgnoresNoiseCharacter(a: string, c: char, b: string)
    requires c in CurrencyNoise || c in Separators
    ensures ParsePrice(a + [c] + b) == ParsePrice(a + b)
  {
    var drop := CurrencyNoise + Separators;
    RemoveAllTwice(a + [c] + b, CurrencyNoise, Separators);
    RemoveAllTwice(a + b, CurrencyNoise, Separators);
    RemoveAllConcat(a + [c], b, drop);
    RemoveAllConcat(a, [c], drop);
    RemoveAllConcat(a, b, drop);
    assert RemoveAll([c], drop) == [];
    assert RemoveAll(a, drop) + [] == RemoveAll(a, drop);
  }

  /** Without euro signs, replacement characters and commas, parsePrice is
      plain `Number()`. */
  lemma PlainText(s: string)
    requires forall k :: 0 <= k < |s| ==> s[k] !in CurrencyNoise && s[k] !in Separators
    ensures ParsePrice(s) == JsNumber.ToNumber(s)
  {
    RemoveAllNothingToDrop(s, CurrencyNoise);
    RemoveAllNothingToDrop(s, Separators);
    JsNumber.NumberIgnoresSurroundingWhitespace(s);
  }

  // ---------------------------------------------------------------------
  // The outcome of parsePrice.

  /** NaN exactly when the cleaned string is non-empty and not a decimal
      literal; parsePrice never fails in any other way. */
  lemma NaNIff(s: string)
    ensures ParsePrice(s).None? <==>
            Clean(s) != [] && forall lit :: JsNumber.WellFormed(lit) ==> JsNumber.Render(lit) != Clean(s)
  {
    CleanShape(s);
    JsString.TrimOfTrimmed(Clean(s));
    JsNumber.NumberIsNaNIff(Clean(s));
  }

  /** A cleaned string with nothing left in it gives 0, not NaN. */
  lemma EmptyIsZero(s: string)
    requires Clean(s) == []
    ensures ParsePrice(s) == Some(0.0)
  {
  }

  /** A cleaned string that is a decimal literal gives the literal's value. */
  lemma LiteralValue(s: string, lit: JsNumber.Literal)
    requires JsNumber.WellFormed(lit) && Clean(s) == JsNumber.Render(lit)
    ensures ParsePrice(s) == Some(JsNumber.Value(lit))
  {
    JsNumber.NumberOfLiteral(lit);
  }

  // ---------------------------------------------------------------------
  // The documented cases.

  /** Deleting a character of `drop` joins the text on either side. */
  lemma RemoveAllSplit(a: string, c: char, b: string, drop: set<char>)
    requires c in drop
    ensures RemoveAll(a + [c] + b, drop) == RemoveAll(a, drop) + RemoveAll(b, drop)
  {
    RemoveAllConcat(a + [c], b, drop);
    RemoveAllConcat(a, [c], drop);
    assert RemoveAll([c], drop) == [];
    assert RemoveAll(a, drop) + [] == RemoveAll(a, drop);
  }

  /** Clean as one deletion pass followed by trim. */
  lemma CleanIsOnePass(s: string)
    ensures Clean(s) == JsString.Trim(RemoveAll(s, CurrencyNoise + Separators))
  {
    RemoveAllTwice(s, CurrencyNoise, Separators);
  }

  // The documented cases. Each is split into the cleaning step and the
  // conversion step so that the verifier never evaluates a long chain of
  // recursive calls on a string literal in one go.

  /** Deleting the one comma between two noise-free texts joins them. */
  lemma RemovedComma(a: string, b: string)
    requires forall k :: 0 <= k < |a| ==> a[k] !in CurrencyNoise + Separators
    requires forall k :: 0 <= k < |b| ==> b[k] !in CurrencyNoise + Separators
    ensures RemoveAll(a + [','] + b, CurrencyNoise + Separators) == a + b
  {
    var drop := CurrencyNoise + Separators;
    assert ',' in drop;
    RemoveAllSplit(a, ',', b, drop);
    RemoveAllNothingToDrop(a, drop);
    RemoveAllNothingToDrop(b, drop);
  }

  lemma RemovedGroupedEuro()
    ensures RemoveAll("\U{20AC} 3,08,370.00", CurrencyNoise + Separators) == " " + "308370.00"
  {
    var drop := CurrencyNoise + Separators;
    assert '\U{20AC}' in drop && ',' in drop;
    RemoveAllSplit(['\U{20AC}', ' ', '3'], ',', "08,370.00", drop);
    assert ['\U{20AC}', ' ', '3'] + [','] + "08,370.00" == "\U{20AC} 3,08,370.00";
    RemoveAllSplit([], '\U{20AC}', " 3", drop);
    assert [] + ['\U{20AC}'] + " 3" == ['\U{20AC}', ' ', '3'];
    RemoveAllNothingToDrop([], drop);
    RemoveAllNothingToDrop(" 3", drop);
    RemovedComma("08", "370.00");
    assert "08" + [','] + "370.00" == "08,370.00";
  }

  /** When deletion leaves a trimmed text, the cleaned text is that text. */
  lemma CleanOfTrimmed(s: string, t: string)
    requires RemoveAll(s, CurrencyNoise + Separators) == t && JsString.IsTrimmed(t)
    ensures Clean(s) == t
  {
    CleanIsOnePass(s);
    JsString.TrimOfTrimmed(t);
  }

  /** Clean of a string whose deletion pass leaves leading whitespace in
      front of a trimmed text is that text. */
  lemma CleanOfPadded(s: string, pad: string, t: string)
    requires RemoveAll(s, CurrencyNoise + Separators) == pad + t
    requires JsString.AllWhitespace(pad) && JsString.IsTrimmed(t)
    ensures Clean(s) == t
  {
    CleanIsOnePass(s);
    JsString.TrimLeading(pad, t);
  }

  lemma CleanGroupedEuro()
    ensures Clean("\U{20AC} 3,08,370.00") == "308370.00"
  {
    RemovedGroupedEuro();
    CleanOfPadded("\U{20AC} 3,08,370.00", " ", "308370.00");
  }

  lemma Digits308370()
    ensures JsNumber.AllDigits("308370") && JsNumber.DigitsValue("308370") == 308370
  {
    JsNumber.DigitsValueAppend("", '3');
    assert "" + ['3'] == "3";
    JsNumber.DigitsValueAppend("3", '0');
    assert "3" + ['0'] == "30";
    JsNumber.DigitsValueAppend("30", '8');
    assert "30" + ['8'] == "308";
    JsNumber.DigitsValueAppend("308", '3');
    assert "308" + ['3'] == "3083";
    JsNumber.DigitsValueAppend("3083", '7');
    assert "3083" + ['7'] == "30837";
    JsNumber.DigitsValueAppend("30837", '0');
    assert "30837" + ['0'] == "308370";
  }

  lemma DigitsZeroZero()
    ensures JsNumber.AllDigits("00") && JsNumber.DigitsValue("00") == 0
  {
    JsNumber.DigitsValueAppend("", '0');
    assert "" + ['0'] == "0";
    JsNumber.DigitsValueAppend("0", '0');
    assert "0" + ['0'] == "00";
  }

  /** A price written with a whole number of units and ".00" is worth
      exactly its whole digits. */
  lemma WholeHundredths(whole: string)
    requires JsNumber.AllDigits(whole) && whole != []
    ensures JsNumber.WellFormed(JsNumber.Literal(JsNumber.NoSign, whole, Some("00"), None))
    ensures JsNumber.Value(JsNumber.Literal(JsNumber.NoSign, whole, Some("00"), None)) == JsNumber.DigitsValue(whole) as real
  {
    DigitsZeroZero();
    JsNumber.ValueOfDecimal(whole, Some("00"));
    assert JsNumber.Scale10(0.0, -2) == 0.0;
  }

  lemma Number308370()
    ensures JsNumber.ToNumber("308370.00") == Some(308370.0)
  {
    Digits308370();
    WholeHundredths("308370");
    Spelled308370();
    JsNumber.NumberOfDecimal("308370", "00");
  }

  lemma Spelled308370()
    ensures "308370" + "." + "00" == "308370.00"
  {
  }

  /** "€ 3,08,370.00" (Indian digit grouping, euro sign, a space) is 308370. */
  lemma GroupedEuroPrice()
    ensures ParsePrice("\U{20AC} 3,08,370.00") == Some(308370.0)
  {
    CleanGroupedEuro();
    Number308370();
  }
  lemma Digits557000()
    ensures JsNumber.AllDigits("557000") && JsNumber.DigitsValue("557000") == 557000
  {
    JsNumber.DigitsValueAppend("", '5');
    assert "" + ['5'] == "5";
    JsNumber.DigitsValueAppend("5", '5');
    assert "5" + ['5'] == "55";
    JsNumber.DigitsValueAppend("55", '7');
    assert "55" + ['7'] == "557";
    JsNumber.DigitsValueAppend("557", '0');
    assert "557" + ['0'] == "5570";
    JsNumber.DigitsValueAppend("5570", '0');
    assert "5570" + ['0'] == "55700";
    JsNumber.DigitsValueAppend("55700", '0');
    assert "55700" + ['0'] == "557000";
  }

  lemma CleanIndianGrouping()
    ensures Clean("5,57,000") == "557000"
  {
    var drop := CurrencyNoise + Separators;
    assert ',' in drop;
    RemoveAllSplit("5", ',', "57,000", drop);
    assert "5" + [','] + "57,000" == "5,57,000";
    RemoveAllNothingToDrop("5", drop);
    RemovedComma("57", "000");
    assert "57" + [','] + "000" == "57,000";
    assert "5" + "57000" == "557000";
    CleanOfTrimmed("5,57,000", "557000");
  }
  /** "5,57,000" (Indian digit grouping, no currency sign) is 557000. */
  lemma IndianGroupingPrice()
    ensures ParsePrice("5,57,000") == Some(557000.0)
  {
    CleanIndianGrouping();
    Digits557000();
    JsNumber.NumberOfInteger("557000");
  }

  lemma Digits79500()
    ensures JsNumber.AllDigits("79500") && JsNumber.DigitsValue("79500") == 79500
  {
    JsNumber.DigitsValueAppend("", '7');
    assert "" + ['7'] == "7";
    JsNumber.DigitsValueAppend("7", '9');
    assert "7" + ['9'] == "79";
    JsNumber.DigitsValueAppend("79", '5');
    assert "79" + ['5'] == "795";
    JsNumber.DigitsValueAppend("795", '0');
    assert "795" + ['0'] == "7950";
    JsNumber.DigitsValueAppend("7950", '0');
    assert "7950" + ['0'] == "79500";
  }

  lemma RemovedMisdecodedHead()
    ensures RemoveAll(['\U{FFFD}', '7', '9'], CurrencyNoise + Separators) == "79"
  {
    var drop := CurrencyNoise + Separators;
    assert '\U{FFFD}' in drop;
    RemoveAllSplit([], '\U{FFFD}', "79", drop);
    assert [] + ['\U{FFFD}'] + "79" == ['\U{FFFD}', '7', '9'];
    RemoveAllNothingToDrop([], drop);
    RemoveAllNothingToDrop("79", drop);
  }
  lemma CleanMisdecodedEuro()
    ensures Clean("\U{FFFD}79,500.00") == "79500.00"
  {
    var drop := CurrencyNoise + Separators;
    assert ',' in drop;
    RemoveAllSplit(['\U{FFFD}', '7', '9'], ',', "500.00", drop);
    assert ['\U{FFFD}', '7', '9'] + [','] + "500.00" == "\U{FFFD}79,500.00";
    RemovedMisdecodedHead();
    RemoveAllNothingToDrop("500.00", drop);
    assert "79" + "500.00" == "79500.00";
    CleanOfTrimmed("\U{FFFD}79,500.00", "79500.00");
  }
  lemma Number79500()
    ensures JsNumber.ToNumber("79500.00") == Some(79500.0)
  {
    Digits79500();
    WholeHundredths("79500");
    Spelled79500();
    JsNumber.NumberOfDecimal("79500", "00");
  }

  lemma Spelled79500()
    ensures "79500" + "." + "00" == "79500.00"
  {
  }

  /** A euro sign mis-decoded as U+FFFD, as in the property file, is still
      removed: "�79,500.00" is 79500. */
  lemma MisdecodedEuroPrice()
    ensures ParsePrice("\U{FFFD}79,500.00") == Some(79500.0)
  {
    CleanMisdecodedEuro();
    Number79500();
  }

  lemma CleanWord()
    ensures Clean("invalid") == "invalid"
  {
    RemoveAllNothingToDrop("invalid", CurrencyNoise + Separators);
    CleanOfTrimmed("invalid", "invalid");
  }

  lemma NumberOfWord()
    ensures JsNumber.ToNumber("invalid") == None
  {
    JsString.TrimOfTrimmed("invalid");
    assert JsNumber.DigitRun("invalid") == 0;
    assert "invalid"[0..] == "invalid";
  }

  /** Text that is not a number is NaN. */
  lemma WordIsNaN()
    ensures ParsePrice("invalid") == None
  {
    CleanWord();
    NumberOfWord();
  }

  lemma CleanDollar()
    ensures Clean("$5") == "$5"
  {
    RemoveAllNothingToDrop("$5", CurrencyNoise + Separators);
    CleanOfTrimmed("$5", "$5");
  }

  lemma NumberOfDollar()
    ensures JsNumber.ToNumber("$5") == None
  {
    JsString.TrimOfTrimmed("$5");
    assert JsNumber.DigitRun("$5") == 0;
    assert "$5"[0..] == "$5";
  }

  /** Only the euro sign is a currency symbol here: a dollar price is NaN. */
  lemma DollarIsNaN()
    ensures ParsePrice("$5") == None
  {
    CleanDollar();
    NumberOfDollar();
  }

  lemma CleanBareEuro()
    ensures Clean("\U{20AC}") == ""
  {
    var drop := CurrencyNoise + Separators;
    assert '\U{20AC}' in drop;
    RemoveAllSplit([], '\U{20AC}', [], drop);
    assert [] + ['\U{20AC}'] + [] == "\U{20AC}";
    CleanOfTrimmed("\U{20AC}", "");
  }

  /** A price that is nothing but a euro sign is 0, not NaN. */
  lemma BareEuroIsZero()
    ensures ParsePrice("\U{20AC}") == Some(0.0)
  {
    CleanBareEuro();
  }

  lemma RemovedBareComma()
    ensures RemoveAll(" , ", CurrencyNoise + Separators) == " " + " "
  {
    var drop := CurrencyNoise + Separators;
    assert ',' in drop;
    RemoveAllSplit(" ", ',', " ", drop);
    assert " " + [','] + " " == " , ";
    RemoveAllNothingToDrop(" ", drop);
  }
  lemma CleanBareComma()
    ensures Clean(" , ") == ""
  {
    RemovedBareComma();
    CleanIsOnePass(" , ");
    assert JsString.AllWhitespace(" " + " ");
    JsString.TrimEmptyIff(" " + " ");
  }

  /** A price that is nothing but a comma and spaces is 0, not NaN. */
  lemma BareCommaIsZero()
    ensures ParsePrice(" , ") == Some(0.0)
  {
    CleanBareComma();
  }

  // ---------------------------------------------------------------------
  // Prices as the property register writes them.

  lemma DigitsSurvive(d: string)
    requires JsNumber.AllDigits(d)
    ensures RemoveAll(d, CurrencyNoise + Separators) == d
  {
    forall k | 0 <= k < |d|
      ensures d[k] !in CurrencyNoise + Separators
    {
      assert JsNumber.IsDigit(d[k]);
    }
    RemoveAllNothingToDrop(d, CurrencyNoise + Separators);
  }

  lemma RemovedFraction(b: string, f: string)
    requires JsNumber.AllDigits(b) && JsNumber.AllDigits(f)
    ensures RemoveAll(b + ['.'] + f, CurrencyNoise + Separators) == b + ['.'] + f
  {
    var drop := CurrencyNoise + Separators;
    DigitsSurvive(b);
    DigitsSurvive(f);
    assert RemoveAll(['.'], drop) == ['.'];
    RemoveAllConcat(b + ['.'], f, drop);
    RemoveAllConcat(b, ['.'], drop);
  }

  lemma RemovedGrouping(c: char, a: string, tail: string)
    requires c in CurrencyNoise && JsNumber.AllDigits(a)
    ensures RemoveAll([c] + a + [','] + tail, CurrencyNoise + Separators)
            == a + RemoveAll(tail, CurrencyNoise + Separators)
  {
    var drop := CurrencyNoise + Separators;
    DigitsSurvive(a);
    Regroup([c], a, [',']);
    Regroup([c], a + [','], tail);
    RemoveAllDropsFirst(c, a + [','] + tail, drop);
    RemoveAllSplit(a, ',', tail, drop);
  }

  lemma RemovedRegisterPrice(c: char, a: string, b: string, f: string)
    requires c in CurrencyNoise
    requires JsNumber.AllDigits(a) && JsNumber.AllDigits(b) && JsNumber.AllDigits(f)
    ensures RemoveAll([c] + a + [','] + b + ['.'] + f, CurrencyNoise + Separators) == a + b + ['.'] + f
  {
    RemovedFraction(b, f);
    RemovedGrouping(c, a, b + ['.'] + f);
    var grouped := [c] + a + [','];
    Regroup(grouped, b + ['.'], f);
    Regroup(grouped, b, ['.']);
    Regroup(a, b + ['.'], f);
    Regroup(a, b, ['.']);
  }

  /** A deleted first character leaves the deletion of the rest. */
  lemma RemoveAllDropsFirst(c: char, s: string, drop: set<char>)
    requires c in drop
    ensures RemoveAll([c] + s, drop) == RemoveAll(s, drop)
  {
    assert ([c] + s)[1..] == s;
  }

  lemma Regroup(x: string, y: string, z: string)
    ensures x + (y + z) == x + y + z
  {
  }

  lemma CleanRegisterPrice(c: char, a: string, b: string, f: string)
    requires c in CurrencyNoise
    requires JsNumber.AllDigits(a) && JsNumber.AllDigits(b) && JsNumber.AllDigits(f) && a != []
    ensures Clean([c] + a + [','] + b + ['.'] + f) == a + b + ['.'] + f
  {
    RemovedRegisterPrice(c, a, b, f);
    DecimalTextTrimmed(a, b, f);
    CleanOfTrimmed([c] + a + [','] + b + ['.'] + f, a + b + ['.'] + f);
  }

  /** Digits, more digits, `.` and digits: no white space at either end. */
  lemma DecimalTextTrimmed(a: string, b: string, f: string)
    requires JsNumber.AllDigits(a) && JsNumber.AllDigits(f) && a != []
    ensures JsString.IsTrimmed(a + b + ['.'] + f)
  {
    var t := a + b + ['.'] + f;
    assert t[0] == a[0] && JsNumber.IsDigit(a[0]);
    if f == [] {
      assert t[|t| - 1] == '.';
    } else {
      assert t[|t| - 1] == f[|f| - 1] && JsNumber.IsDigit(f[|f| - 1]);
    }
  }

  /** A price in the register's format, a euro sign (or its mis-decoded
      form), digits with one grouping comma and a fraction, is the value of
      the decimal literal left once the sign and the comma are gone. */
  lemma RegisterPrice(c: char, a: string, b: string, f: string)
    requires c in CurrencyNoise
    requires JsNumber.AllDigits(a) && JsNumber.AllDigits(b) && JsNumber.AllDigits(f) && a != []
    ensures JsNumber.WellFormed(JsNumber.Literal(JsNumber.NoSign, a + b, Some(f), None))
    ensures ParsePrice([c] + a + [','] + b + ['.'] + f) ==
              Some(JsNumber.Value(JsNumber.Literal(JsNumber.NoSign, a + b, Some(f), None)))
  {
    assert JsNumber.AllDigits(a + b);
    CleanRegisterPrice(c, a, b, f);
    JsNumber.NumberOfDecimal(a + b, f);
    assert (a + b) + "." + f == a + b + ['.'] + f;
  }

  lemma Value557000()
    ensures JsNumber.WellFormed(JsNumber.Literal(JsNumber.NoSign, "557" + "000", Some("00"), None))
    ensures JsNumber.Value(JsNumber.Literal(JsNumber.NoSign, "557" + "000", Some("00"), None)) == 557000.0
  {
    assert "557" + "000" == "557000";
    Digits557000();
    WholeHundredths("557000");
  }

  lemma Spelled557000()
    ensures ['\U{FFFD}'] + "557" + [','] + "000" + ['.'] + "00" == "\U{FFFD}557,000.00"
  {
  }

  lemma Register557000()
    ensures ParsePrice(['\U{FFFD}'] + "557" + [','] + "000" + ['.'] + "00") == Some(557000.0)
  {
    assert JsNumber.AllDigits("557") && JsNumber.AllDigits("000") && JsNumber.AllDigits("00");
    RegisterPrice('\U{FFFD}', "557", "000", "00");
    Value557000();
  }

  /** The second row of the sample register: "�557,000.00" is 557000. */
  lemma RegisterPrice557000()
    ensures ParsePrice("\U{FFFD}557,000.00") == Some(557000.0)
  {
    Register557000();
    Spelled557000();
  }

  lemma Digits160000()
    ensures JsNumber.AllDigits("160000") && JsNumber.DigitsValue("160000") == 160000
  {
    JsNumber.DigitsValueAppend("", '1');
    assert "" + ['1'] == "1";
    JsNumber.DigitsValueAppend("1", '6');
    assert "1" + ['6'] == "16";
    JsNumber.DigitsValueAppend("16", '0');
    assert "16" + ['0'] == "160";
    JsNumber.DigitsValueAppend("160", '0');
    assert "160" + ['0'] == "1600";
    JsNumber.DigitsValueAppend("1600", '0');
    assert "1600" + ['0'] == "16000";
    JsNumber.DigitsValueAppend("16000", '0');
    assert "16000" + ['0'] == "160000";
  }

  lemma Value160000()
    ensures JsNumber.WellFormed(JsNumber.Literal(JsNumber.NoSign, "160" + "000", Some("00"), None))
    ensures JsNumber.Value(JsNumber.Literal(JsNumber.NoSign, "160" + "000", Some("00"), None)) == 160000.0
  {
    assert "160" + "000" == "160000";
    Digits160000();
    WholeHundredths("160000");
  }

  lemma Spelled160000()
    ensures ['\U{FFFD}'] + "160" + [','] + "000" + ['.'] + "00" == "\U{FFFD}160,000.00"
  {
  }

  lemma Register160000()
    ensures ParsePrice(['\U{FFFD}'] + "160" + [','] + "000" + ['.'] + "00") == Some(160000.0)
  {
    assert JsNumber.AllDigits("160") && JsNumber.AllDigits("000") && JsNumber.AllDigits("00");
    RegisterPrice('\U{FFFD}', "160", "000", "00");
    Value160000();
  }

  /** The third row of the sample register: "�160,000.00" is 160000. */
  lemma RegisterPrice160000()
    ensures ParsePrice("\U{FFFD}160,000.00") == Some(160000.0)
  {
    Register160000();
    Spelled160000();
  }
}

