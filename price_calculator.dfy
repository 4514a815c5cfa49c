/** `calculateAveragePrices` (src/services/priceCalculator.js): select the
    properties on tall-tree and on short-tree streets, matching street names
    case-insensitively, and average each selection, with 0 for an empty
    one. */
module PriceCalculator {
  import opened Wrappers
  import opened Errors
  import JsString
  import StreetExtractor
  import PropertyData

  /** `streets.some(s => s.toLowerCase() === name.toLowerCase())`. */
  function Matches(streets: seq<string>, name: string): (b: bool)
    ensures b <==> exists k :: 0 <= k < |streets| && JsString.ToLower(streets[k]) == JsString.ToLower(name)
  {
    if streets == [] then false
    else if JsString.ToLower(streets[0]) == JsString.ToLower(name) then true
    else
      var b := Matches(streets[1..], name);
      assert forall k :: 1 <= k < |streets| ==> streets[k] == streets[1..][k - 1];
      b
  }

  /** `properties.filter(p => Matches(streets, p.street)).map(p => p.price)`. */
  function SelectPrices(properties: seq<PropertyData.Property>, streets: seq<string>): (prices: seq<real>)
    ensures |prices| <= |properties|
  {
    if properties == [] then []
    else
      var last := properties[|properties| - 1];
      SelectPrices(properties[..|properties| - 1], streets)
        + (if Matches(streets, last.street) then [last.price] else [])
  }

  /** `prices.reduce((sum, price) => sum + price, 0)`. */
  function Sum(prices: seq<real>): real
  {
    if prices == [] then 0.0 else Sum(prices[..|prices| - 1]) + prices[|prices| - 1]
  }

  /** `prices.length ? Sum(prices) / prices.length : 0`. */
  function Average(prices: seq<real>): (avg: real)
    ensures prices == [] ==> avg == 0.0
    ensures prices != [] ==> avg * |prices| as real == Sum(prices)
  {
    if |prices| == 0 then 0.0 else Sum(prices) / |prices| as real
  }

  datatype Averages = Averages(tallAverage: real, shortAverage: real)

  /** The two averages, each from its own selection. */
  function Summarise(tallStreets: seq<string>, shortStreets: seq<string>,
                     properties: seq<PropertyData.Property>): Averages
  {
    Averages(Average(SelectPrices(properties, tallStreets)), Average(SelectPrices(properties, shortStreets)))
  }

  /** The settled value of `calculateAveragePrices`: the catalogue fetch,
      the tall and the short extraction and the register are consulted in
      that order, and the first failure is the outcome. */
  function AveragePricesOf(fetched: Result<StreetExtractor.Json, Error>, propertyFile: string,
                           read: PropertyData.ReadOutcome,
                           parse: string -> PropertyData.CsvOutcome): Result<Averages, Error>
    requires fetched.Success? ==> fetched.value.Obj?
  {
    match fetched
    case Failure(e) => Failure(e)
    case Success(tree) =>
      match StreetExtractor.CategoryStreets(tree, "tall")
      case Failure(e) => Failure(e)
      case Success(tall) =>
        match StreetExtractor.CategoryStreets(tree, "short")
        case Failure(e) => Failure(e)
        case Success(short) =>
          match PropertyData.PropertyDataOf(propertyFile, read, parse)
          case Failure(e) => Failure(e)
          case Success(properties) => Success(Summarise(tall, short, properties))
  }

  /** `calculateAveragePrices`. The fetched catalogue is a parameter; the
      fetcher only ever delivers a non-array object. */
  method CalculateAveragePrices(fetched: Result<StreetExtractor.Json, Error>, propertyFile: string,
                                read: PropertyData.ReadOutcome,
                                parse: string -> PropertyData.CsvOutcome)
    returns (r: Result<Averages, Error>)
    requires fetched.Success? ==> fetched.value.Obj?
    ensures r == AveragePricesOf(fetched, propertyFile, read, parse)
    ensures fetched.Failure? ==> r == Failure(fetched.error)
    ensures fetched.Success? && !StreetExtractor.HasCategory(fetched.value, "tall") ==>
              r == Failure(CategoryNotFound("tall"))
    ensures fetched.Success? && StreetExtractor.HasCategory(fetched.value, "tall")
            && !StreetExtractor.HasCategory(fetched.value, "short") ==>
              r == Failure(CategoryNotFound("short"))
    ensures r.Success? ==> r.value.tallAverage >= 0.0 && r.value.shortAverage >= 0.0
  {
    if fetched.Failure? {
      return Failure(fetched.error);
    }
    var treeData := fetched.value;
    var tallStreets := StreetExtractor.ExtractStreetNames(treeData, "tall");
    if tallStreets.Failure? {
      return Failure(tallStreets.error);
    }
    var shortStreets := StreetExtractor.ExtractStreetNames(treeData, "short");
    if shortStreets.Failure? {
      return Failure(shortStreets.error);
    }
    var properties := PropertyData.ParsePropertyData(propertyFile, read, parse);
    if properties.Failure? {
      return Failure(properties.error);
    }
    PositiveAveragesOfProperties(tallStreets.value, properties.value);
    PositiveAveragesOfProperties(shortStreets.value, properties.value);
    return Success(Summarise(tallStreets.value, shortStreets.value, properties.value));
  }

  // ---------------------------------------------------------------------
  // Properties of the selection.

  /** The selection is a filter: a concatenation of properties selects the
      concatenation of the selections. */
  lemma {:induction false} SelectPricesConcat(a: seq<PropertyData.Property>, b: seq<PropertyData.Property>,
                                              streets: seq<string>)
    ensures SelectPrices(a + b, streets) == SelectPrices(a, streets) + SelectPrices(b, streets)
    decreases |b|
  {
    if b == [] {
      assert a + b == a;
    } else {
      var b' := b[..|b| - 1];
      assert (a + b)[..|a + b| - 1] == a + b';
      assert (a + b)[|a + b| - 1] == b[|b| - 1];
      SelectPricesConcat(a, b', streets);
    }
  }

  /** One property is selected, with its price, exactly when its street
      matches. With the concatenation lemma: order and duplicates are kept. */
  lemma SelectOne(p: PropertyData.Property, streets: seq<string>)
    ensures SelectPrices([p], streets) == if Matches(streets, p.street) then [p.price] else []
  {
    assert [p][..0] == [];
  }

  lemma {:induction false} SameMatchesSameSelection(properties: seq<PropertyData.Property>,
                                                    a: seq<string>, b: seq<string>)
    requires forall i :: 0 <= i < |properties| ==> Matches(a, properties[i].street) == Matches(b, properties[i].street)
    ensures SelectPrices(properties, a) == SelectPrices(properties, b)
    decreases |properties|
  {
    if properties != [] {
      var init := properties[..|properties| - 1];
      assert forall i :: 0 <= i < |init| ==> init[i] == properties[i];
      SameMatchesSameSelection(init, a, b);
    }
  }

  /** The lower-cased street names. */
  function Folded(streets: seq<string>): set<string>
  {
    set k | 0 <= k < |streets| :: JsString.ToLower(streets[k])
  }

  lemma MatchesFolded(streets: seq<string>, name: string)
    ensures Matches(streets, name) <==> JsString.ToLower(name) in Folded(streets)
  {
    if Matches(streets, name) {
      var k :| 0 <= k < |streets| && JsString.ToLower(streets[k]) == JsString.ToLower(name);
      assert JsString.ToLower(streets[k]) in Folded(streets);
    }
  }

  /** Only the set of lower-cased street names matters: two street lists
      whose names fold to the same names select the same prices, however
      often or in whatever order a name is listed. */
  lemma SameFoldedStreets(properties: seq<PropertyData.Property>, a: seq<string>, b: seq<string>)
    requires Folded(a) == Folded(b)
    ensures SelectPrices(properties, a) == SelectPrices(properties, b)
  {
    forall i | 0 <= i < |properties|
      ensures Matches(a, properties[i].street) == Matches(b, properties[i].street)
    {
      MatchesFolded(a, properties[i].street);
      MatchesFolded(b, properties[i].street);
    }
    SameMatchesSameSelection(properties, a, b);
  }

  /** A street listed twice counts its properties once. */
  lemma RepeatedStreet(properties: seq<PropertyData.Property>, streets: seq<string>, k: nat)
    requires k < |streets|
    ensures SelectPrices(properties, streets + [streets[k]]) == SelectPrices(properties, streets)
  {
    var more := streets + [streets[k]];
    forall x | x in Folded(more)
      ensures x in Folded(streets)
    {
      var j :| 0 <= j < |more| && JsString.ToLower(more[j]) == x;
      var i := if j < |streets| then j else k;
      assert more[j] == streets[i];
    }
    forall x | x in Folded(streets)
      ensures x in Folded(more)
    {
      var i :| 0 <= i < |streets| && JsString.ToLower(streets[i]) == x;
      assert more[i] == streets[i];
    }
    SameFoldedStreets(properties, streets, more);
  }

  /** Letter case does not matter: a name matches as its lower case does. */
  lemma MatchesIgnoresCase(streets: seq<string>, name: string)
    ensures Matches(streets, name) == Matches(streets, JsString.ToLower(name))
  {
    JsString.ToLowerIdempotent(name);
  }

  /** The two selections are independent: a property on a street listed in
      both categories counts in both. */
  lemma SharedProperty(p: PropertyData.Property, tall: seq<string>, short: seq<string>)
    requires Matches(tall, p.street) && Matches(short, p.street)
    ensures SelectPrices([p], tall) == SelectPrices([p], short) == [p.price]
  {
    SelectOne(p, tall);
    SelectOne(p, short);
  }

  /** Every selected price is the price of some property. */
  lemma {:induction false} SelectedPricesPositive(properties: seq<PropertyData.Property>, streets: seq<string>)
    requires forall i :: 0 <= i < |properties| ==> properties[i].price > 0.0
    ensures forall k :: 0 <= k < |SelectPrices(properties, streets)| ==> SelectPrices(properties, streets)[k] > 0.0
    decreases |properties|
  {
    if properties != [] {
      var init := properties[..|properties| - 1];
      assert forall i :: 0 <= i < |init| ==> init[i] == properties[i];
      SelectedPricesPositive(init, streets);
    }
  }

  // ---------------------------------------------------------------------
  // Properties of the average.

  lemma {:induction false} SumBounds(prices: seq<real>, lo: real, hi: real)
    requires forall k :: 0 <= k < |prices| ==> lo <= prices[k] <= hi
    ensures |prices| as real * lo <= Sum(prices) <= |prices| as real * hi
    decreases |prices|
  {
    if prices != [] {
      var init := prices[..|prices| - 1];
      assert forall k :: 0 <= k < |init| ==> init[k] == prices[k];
      SumBounds(init, lo, hi);
      var n := |init| as real;
      assert |prices| as real * lo == n * lo + lo;
      assert |prices| as real * hi == n * hi + hi;
    }
  }

  lemma {:induction false} SumPositive(prices: seq<real>)
    requires prices != []
    requires forall k :: 0 <= k < |prices| ==> prices[k] > 0.0
    ensures Sum(prices) > 0.0
    decreases |prices|
  {
    var init := prices[..|prices| - 1];
    if init != [] {
      assert forall k :: 0 <= k < |init| ==> init[k] == prices[k];
      SumPositive(init);
    }
  }

  /** A non-empty average lies between the least and the greatest price. */
  lemma AverageBounds(prices: seq<real>, lo: real, hi: real)
    requires prices != []
    requires forall k :: 0 <= k < |prices| ==> lo <= prices[k] <= hi
    ensures lo <= Average(prices) <= hi
  {
    SumBounds(prices, lo, hi);
    var n := |prices| as real;
    var avg := Average(prices);
    assert avg * n == Sum(prices);
    assert (avg - lo) * n == Sum(prices) - n * lo;
    assert (hi - avg) * n == n * hi - Sum(prices);
    NonNegativeFactor(avg - lo, n);
    NonNegativeFactor(hi - avg, n);
  }

  lemma NonNegativeFactor(x: real, n: real)
    requires n > 0.0 && x * n >= 0.0
    ensures x >= 0.0
  {
  }

  /** The average of positive prices is positive; of no prices, 0. */
  lemma AveragePositive(prices: seq<real>)
    requires forall k :: 0 <= k < |prices| ==> prices[k] > 0.0
    ensures prices != [] <==> Average(prices) > 0.0
    ensures prices == [] <==> Average(prices) == 0.0
  {
    if prices != [] {
      SumPositive(prices);
      var n := |prices| as real;
      var avg := Average(prices);
      assert avg * n == Sum(prices);
    }
  }

  /** On properties from the register (all prices positive), a category's
      average is positive when something matched and exactly 0 when nothing
      did. */
  lemma PositiveAveragesOfProperties(streets: seq<string>, properties: seq<PropertyData.Property>)
    requires forall i :: 0 <= i < |properties| ==> properties[i].price > 0.0
    ensures Average(SelectPrices(properties, streets)) >= 0.0
    ensures Average(SelectPrices(properties, streets)) == 0.0 <==> SelectPrices(properties, streets) == []
  {
    SelectedPricesPositive(properties, streets);
    AveragePositive(SelectPrices(properties, streets));
  }

  // ---------------------------------------------------------------------
  // The fixture of tests/unit/priceCalculator.test.js.

  /** `{ tall: { road: { charlemont: { charlemont: 20 } } },
        short: { park: { the: { "the park": 10 } },
                 street: { malahide: { "malahide road": 10 } } } }` */
  function FixtureTall(): StreetExtractor.Json
  {
    StreetExtractor.Obj([("road", StreetExtractor.Obj([("charlemont", StreetExtractor.Leaf("charlemont", 20.0))]))])
  }

  function FixtureShort(): StreetExtractor.Json
  {
    StreetExtractor.Obj([
      ("park", StreetExtractor.Obj([("the", StreetExtractor.Leaf("the park", 10.0))])),
      ("street", StreetExtractor.Obj([("malahide", StreetExtractor.Leaf("malahide road", 10.0))]))])
  }

  function FixtureTree(): StreetExtractor.Json
  {
    StreetExtractor.Obj([("tall", FixtureTall()), ("short", FixtureShort())])
  }

  function FixtureProperties(): seq<PropertyData.Property>
  {
    [PropertyData.Property("charlemont", 557000.0), PropertyData.Property("the park", 79500.0),
     PropertyData.Property("malahide road", 140000.0), PropertyData.Property("charlemont", 30000.0)]
  }

  /** The walk of `{ k: { k': { street: n } } }`. */
  lemma TwoLevelStreets(k: string, k': string, street: string, n: real)
    ensures StreetExtractor.Streets(StreetExtractor.Obj([(k, StreetExtractor.Obj([(k', StreetExtractor.Leaf(street, n))]))]))
            == [street]
  {
    StreetExtractor.LeafStreets(street, n);
    StreetExtractor.StreetsSingle(k', StreetExtractor.Leaf(street, n));
    StreetExtractor.StreetsSingle(k, StreetExtractor.Obj([(k', StreetExtractor.Leaf(street, n))]));
  }

  lemma FixtureStreets()
    ensures StreetExtractor.CategoryStreets(FixtureTree(), "tall") == Success(["charlemont"])
    ensures StreetExtractor.CategoryStreets(FixtureTree(), "short") == Success(["the park", "malahide road"])
  {
    TwoLevelStreets("road", "charlemont", "charlemont", 20.0);
    var park := StreetExtractor.Obj([("the", StreetExtractor.Leaf("the park", 10.0))]);
    var street := StreetExtractor.Obj([("malahide", StreetExtractor.Leaf("malahide road", 10.0))]);
    StreetExtractor.PairStreets("park", park, "street", street);
    TwoLevelStreets("park", "the", "the park", 10.0);
    TwoLevelStreets("street", "malahide", "malahide road", 10.0);
    assert ["the park"] + ["malahide road"] == ["the park", "malahide road"];
  }

  /** What one property contributes to a selection. */
  function Selected(p: PropertyData.Property, streets: seq<string>): seq<real>
  {
    if Matches(streets, p.street) then [p.price] else []
  }

  lemma SelectSnoc(ps: seq<PropertyData.Property>, p: PropertyData.Property, streets: seq<string>)
    ensures SelectPrices(ps + [p], streets) == SelectPrices(ps, streets) + Selected(p, streets)
  {
    assert (ps + [p])[..|ps|] == ps;
  }

  lemma SelectTwo(p0: PropertyData.Property, p1: PropertyData.Property, streets: seq<string>)
    ensures SelectPrices([p0, p1], streets) == Selected(p0, streets) + Selected(p1, streets)
  {
    assert [p0] + [p1] == [p0, p1];
    SelectSnoc([p0], p1, streets);
    assert [] + [p0] == [p0];
    SelectSnoc([], p0, streets);
  }

  lemma SelectFour(p0: PropertyData.Property, p1: PropertyData.Property, p2: PropertyData.Property,
                   p3: PropertyData.Property, streets: seq<string>)
    ensures SelectPrices([p0, p1, p2, p3], streets)
            == Selected(p0, streets) + Selected(p1, streets) + Selected(p2, streets) + Selected(p3, streets)
  {
    calc {
      SelectPrices([p0, p1, p2, p3], streets);
    == { assert [p0, p1, p2] + [p3] == [p0, p1, p2, p3];
         SelectSnoc([p0, p1, p2], p3, streets); }
      SelectPrices([p0, p1, p2], streets) + Selected(p3, streets);
    == { assert [p0, p1] + [p2] == [p0, p1, p2];
         SelectSnoc([p0, p1], p2, streets); }
      SelectPrices([p0, p1], streets) + Selected(p2, streets) + Selected(p3, streets);
    == { SelectTwo(p0, p1, streets); }
      Selected(p0, streets) + Selected(p1, streets) + Selected(p2, streets) + Selected(p3, streets);
    }
  }

  /** The selections of the fixture, for any street names whose lengths
      tell them apart (so that they differ in every letter case). */
  lemma FixtureSelectionsFor(a: string, b: string, c: string, x0: real, x1: real, x2: real, x3: real)
    requires |a| != |b| && |a| != |c| && |b| != |c|
    ensures var ps := [PropertyData.Property(a, x0), PropertyData.Property(b, x1),
                       PropertyData.Property(c, x2), PropertyData.Property(a, x3)];
            && SelectPrices(ps, [a]) == [x0, x3]
            && SelectPrices(ps, [b, c]) == [x1, x2]
  {
    var p0, p1, p2, p3 := PropertyData.Property(a, x0), PropertyData.Property(b, x1),
                          PropertyData.Property(c, x2), PropertyData.Property(a, x3);
    assert [b, c][1] == c;
    assert Matches([a], a) && !Matches([a], b) && !Matches([a], c);
    assert !Matches([b, c], a) && Matches([b, c], b) && Matches([b, c], c);
    SelectFour(p0, p1, p2, p3, [a]);
    SelectFour(p0, p1, p2, p3, [b, c]);
  }

  lemma FixtureSelections()
    ensures SelectPrices(FixtureProperties(), ["charlemont"]) == [557000.0, 30000.0]
    ensures SelectPrices(FixtureProperties(), ["the park", "malahide road"]) == [79500.0, 140000.0]
  {
    FixtureSelectionsFor("charlemont", "the park", "malahide road", 557000.0, 79500.0, 140000.0, 30000.0);
  }

  lemma AverageOfTwo(x: real, y: real)
    ensures Average([x, y]) == (x + y) / 2.0
  {
    assert [x, y][..1] == [x];
    assert [x][..0] == [];
    assert Sum([x]) == x;
    assert Sum([x, y]) == x + y;
  }

  /** Both charlemont sales count for tall trees, and the park and malahide
      road for short ones: 293500 and 109750. */
  lemma FixtureAverages()
    ensures Summarise(["charlemont"], ["the park", "malahide road"], FixtureProperties())
            == Averages(293500.0, 109750.0)
  {
    FixtureSelections();
    AverageOfTwo(557000.0, 30000.0);
    AverageOfTwo(79500.0, 140000.0);
  }

  /** The whole pipeline on the fixture catalogue, with a register that
      settles to the four fixture properties. */
  lemma FixturePipeline(propertyFile: string, read: PropertyData.ReadOutcome,
                        parse: string -> PropertyData.CsvOutcome)
    requires PropertyData.PropertyDataOf(propertyFile, read, parse) == Success(FixtureProperties())
    ensures AveragePricesOf(Success(FixtureTree()), propertyFile, read, parse)
            == Success(Averages(293500.0, 109750.0))
  {
    FixtureStreets();
    FixtureAverages();
  }

  /** A failed fetch settles the whole computation with the same error,
      before any catalogue lookup or file read. */
  lemma FetchErrorFixture(propertyFile: string, read: PropertyData.ReadOutcome,
                          parse: string -> PropertyData.CsvOutcome)
    ensures AveragePricesOf(Failure(FetchFailed("Fetch error")), propertyFile, read, parse)
            == Failure(FetchFailed("Fetch error"))
    ensures Message(FetchFailed("Fetch error")) == "Fetch error"
  {
  }

  /** Street names that differ in their first letter, ignoring case, never
      match. */
  lemma DifferentInitials(a: string, b: string)
    requires a != [] && b != [] && JsString.LowerChar(a[0]) != JsString.LowerChar(b[0])
    ensures JsString.ToLower(a) != JsString.ToLower(b)
  {
    assert JsString.ToLower(a)[0] != JsString.ToLower(b)[0];
  }

  lemma UnknownIsNotTall()
    ensures !Matches(["charlemont"], "unknown")
  {
    DifferentInitials("charlemont", "unknown");
  }

  lemma UnknownIsNotShort()
    ensures !Matches(["the park", "malahide road"], "unknown")
  {
    DifferentInitials("the park", "unknown");
    DifferentInitials("malahide road", "unknown");
  }

  /** A register whose only street is unknown gives 0 for both averages. */
  lemma NoMatchesFixture()
    ensures Summarise(["charlemont"], ["the park", "malahide road"], [PropertyData.Property("unknown", 100000.0)])
            == Averages(0.0, 0.0)
  {
    var p := PropertyData.Property("unknown", 100000.0);
    UnknownIsNotTall();
    UnknownIsNotShort();
    SelectOne(p, ["charlemont"]);
    SelectOne(p, ["the park", "malahide road"]);
  }

}

