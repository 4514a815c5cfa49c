/** `parsePropertyData` (src/data/parsePropertyData.js): read the property
    register, refuse blank content, keep every row that names a street and
    a positive price, and classify the failures. Reading the file and
    splitting it into rows are outside the model: their outcomes are
    parameters. */
module PropertyData {
  import opened Wrappers
  import opened Errors
  import JsString
  import ParsePrice

  /** A row as the CSV parser delivers it with `columns: true` and
      `trim: true`: header name to trimmed field. A column a short row does
      not reach is absent. */
  type Row = map<string, string>

  /** `{ street, price }`. */
  datatype Property = Property(street: string, price: real)

  const StreetColumn: string := "Street Name"
  const PriceColumn: string := "Price"

  /** `row[column]` is truthy: present and not the empty string. */
  predicate Filled(row: Row, column: string)
  {
    column in row && row[column] != ""
  }

  /** The `data` handler's verdict on one row. */
  function Accept(row: Row): (p: Option<Property>)
    ensures p.Some? <==>
              && Filled(row, StreetColumn)
              && Filled(row, PriceColumn)
              && ParsePrice.ParsePrice(row[PriceColumn]).Some?
              && ParsePrice.ParsePrice(row[PriceColumn]).value > 0.0
    ensures p.Some? ==>
              && p.value.street == row[StreetColumn]
              && ParsePrice.ParsePrice(row[PriceColumn]) == Some(p.value.price)
              && p.value.price > 0.0
  {
    if !Filled(row, StreetColumn) || !Filled(row, PriceColumn) then None
    else
      match ParsePrice.ParsePrice(row[PriceColumn])
      case Some(price) => if price > 0.0 then Some(Property(row[StreetColumn], price)) else None
      case None => None
  }

  /** The values `verdict` gives the rows, in row order; a row it gives no
      value contributes nothing. */
  function Kept(verdict: Row -> Option<Property>, rows: seq<Row>): (ps: seq<Property>)
    ensures |ps| <= |rows|
  {
    if rows == [] then []
    else Kept(verdict, rows[..|rows| - 1]) + AsList(verdict(rows[|rows| - 1]))
  }

  /** The value of an option as a list of zero or one elements. */
  function AsList(o: Option<Property>): seq<Property>
  {
    if o.Some? then [o.value] else []
  }

  /** The rows' properties, in row order: the `data` handler's verdicts. */
  function Properties(rows: seq<Row>): (ps: seq<Property>)
    ensures |ps| <= |rows|
    ensures forall k :: 0 <= k < |ps| ==> ps[k].price > 0.0
  {
    KeptPricesPositive(rows);
    Kept(Accept, rows)
  }

  lemma {:induction false} KeptPricesPositive(rows: seq<Row>)
    ensures forall k :: 0 <= k < |Kept(Accept, rows)| ==> Kept(Accept, rows)[k].price > 0.0
  {
    if rows != [] {
      KeptPricesPositive(rows[..|rows| - 1]);
    }
  }

  /** The `data` handler run on each row the parser emits, appending the
      accepted ones to `properties`. */
  method CollectProperties(rows: seq<Row>) returns (properties: seq<Property>)
    ensures properties == Properties(rows)
  {
    properties := [];
    for i := 0 to |rows|
      invariant properties == Properties(rows[..i])
    {
      assert rows[..i + 1] == rows[..i] + [rows[i]];
      PropertiesSnoc(rows[..i], rows[i]);
      var row := rows[i];
      if !Filled(row, StreetColumn) || !Filled(row, PriceColumn) {
        continue;
      }
      var price := ParsePrice.ParsePrice(row[PriceColumn]);
      if price.Some? && price.value > 0.0 {
        properties := properties + [Property(row[StreetColumn], price.value)];
      }
    }
    assert rows[..|rows|] == rows;
  }

  // ---------------------------------------------------------------------
  // Reading and parsing, with their failures.

  /** What `fs.readFile` produced: the text, or an error with an optional
      `code` such as "ENOENT". */
  datatype ReadOutcome = Contents(text: string) | ReadError(code: Option<string>, message: string)

  /** What the CSV parser produced: the rows, or the message of its
      `error` event. */
  datatype CsvOutcome = Rows(rows: seq<Row>) | CsvError(message: string)

  /** The settled value of `parsePropertyData(path)`: the parser is only
      consulted for content that is not blank. */
  function PropertyDataOf(path: string, read: ReadOutcome, parse: string -> CsvOutcome): Result<seq<Property>, Error>
  {
    match read
    case ReadError(code, message) =>
      if code == Some("ENOENT") then Failure(FileNotFound(path)) else Failure(ReadFailed(message))
    case Contents(text) =>
      if JsString.Trim(text) == "" then Failure(ReadFailed("CSV file is empty"))
      else
        match parse(text)
        case CsvError(message) => Failure(CsvParseFailed(message))
        case Rows(rows) => Success(Properties(rows))
  }

  method ParsePropertyData(path: string, read: ReadOutcome, parse: string -> CsvOutcome)
    returns (r: Result<seq<Property>, Error>)
    ensures r == PropertyDataOf(path, read, parse)
    ensures read.ReadError? ==>
              r == Failure(if read.code == Some("ENOENT") then FileNotFound(path) else ReadFailed(read.message))
    ensures read.Contents? && JsString.AllWhitespace(read.text) ==> r == Failure(ReadFailed("CSV file is empty"))
    ensures read.Contents? && !JsString.AllWhitespace(read.text) ==>
              match parse(read.text)
              case CsvError(m) => r == Failure(CsvParseFailed(m))
              case Rows(rows) => r == Success(Properties(rows))
  {
    JsString.TrimEmptyIff(if read.Contents? then read.text else "");
    match read {
      case ReadError(code, message) =>
        if code == Some("ENOENT") {
          return Failure(FileNotFound(path));
        }
        return Failure(ReadFailed(message));
      case Contents(text) =>
        if JsString.Trim(text) == "" {
          return Failure(ReadFailed("CSV file is empty"));
        }
        match parse(text) {
          case CsvError(message) =>
            return Failure(CsvParseFailed(message));
          case Rows(rows) =>
            var properties := CollectProperties(rows);
            return Success(properties);
        }
    }
  }

  // ---------------------------------------------------------------------
  // Properties of the row filter.

  /** One more row adds its value, if it has one, at the end. */
  lemma KeptSnoc(verdict: Row -> Option<Property>, rows: seq<Row>, row: Row)
    ensures Kept(verdict, rows + [row]) == Kept(verdict, rows) + AsList(verdict(row))
  {
    assert (rows + [row])[..|rows|] == rows;
  }

  lemma {:induction false} KeptConcat(verdict: Row -> Option<Property>, a: seq<Row>, b: seq<Row>)
    ensures Kept(verdict, a + b) == Kept(verdict, a) + Kept(verdict, b)
    decreases |b|
  {
    if b == [] {
      assert a + b == a;
    } else {
      var b' := b[..|b| - 1];
      var last := b[|b| - 1];
      assert a + b == (a + b') + [last];
      assert b == b' + [last];
      KeptConcat(verdict, a, b');
      KeptSnoc(verdict, a + b', last);
      KeptSnoc(verdict, b', last);
    }
  }

  /** Two rows without values keep nothing. */
  lemma KeptNeither(verdict: Row -> Option<Property>, r1: Row, r2: Row)
    requires verdict(r1).None? && verdict(r2).None?
    ensures Kept(verdict, [r1, r2]) == []
  {
    KeptSnoc(verdict, [], r1);
    KeptSnoc(verdict, [r1], r2);
    assert [] + [r1] == [r1];
    assert [r1] + [r2] == [r1, r2];
  }

  /** Three rows with values keep them, in order. */
  lemma KeptThree(verdict: Row -> Option<Property>, r1: Row, r2: Row, r3: Row, p1: Property, p2: Property, p3: Property)
    requires verdict(r1) == Some(p1) && verdict(r2) == Some(p2) && verdict(r3) == Some(p3)
    ensures Kept(verdict, [r1, r2, r3]) == [p1, p2, p3]
  {
    KeptSnoc(verdict, [], r1);
    KeptSnoc(verdict, [r1], r2);
    KeptSnoc(verdict, [r1, r2], r3);
    assert [] + [r1] == [r1];
    assert [r1] + [r2] == [r1, r2];
    assert [r1, r2] + [r3] == [r1, r2, r3];
  }

  predicate Increasing(idx: seq<int>)
  {
    forall k, l :: 0 <= k < l < |idx| ==> idx[k] < idx[l]
  }

  /** `idx` lists, in increasing order, the positions of exactly the rows
      `verdict` gives a value, and the k-th kept value is that of row
      `idx[k]`. */
  predicate Positions(verdict: Row -> Option<Property>, rows: seq<Row>, idx: seq<int>)
  {
    && |idx| == |Kept(verdict, rows)|
    && Increasing(idx)
    && (forall k :: 0 <= k < |idx| ==>
          0 <= idx[k] < |rows| && verdict(rows[idx[k]]) == Some(Kept(verdict, rows)[k]))
    && (forall i :: 0 <= i < |rows| ==> (i in idx <==> verdict(rows[i]).Some?))
  }

  lemma IncreasingSnoc(prev: seq<int>, n: nat)
    requires Increasing(prev) && forall k :: 0 <= k < |prev| ==> prev[k] < n
    ensures Increasing(prev + [n])
  {
    var idx := prev + [n];
    forall k, l | 0 <= k < l < |idx|
      ensures idx[k] < idx[l]
    {
      assert idx[k] == prev[k];
      if l < |prev| {
        assert idx[l] == prev[l];
      }
    }
  }

  lemma MemberSnoc(prev: seq<int>, n: int, i: int)
    requires i != n
    ensures i in prev + [n] <==> i in prev
  {
  }

  lemma ExtendPositions(verdict: Row -> Option<Property>, init: seq<Row>, row: Row, prev: seq<int>)
    returns (idx: seq<int>)
    requires Positions(verdict, init, prev)
    ensures Positions(verdict, init + [row], idx)
  {
    var rows := init + [row];
    var n := |init|;
    idx := if verdict(row).Some? then prev + [n] else prev;
    KeptSnoc(verdict, init, row);
    var ps := Kept(verdict, rows);
    assert ps == Kept(verdict, init) + AsList(verdict(row));
    if verdict(row).Some? {
      IncreasingSnoc(prev, n);
    }
    forall k | 0 <= k < |idx|
      ensures 0 <= idx[k] < |rows| && verdict(rows[idx[k]]) == Some(ps[k])
    {
      if k < |prev| {
        assert idx[k] == prev[k] && rows[prev[k]] == init[prev[k]];
        assert ps[k] == Kept(verdict, init)[k];
      }
    }
    forall i | 0 <= i < |rows|
      ensures i in idx <==> verdict(rows[i]).Some?
    {
      if i < n {
        assert rows[i] == init[i];
        assert i in prev <==> verdict(init[i]).Some?;
        MemberSnoc(prev, n, i);
      } else {
        assert n !in prev;
      }
    }
  }

  /** The kept values are those of the rows with values, in order,
      duplicates kept. */
  lemma {:induction false} KeptPositions(verdict: Row -> Option<Property>, rows: seq<Row>) returns (idx: seq<int>)
    ensures Positions(verdict, rows, idx)
  {
    if rows == [] {
      return [];
    }
    var n := |rows| - 1;
    var prev := KeptPositions(verdict, rows[..n]);
    idx := ExtendPositions(verdict, rows[..n], rows[n], prev);
    assert rows[..n] + [rows[n]] == rows;
  }

  // ---------------------------------------------------------------------
  // Properties of the row filter.

  /** One more row adds its property, if it has one, at the end. */
  lemma PropertiesSnoc(rows: seq<Row>, row: Row)
    ensures Properties(rows + [row]) == Properties(rows) + AsList(Accept(row))
  {
    KeptSnoc(Accept, rows, row);
  }

  /** The filter works row by row: the properties of a concatenation are the
      concatenation of the properties. */
  lemma PropertiesConcat(a: seq<Row>, b: seq<Row>)
    ensures Properties(a + b) == Properties(a) + Properties(b)
  {
    KeptConcat(Accept, a, b);
  }

  /** A rejected row can be removed without changing the result; an
      accepted one lands exactly at its position. */
  lemma RowInPlace(a: seq<Row>, row: Row, b: seq<Row>)
    ensures Properties(a + [row] + b) == Properties(a) + AsList(Accept(row)) + Properties(b)
  {
    KeptConcat(Accept, a + [row], b);
    KeptSnoc(Accept, a, row);
  }

  /** The properties are the accepted rows, in order, duplicates kept:
      `idx` holds the positions of exactly the accepted rows, increasing,
      and the k-th property is the verdict on row `idx[k]`. */
  lemma PropertiesAreAcceptedRows(rows: seq<Row>) returns (idx: seq<int>)
    ensures Positions(Accept, rows, idx)
    ensures forall k :: 0 <= k < |idx| ==> Accept(rows[idx[k]]) == Some(Properties(rows)[k])
  {
    idx := KeptPositions(Accept, rows);
  }

  /** Blank content fails before the parser is consulted: the outcome does
      not depend on what the parser would have done. */
  lemma BlankContentFailsFirst(path: string, text: string, parse: string -> CsvOutcome, parse': string -> CsvOutcome)
    requires JsString.AllWhitespace(text)
    ensures PropertyDataOf(path, Contents(text), parse) == PropertyDataOf(path, Contents(text), parse')
            == Failure(ReadFailed("CSV file is empty"))
  {
    JsString.TrimEmptyIff(text);
  }

  /** A parser error on content that is not blank is reported as a parse
      error and is not wrapped again as a read error. */
  lemma CsvErrorNotRewrapped(path: string, text: string, parse: string -> CsvOutcome, m: string)
    requires !JsString.AllWhitespace(text) && parse(text) == CsvError(m)
    ensures PropertyDataOf(path, Contents(text), parse) == Failure(CsvParseFailed(m))
  {
    JsString.TrimEmptyIff(text);
  }

  // ---------------------------------------------------------------------
  // The register rows of tests/unit/parsePropertyData.test.js, as the
  // parser delivers them.

  function SaleRow(date: string, address: string, street: string, price: string): Row
  {
    map["Date of Sale (dd/mm/yyyy)" := date, "Address" := address, StreetColumn := street, PriceColumn := price]
  }

  lemma AcceptSaleRow(date: string, address: string, street: string, price: string, value: real)
    requires street != "" && price != "" && ParsePrice.ParsePrice(price) == Some(value) && value > 0.0
    ensures Accept(SaleRow(date, address, street, price)) == Some(Property(street, value))
  {
    var row := SaleRow(date, address, street, price);
    assert row[StreetColumn] == street && row[PriceColumn] == price;
  }

  lemma PropertiesOfThree(r1: Row, r2: Row, r3: Row, p1: Property, p2: Property, p3: Property)
    requires Accept(r1) == Some(p1) && Accept(r2) == Some(p2) && Accept(r3) == Some(p3)
    ensures Properties([r1, r2, r3]) == [p1, p2, p3]
  {
    KeptThree(Accept, r1, r2, r3, p1, p2, p3);
  }

  lemma FirstSale()
    ensures Accept(SaleRow("01/01/2015", "APT 274, THE PARKLANDS, NORTHWOOD", "the park", "\U{FFFD}79,500.00"))
            == Some(Property("the park", 79500.0))
  {
    ParsePrice.MisdecodedEuroPrice();
    AcceptSaleRow("01/01/2015", "APT 274, THE PARKLANDS, NORTHWOOD", "the park", "\U{FFFD}79,500.00", 79500.0);
  }

  lemma SecondSale()
    ensures Accept(SaleRow("05/01/2015", "61 CHARLEMONT, GRIFFITH AVE, DUBLIN 9", "charlemont", "\U{FFFD}557,000.00"))
            == Some(Property("charlemont", 557000.0))
  {
    ParsePrice.RegisterPrice557000();
    AcceptSaleRow("05/01/2015", "61 CHARLEMONT, GRIFFITH AVE, DUBLIN 9", "charlemont", "\U{FFFD}557,000.00", 557000.0);
  }

  lemma ThirdSale()
    ensures Accept(SaleRow("06/01/2015", "6A Church Street, Finglas, Dublin 11", "church street", "\U{FFFD}160,000.00"))
            == Some(Property("church street", 160000.0))
  {
    ParsePrice.RegisterPrice160000();
    AcceptSaleRow("06/01/2015", "6A Church Street, Finglas, Dublin 11", "church street", "\U{FFFD}160,000.00", 160000.0);
  }

  /** Three sales with mis-decoded euro signs become three properties, in
      file order. */
  lemma SampleRegister()
    ensures Properties([
              SaleRow("01/01/2015", "APT 274, THE PARKLANDS, NORTHWOOD", "the park", "\U{FFFD}79,500.00"),
              SaleRow("05/01/2015", "61 CHARLEMONT, GRIFFITH AVE, DUBLIN 9", "charlemont", "\U{FFFD}557,000.00"),
              SaleRow("06/01/2015", "6A Church Street, Finglas, Dublin 11", "church street", "\U{FFFD}160,000.00")])
            == [Property("the park", 79500.0), Property("charlemont", 557000.0), Property("church street", 160000.0)]
  {
    FirstSale();
    SecondSale();
    ThirdSale();
    PropertiesOfThree(
      SaleRow("01/01/2015", "APT 274, THE PARKLANDS, NORTHWOOD", "the park", "\U{FFFD}79,500.00"),
      SaleRow("05/01/2015", "61 CHARLEMONT, GRIFFITH AVE, DUBLIN 9", "charlemont", "\U{FFFD}557,000.00"),
      SaleRow("06/01/2015", "6A Church Street, Finglas, Dublin 11", "church street", "\U{FFFD}160,000.00"),
      Property("the park", 79500.0), Property("charlemont", 557000.0), Property("church street", 160000.0));
  }

  lemma NoStreetRejected()
    ensures Accept(SaleRow("01/01/2015", "APT 274, THE PARKLANDS, NORTHWOOD", "", "\U{FFFD}79,500.00")) == None
  {
    var row := SaleRow("01/01/2015", "APT 274, THE PARKLANDS, NORTHWOOD", "", "\U{FFFD}79,500.00");
    assert row[StreetColumn] == "";
  }

  lemma InvalidPriceRejected()
    ensures Accept(SaleRow("05/01/2015", "61 CHARLEMONT, GRIFFITH AVE, DUBLIN 9", "charlemont", "invalid")) == None
  {
    var row := SaleRow("05/01/2015", "61 CHARLEMONT, GRIFFITH AVE, DUBLIN 9", "charlemont", "invalid");
    assert row[PriceColumn] == "invalid";
    ParsePrice.WordIsNaN();
  }

  /** A row without a street and a row with an unreadable price are both
      skipped. */
  lemma InvalidRowsSkipped()
    ensures Properties([
              SaleRow("01/01/2015", "APT 274, THE PARKLANDS, NORTHWOOD", "", "\U{FFFD}79,500.00"),
              SaleRow("05/01/2015", "61 CHARLEMONT, GRIFFITH AVE, DUBLIN 9", "charlemont", "invalid")])
            == []
  {
    NoStreetRejected();
    InvalidPriceRejected();
    KeptNeither(Accept,
      SaleRow("01/01/2015", "APT 274, THE PARKLANDS, NORTHWOOD", "", "\U{FFFD}79,500.00"),
      SaleRow("05/01/2015", "61 CHARLEMONT, GRIFFITH AVE, DUBLIN 9", "charlemont", "invalid"));
  }

  /** Empty content is refused with "Error reading CSV: CSV file is empty". */
  lemma EmptyFileFixture(parse: string -> CsvOutcome)
    ensures PropertyDataOf("test.csv", Contents(""), parse) == Failure(ReadFailed("CSV file is empty"))
  {
  }

  lemma EmptyFileMessage()
    ensures Message(ReadFailed("CSV file is empty")) == "Error reading CSV: CSV file is empty"
  {
  }

  /** A missing file is reported by path; any other read error by message. */
  lemma ReadErrorFixtures(parse: string -> CsvOutcome)
    ensures PropertyDataOf("test.csv", ReadError(Some("ENOENT"), ""), parse) == Failure(FileNotFound("test.csv"))
    ensures PropertyDataOf("test.csv", ReadError(Some("EACCES"), "Permission denied"), parse)
            == Failure(ReadFailed("Permission denied"))
  {
  }

  lemma MissingFileMessage()
    ensures Message(FileNotFound("test.csv")) == "Property data file not found: test.csv"
  {
  }

  lemma PermissionDeniedMessage()
    ensures Message(ReadFailed("Permission denied")) == "Error reading CSV: Permission denied"
  {
  }
}

