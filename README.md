# tree-property-analyser, modelled in Dafny

The analyser joins two data sets. The first is a tree-height catalogue: a
nested JSON object whose `tall` and `short` categories lead, through road
types and name prefixes, to entries `"<street name>": <height>`. The second
is a property-sale register: a CSV file with `Street Name` and `Price`
columns. It reports the average sale price on tall-tree streets and on
short-tree streets.

This project models the logic core of that pipeline and proves its
properties:

- **`parsePrice`** (`parse_price.dfy`). It deletes every euro sign and
  U+FFFD, then every comma, trims, and applies JavaScript `Number()`.
  - `js_string.dfy` holds the ECMAScript white-space set, `trim` and ASCII
    `toLowerCase`.
  - `js_number.dfy` holds `Number()` on strings: a scanner for decimal
    literals and a printer for them, proved inverse to each other. The
    value is an exact real, and NaN is `None`.
- **`extractStreetNames`** (`street_extractor.dfy`).
  - JSON values are a `Json` datatype, and `Object.entries` is `Entries`.
    Arrays are keyed `"0"`, `"1"`, …; strings are keyed by character index.
  - The recursive `traverse` is the imperative method `Traverse`. It is
    proved equal to the walk `Streets`.
  - The category guard follows JavaScript property lookup and truthiness.
    That covers own entries, names inherited from `Object.prototype`, and
    `undefined`.
- **`parsePropertyData`** (`property_data.dfy`).
  - The per-row `data` handler is `Accept`.
  - The handler applied to each emitted row is the loop `CollectProperties`,
    proved equal to `Properties`.
  - The blank-content check and the read/parse error classification are
    `ParsePropertyData`. Its specification is `PropertyDataOf`.
- **`calculateAveragePrices`** (`price_calculator.dfy`).
  - A property is selected when its street matches a listed street after
    lower-casing both (`Matches`). The selected prices are `SelectPrices`.
  - `Average` is the mean, or 0 for an empty selection.
  - The orchestration is `CalculateAveragePrices`. It tries, in order, the
    fetched catalogue, the tall extraction, the short extraction and the
    register, and the first failure is the outcome.

`errors.dfy` holds the thrown errors and their exact message texts.
`wrappers.dfy` holds `Option` and `Result`.

`parsePrice` removes only `€`, U+FFFD and `,` (src/utils/parsePrice.js:9-10),
so any other currency sign leaves the price NaN (`ParsePrice.DollarIsNaN`).

## Model

| member | source | states |
|---|---|---|
| Errors.Message | src/services/streetExtractor.js:19 | the message text of each thrown error (the CSV texts are those of src/data/parsePropertyData.js:68, 75 and 77); no contract of its own, stated by `StreetExtractor.ExtractStreetNames`, `EmptyFileMessage`, `MissingFileMessage`, `PermissionDeniedMessage` and `FetchErrorFixture` |
| JsString.TrimStart | src/utils/parsePrice.js:11 | the result is a suffix of the input; everything dropped is white space; the result does not start with white space |
| JsString.TrimEnd | src/utils/parsePrice.js:11 | the result is a prefix of the input; everything dropped is white space; the result does not end with white space |
| JsString.Trim | src/utils/parsePrice.js:11 | the result has no white space at either end |
| JsString.TrimIsSlice | src/utils/parsePrice.js:11 | trim only cuts the ends: the result is a contiguous slice `s[i..j]`, and everything outside it is white space, so inner characters keep their order |
| JsString.TrimOfTrimmed | src/utils/parsePrice.js:11 | a string without white space at its ends is left unchanged |
| JsString.TrimLeading | src/utils/parsePrice.js:11 | leading white space in front of a trimmed text trims away to exactly that text |
| JsString.TrimIdempotent | src/utils/parsePrice.js:11 | trimming twice equals trimming once |
| JsString.TrimEmptyIff | src/data/parsePropertyData.js:24 | `trim()` is empty exactly when the content is empty or all white space |
| JsString.ToLower | src/services/priceCalculator.js:29 | same length; every character is folded on its own (ASCII letters) |
| JsString.ToLowerIdempotent | src/services/priceCalculator.js:29 | folding twice equals folding once |
| JsString.ToLowerOfLowercase | src/services/priceCalculator.js:29 | a name without upper-case letters is its own lower case |
| JsNumber.Value | src/utils/parsePrice.js:7 | the exact value of a decimal literal: digits, fraction, power of ten and sign; no contract of its own, its use is stated by `NumberOfLiteral`, `ValueOfDecimal` and `NumberOfInteger` |
| JsNumber.DigitRun | src/utils/parsePrice.js:7 | the longest digit prefix: all digits, and the next character (if any) is not a digit |
| JsNumber.Scan | src/utils/parsePrice.js:7 | whatever the scanner accepts is a well-formed decimal literal |
| JsNumber.DigitsValueAppend | src/utils/parsePrice.js:7 | appending a digit multiplies the value by ten and adds the digit |
| JsNumber.ScanRender | src/utils/parsePrice.js:7 | scanning the text of any well-formed literal returns that literal |
| JsNumber.RenderScan | src/utils/parsePrice.js:7 | every accepted string is exactly the text of the literal it scans to |
| JsNumber.ScanAcceptsExactlyLiterals | src/utils/parsePrice.js:7 | a string is accepted exactly when it is the text of some well-formed literal |
| JsNumber.RenderIsTrimmed | src/utils/parsePrice.js:7 | a literal's text is non-empty with no white space at its ends |
| JsNumber.NumberOfLiteral | src/utils/parsePrice.js:7 | `Number` of a literal's text is the literal's value |
| JsNumber.ValueOfDecimal | src/utils/parsePrice.js:7 | an unsigned literal with no exponent is worth its integer part plus its fraction |
| JsNumber.NumberOfDecimal | src/utils/parsePrice.js:7 | `Number("<digits>.<digits>")` is the value of that literal |
| JsNumber.NumberOfInteger | src/utils/parsePrice.js:7 | `Number` of a digit string is the integer the digits spell |
| JsNumber.ToNumber | src/utils/parsePrice.js:7 | `Number()` on a string: trim, the empty remainder is 0, a decimal literal is its value, anything else NaN; no contract of its own, stated by `NumberIsNaNIff`, `NumberOfLiteral`, `NumberOfBlank` and `NumberIgnoresSurroundingWhitespace` |
| JsNumber.NumberIsNaNIff | src/utils/parsePrice.js:7 | `Number` is NaN exactly when the trimmed string is non-empty and the text of no literal |
| JsNumber.NumberOfBlank | src/utils/parsePrice.js:7 | an empty or all-white-space string converts to 0, not NaN |
| JsNumber.NumberIgnoresSurroundingWhitespace | src/utils/parsePrice.js:7 | surrounding white space never changes the outcome |
| ParsePrice.RemoveAllMembers | src/utils/parsePrice.js:9-10 | a character survives deletion exactly when it occurs in the input and is not in the deleted set |
| ParsePrice.RemoveAll | src/utils/parsePrice.js:9-10 | a global `replace` with an empty replacement never lengthens the text |
| ParsePrice.RemoveAllConcat | src/utils/parsePrice.js:9-10 | deletion distributes over concatenation, so survivors keep their order |
| ParsePrice.RemoveAllNothingToDrop | src/utils/parsePrice.js:9-10 | a string containing no deleted character is unchanged |
| ParsePrice.RemoveAllTwice | src/utils/parsePrice.js:9-10 | the two passes equal one pass deleting the union of both sets |
| ParsePrice.RemoveAllSplit | src/utils/parsePrice.js:9-10 | deleting one character joins the texts on either side |
| ParsePrice.Clean | src/utils/parsePrice.js:8-11 | the text handed to `Number()` is never longer than the price text and has no white space at either end |
| ParsePrice.CleanIsOnePass | src/utils/parsePrice.js:9-11 | the cleaned text is the trim of a single deletion of `€`, U+FFFD and `,` |
| ParsePrice.CleanShape | src/utils/parsePrice.js:9-11 | the cleaned text contains no `€`, U+FFFD or `,`, and has no white space at its ends; it is a slice of the deletion result with only white space cut off |
| ParsePrice.CleanOfPadded | src/utils/parsePrice.js:9-11 | when deletion leaves white space in front of a trimmed text, the cleaned text is that text |
| ParsePrice.CleanOfTrimmed | src/utils/parsePrice.js:9-11 | when deletion leaves a text with no white space at its ends, that text is the cleaned text |
| ParsePrice.CleanRegisterPrice | src/utils/parsePrice.js:9-11 | a sign, digits, one comma, digits, `.` and a fraction clean to the digits joined around the `.` |
| ParsePrice.CleanIdempotent | src/utils/parsePrice.js:9-11 | cleaning twice equals cleaning once |
| ParsePrice.IgnoresNoiseCharacter | src/utils/parsePrice.js:9-10 | inserting a `€`, U+FFFD or `,` anywhere never changes the parsed price, so comma grouping width does not matter |
| ParsePrice.PlainText | src/utils/parsePrice.js:7-12 | a string without `€`, U+FFFD or `,` parses exactly as `Number` does |
| ParsePrice.ParsePrice | src/utils/parsePrice.js:6-12 | `Number` of the cleaned text; no contract of its own, stated by `NaNIff`, `LiteralValue`, `PlainText`, `EmptyIsZero`, `IgnoresNoiseCharacter` and `RegisterPrice` |
| ParsePrice.NaNIff | src/utils/parsePrice.js:7-12 | the price is NaN exactly when the cleaned text is non-empty and not a decimal literal; there is no other failure |
| ParsePrice.EmptyIsZero | src/utils/parsePrice.js:7-11 | a price whose cleaned text is empty is 0, not NaN |
| ParsePrice.LiteralValue | src/utils/parsePrice.js:7-12 | a price whose cleaned text is a literal's text is that literal's value |
| ParsePrice.RegisterPrice | src/utils/parsePrice.js:7-12 | a price written as a euro sign or U+FFFD, digits, one comma, digits, `.` and a fraction is the value of the literal left once the sign and the comma are gone |
| ParsePrice.WholeHundredths | src/utils/parsePrice.js:7 | a whole number of units followed by `.00` is worth exactly its whole digits |
| ParsePrice.GroupedEuroPrice | tests/unit/parsePrice.test.js:4-6 | `"€ 3,08,370.00"` is 308370 |
| ParsePrice.IndianGroupingPrice | tests/unit/parsePrice.test.js:8-10 | `"5,57,000"` is 557000 |
| ParsePrice.WordIsNaN | tests/unit/parsePrice.test.js:12-14 | `"invalid"` is NaN |
| ParsePrice.DollarIsNaN | src/utils/parsePrice.js:9 | `"$5"` is NaN: no currency sign other than `€` is removed |
| ParsePrice.BareEuroIsZero | src/utils/parsePrice.js:7-11 | `"€"` is 0 |
| ParsePrice.BareCommaIsZero | src/utils/parsePrice.js:7-11 | `" , "` is 0 |
| ParsePrice.MisdecodedEuroPrice | tests/unit/parsePropertyData.test.js:35 | `"�79,500.00"` is 79500 |
| ParsePrice.RegisterPrice557000 | tests/unit/parsePropertyData.test.js:36 | `"�557,000.00"` is 557000 |
| ParsePrice.RegisterPrice160000 | tests/unit/parsePropertyData.test.js:37 | `"�160,000.00"` is 160000 |
| StreetExtractor.IndexKey | src/services/streetExtractor.js:24 | an array index's key is a non-empty digit string with no leading zero |
| StreetExtractor.IndexKeyValue | src/services/streetExtractor.js:24 | an index's key reads back as the index |
| StreetExtractor.Entries | src/services/streetExtractor.js:24 | `Object.entries`: an object's own entries; an array's elements keyed by index; a string's characters keyed by index; nothing for numbers, booleans and null |
| StreetExtractor.Streets | src/services/streetExtractor.js:22-32 | the walk `traverse(node)` returns; no contract of its own, stated by `StreetsAreNumericLeaves`, `StreetsConcat`, `StreetsSingle`, `SkippedEntry` and `ArrayAsObject` |
| StreetExtractor.StreetsFrom | src/services/streetExtractor.js:24-30 | the streets of entries `i..` in order, the remainder of the loop from iteration `i`; no contract of its own, it is the invariant of `Traverse` |
| StreetExtractor.EntryStreets | src/services/streetExtractor.js:25-29 | one iteration of the loop: the walk of an object or array value, the key of a number, nothing otherwise; no contract of its own, stated by `StreetsSingle` |
| StreetExtractor.Traverse | src/services/streetExtractor.js:22-32 | the loop over the entries returns exactly the walk `Streets` of the node |
| StreetExtractor.OwnProperty | src/services/streetExtractor.js:17 | an own value is found exactly when some entry has the key, and it is the value of the first entry with that key |
| StreetExtractor.OwnPropertyOfFirst | src/services/streetExtractor.js:17 | conversely, the first entry with a key is the one the lookup finds |
| StreetExtractor.OwnPropertyIgnores | src/services/streetExtractor.js:17 | an entry with another key never changes what the category lookup finds |
| StreetExtractor.Get | src/services/streetExtractor.js:17 | `treeData[category]`: an own entry, else an `Object.prototype` member, else `undefined`; no contract of its own, stated through `ExtractStreetNames`, `OwnProperty` and `InheritedCategoryFixture` |
| StreetExtractor.Truthy | src/services/streetExtractor.js:17 | JavaScript truthiness of a decoded JSON value: `null`, `false`, 0 and `""` are falsy; no contract of its own, stated through `ExtractStreetNames` and `ZeroHeightFixture` |
| StreetExtractor.HasCategory | src/services/streetExtractor.js:17 | the guard `!treeData[category]` lets the call through; no contract of its own, stated through `ExtractStreetNames` |
| StreetExtractor.CategoryStreets | src/services/streetExtractor.js:16-39 | the result or the thrown error of `extractStreetNames`; no contract of its own, `ExtractStreetNames` is proved equal to it and states what it is |
| StreetExtractor.ExtractStreetNames | src/services/streetExtractor.js:16-39 | it fails exactly when `treeData[category]` is falsy, with "Category '<c>' not found in tree data"; otherwise it returns the walk of the category's value (`[]` for an inherited member) |
| StreetExtractor.StreetsConcat | src/services/streetExtractor.js:24-29 | the walk of concatenated entries is the concatenation of the walks, so each value's result is spliced in at its position |
| StreetExtractor.StreetsSingle | src/services/streetExtractor.js:25-29 | one entry contributes its value's walk if the value is an object or array, its key if the value is a number (0 included), and nothing otherwise |
| StreetExtractor.SkippedEntry | src/services/streetExtractor.js:25-28 | removing an entry whose value is a string, boolean or null changes nothing |
| StreetExtractor.ArrayAsObject | src/services/streetExtractor.js:24-25 | an array is walked exactly like the object keyed "0", "1", … |
| StreetExtractor.PrimitiveHasNoStreets | src/services/streetExtractor.js:24 | a number, boolean, null or string yields no streets |
| StreetExtractor.StreetHasLeaf | src/services/streetExtractor.js:22-32 | every extracted name is the key at the end of a path to a number |
| StreetExtractor.LeafIsStreet | src/services/streetExtractor.js:22-32 | the key at the end of every path to a number is extracted |
| StreetExtractor.StreetsAreNumericLeaves | src/services/streetExtractor.js:22-32 | a name is extracted exactly when some path leads to a number-valued entry with that key |
| StreetExtractor.OtherCategoriesIgnored | src/services/streetExtractor.js:17-34 | a top-level entry other than the category never changes the outcome |
| StreetExtractor.TallFixture | tests/unit/streetExtractor.test.js:16-30 | two streets under one road type come out as `["adelaide road", "beaumont road"]` |
| StreetExtractor.ZeroHeightFixture | tests/unit/streetExtractor.test.js:32-43 | a height of 0 still yields `["abbey drive"]` |
| StreetExtractor.NullSiblingFixture | tests/unit/streetExtractor.test.js:45-56 | a null sibling is skipped |
| StreetExtractor.StringSiblingFixture | tests/unit/streetExtractor.test.js:58-69 | a string sibling is skipped |
| StreetExtractor.MissingCategoryFixture | tests/unit/streetExtractor.test.js:71-79 | a missing category fails with `CategoryNotFound("invalid")` |
| StreetExtractor.InheritedCategoryFixture | src/services/streetExtractor.js:17 | a category named like an `Object.prototype` member passes the guard and yields no streets |
| PropertyData.Filled | src/data/parsePropertyData.js:42-45 | a column is present and not the empty string, the only falsy string; no contract of its own, stated through `Accept` |
| PropertyData.Accept | src/data/parsePropertyData.js:39-61 | a row is kept exactly when `Street Name` and `Price` are present and non-empty and the price parses to a number > 0; the record is the street verbatim with that price |
| PropertyData.AcceptSaleRow | src/data/parsePropertyData.js:39-61 | a row with a non-empty street and a price parsing to a positive number is kept with the street verbatim and that price |
| PropertyData.Kept | src/data/parsePropertyData.js:39-65 | keeping the rows a per-row handler accepts never yields more records than rows |
| PropertyData.KeptSnoc | src/data/parsePropertyData.js:39-61 | for any per-row handler, one more row adds its record, if any, at the end |
| PropertyData.KeptConcat | src/data/parsePropertyData.js:39-65 | for any per-row handler, the records of concatenated rows are the concatenation of the records |
| PropertyData.KeptPositions | src/data/parsePropertyData.js:39-65 | for any per-row handler, the records are those of strictly increasing row positions, each the handler's record for its row, and every accepted row has its position listed |
| PropertyData.KeptThree | src/data/parsePropertyData.js:39-65 | three accepted rows give their three records in order |
| PropertyData.KeptNeither | src/data/parsePropertyData.js:39-65 | two rejected rows give no records |
| PropertyData.Properties | src/data/parsePropertyData.js:28-65 | never more properties than rows; every price is > 0 |
| PropertyData.KeptPricesPositive | src/data/parsePropertyData.js:52-55 | every record the row handler keeps has a price > 0 |
| PropertyData.CollectProperties | src/data/parsePropertyData.js:28-65 | appending each accepted row in emission order yields exactly `Properties(rows)` |
| PropertyData.PropertyDataOf | src/data/parsePropertyData.js:20-79 | the settled outcome of `parsePropertyData`; no contract of its own, `ParsePropertyData` is proved equal to it and states each outcome, as do `BlankContentFailsFirst` and `CsvErrorNotRewrapped` |
| PropertyData.ParsePropertyData | src/data/parsePropertyData.js:20-79 | ENOENT is `FileNotFound(path)`; any other read error is `ReadFailed(message)`; blank content is `ReadFailed("CSV file is empty")`; a parser error is `CsvParseFailed(message)`, not re-wrapped; otherwise the properties of the rows |
| PropertyData.PropertiesSnoc | src/data/parsePropertyData.js:39-61 | one more row adds its property, if it has one, at the end |
| PropertyData.PropertiesConcat | src/data/parsePropertyData.js:39-65 | the properties of concatenated rows are the concatenation of the properties |
| PropertyData.RowInPlace | src/data/parsePropertyData.js:39-61 | a rejected row can be removed without effect, and an accepted one lands at its own position |
| PropertyData.PropertiesAreAcceptedRows | src/data/parsePropertyData.js:28-65 | the output is an order-preserving subsequence of the rows: increasing positions, exactly the accepted rows, duplicates kept |
| PropertyData.BlankContentFailsFirst | src/data/parsePropertyData.js:23-26 | blank content fails with "CSV file is empty" whatever the parser would have done |
| PropertyData.FirstSale | tests/unit/parsePropertyData.test.js:35 | the first sample sale becomes `the park` at 79500 |
| PropertyData.SecondSale | tests/unit/parsePropertyData.test.js:36 | the second sample sale becomes `charlemont` at 557000 |
| PropertyData.ThirdSale | tests/unit/parsePropertyData.test.js:37 | the third sample sale becomes `church street` at 160000 |
| PropertyData.PropertiesOfThree | src/data/parsePropertyData.js:39-65 | three accepted rows give their three properties in order |
| PropertyData.SampleRegister | tests/unit/parsePropertyData.test.js:52-62 | the three sample sales become `the park` 79500, `charlemont` 557000 and `church street` 160000, in order |
| PropertyData.NoStreetRejected | tests/unit/parsePropertyData.test.js:87 | the sale row with an empty `Street Name` is rejected |
| PropertyData.InvalidPriceRejected | tests/unit/parsePropertyData.test.js:88 | the sale row priced "invalid" is rejected |
| PropertyData.InvalidRowsSkipped | tests/unit/parsePropertyData.test.js:84-99 | a row with an empty street and a row priced "invalid" both drop out |
| PropertyData.EmptyFileFixture | tests/unit/parsePropertyData.test.js:64-72 | empty content fails as a read error carrying "CSV file is empty", whatever the parser would do |
| PropertyData.EmptyFileMessage | src/data/parsePropertyData.js:71-77 | the empty-file error, caught and rethrown, reads "Error reading CSV: CSV file is empty" |
| PropertyData.ReadErrorFixtures | tests/unit/parsePropertyData.test.js:74-126 | a read failure with code ENOENT is `FileNotFound("test.csv")`; one with code EACCES is a read error carrying its own message "Permission denied" |
| PropertyData.MissingFileMessage | src/data/parsePropertyData.js:74-75 | the ENOENT error reads "Property data file not found: test.csv" |
| PropertyData.PermissionDeniedMessage | src/data/parsePropertyData.js:77 | the EACCES error reads "Error reading CSV: Permission denied" |
| PropertyData.CsvErrorNotRewrapped | src/data/parsePropertyData.js:66-69 | a parser error on non-blank content settles as `CsvParseFailed` with the parser's message, never as a read error: the returned promise is not awaited inside the `try` |
| PriceCalculator.Matches | src/services/priceCalculator.js:28-30 | true exactly when some listed street equals the property's street after lower-casing both |
| PriceCalculator.MatchesFolded | src/services/priceCalculator.js:28-30 | a name matches exactly when its lower case is among the lower-cased listed streets |
| PriceCalculator.MatchesIgnoresCase | src/services/priceCalculator.js:29 | a name matches exactly when its lower case does |
| PriceCalculator.SelectPrices | src/services/priceCalculator.js:26-32 | never more prices than properties |
| PriceCalculator.SelectPricesConcat | src/services/priceCalculator.js:26-32 | the selection is a filter: it distributes over concatenation, so order and duplicates are kept |
| PriceCalculator.SelectOne | src/services/priceCalculator.js:26-32 | one property contributes its price exactly when its street matches |
| PriceCalculator.SelectSnoc | src/services/priceCalculator.js:26-32 | one more property adds its price, if it matches, at the end |
| PriceCalculator.SelectTwo | src/services/priceCalculator.js:26-32 | two properties contribute their matching prices in order |
| PriceCalculator.SelectFour | src/services/priceCalculator.js:26-32 | four properties contribute their matching prices in order |
| PriceCalculator.SameFoldedStreets | src/services/priceCalculator.js:27-30 | street lists with the same lower-cased names select the same prices, whatever the repetition or order |
| PriceCalculator.RepeatedStreet | src/services/priceCalculator.js:27-30 | listing a street twice counts each property once |
| PriceCalculator.SharedProperty | src/services/priceCalculator.js:26-39 | the selections are independent: a property whose street is in both lists counts in both |
| PriceCalculator.SelectedPricesPositive | src/services/priceCalculator.js:26-32 | positive property prices give positive selected prices |
| PriceCalculator.Average | src/services/priceCalculator.js:48-53 | 0 for no prices; otherwise the average times the count is the sum |
| PriceCalculator.Sum | src/services/priceCalculator.js:49 | `reduce((sum, price) => sum + price, 0)`, folding from the left; no contract of its own, stated by `SumBounds`, `SumPositive` and `Average` |
| PriceCalculator.SumBounds | src/services/priceCalculator.js:49 | with every price in `[lo, hi]`, the sum lies between count·lo and count·hi |
| PriceCalculator.SumPositive | src/services/priceCalculator.js:49 | the sum of one or more positive prices is positive |
| PriceCalculator.AverageBounds | src/services/priceCalculator.js:48-50 | a non-empty average lies between the least and the greatest price |
| PriceCalculator.AveragePositive | src/services/priceCalculator.js:48-53 | for positive prices, the average is positive exactly when there are prices, and 0 exactly when there are none |
| PriceCalculator.PositiveAveragesOfProperties | src/services/priceCalculator.js:48-53 | on register properties a category average is ≥ 0, and 0 exactly when nothing matched |
| PriceCalculator.Summarise | src/services/priceCalculator.js:26-55 | the two selections and their averages; no contract of its own, stated by `PositiveAveragesOfProperties` and `SharedProperty` |
| PriceCalculator.AveragePricesOf | src/services/priceCalculator.js:20-56 | the settled outcome of `calculateAveragePrices`; no contract of its own, `CalculateAveragePrices` is proved equal to it and states the order of failures |
| PriceCalculator.CalculateAveragePrices | src/services/priceCalculator.js:20-56 | a fetch failure, then a missing `tall`, then a missing `short`, then a register failure aborts with that error before any averaging; otherwise both averages, each ≥ 0 |
| PriceCalculator.FixtureStreets | tests/unit/priceCalculator.test.js:17-23 | the fixture catalogue gives tall `["charlemont"]` and short `["the park", "malahide road"]` |
| PriceCalculator.FixtureSelectionsFor | src/services/priceCalculator.js:26-39 | with names of distinct lengths, the four-record fixture selects the first and last price for the first name and the middle two for the others |
| PriceCalculator.FixtureSelections | tests/unit/priceCalculator.test.js:24-29 | tall selects 557000 and 30000; short selects 79500 and 140000 |
| PriceCalculator.AverageOfTwo | src/services/priceCalculator.js:48-50 | the average of two prices is half their sum |
| PriceCalculator.FixtureAverages | tests/unit/priceCalculator.test.js:37-50 | `tallAverage` is 293500 and `shortAverage` is 109750 |
| PriceCalculator.FixturePipeline | tests/unit/priceCalculator.test.js:37-50 | the fixture catalogue and a register of the four fixture properties settle to averages 293500 and 109750 |
| PriceCalculator.FetchErrorFixture | tests/unit/priceCalculator.test.js:62-68 | a rejected fetch settles the whole computation with "Fetch error" |
| PriceCalculator.DifferentInitials | src/services/priceCalculator.js:29 | names whose first letters differ after lower-casing never compare equal |
| PriceCalculator.UnknownIsNotTall | tests/unit/priceCalculator.test.js:52-60 | "unknown" does not match the tall street `charlemont` |
| PriceCalculator.UnknownIsNotShort | tests/unit/priceCalculator.test.js:52-60 | "unknown" matches neither short street |
| PriceCalculator.NoMatchesFixture | tests/unit/priceCalculator.test.js:52-60 | a register with only an unknown street gives 0 for both averages |

## Left out

- Fetching the catalogue is not part of this model. That covers the HTTP request, timeout, headers, status check and JSON shape check in src/data/fetchTreeData.js. `CalculateAveragePrices` takes the fetch outcome as a parameter, and its error is propagated unchanged.
- Reading the file and tokenising the CSV are not part of this model. That covers `fs.readFile`, and in csv-parse the header mapping, quotes, ragged rows and field trimming. Their outcomes are parameters: `ReadOutcome`, and a function from text to `CsvOutcome` whose rows are already trimmed maps.
- The Promise, async and event sequencing is not modelled. The `data` handler runs once per emitted row, in order, as the loop in `CollectProperties`. A parser `error` is a single outcome, whatever rows came before it.
- Logging (src/utils/logger.js and every `logger.*` call) has no functional effect and is left out. So are src/index.js, its console output and its `toFixed(2)` formatting.
- Prices and averages are exact reals, so IEEE-754 double rounding is not modelled. Where this is visible: a price text that underflows to 0 as a double (such as `"1e-400"`) is dropped by `price > 0` (src/data/parsePropertyData.js:54), but the model keeps it; one that overflows (such as `"1e400"`) is `Infinity` and makes that average `Infinity`, where the model has a finite value.
- JsNumber.ToNumber: hexadecimal, octal and binary literals and `Infinity` are not accepted, and such strings give NaN (`None`). Everything else in the decimal `StringNumericLiteral` grammar is modelled: sign, fraction, exponent and white space.
- JsString.ToLower: folds only ASCII letters. Full Unicode `toLowerCase` (for example `İ` or `Σ`) is not modelled.
- StreetExtractor.Entries: an object's entries are taken in the order `Object.entries` visits them, and keys are assumed distinct. JavaScript's own ordering (integer-like keys first, ascending) and `JSON.parse` keeping the last of duplicate keys are not modelled.
- StreetExtractor.Truthy: NaN and `undefined` are not values of the model, and JSON cannot produce them. `-0` decodes to `Num(0.0)`, which has the same truthiness and the same type, so it is falsy as a category and a street leaf as a height.
- The result of `extractStreetNames` is a fresh array, and the input tree is only read. Values are immutable in the model, so "the input is never modified" holds by construction and has no lemma.
- The length of the result is not stated as a separate leaf count. `StreetsSingle`, `StreetsConcat` and `SkippedEntry` together fix the result entry by entry, multiplicity included.
