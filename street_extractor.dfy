/** `extractStreetNames` (src/services/streetExtractor.js): look up a
    category of the decoded tree-height catalogue and walk it depth first,
    collecting the key of every number-valued entry. */
module StreetExtractor {
  import opened Wrappers
  import opened Errors
  import JsNumber

  /** A decoded JSON value. An `Obj` lists the object's own properties in
      the order `Object.entries` visits them; the keys of an object built by
      `JSON.parse` are distinct. */
  datatype Json =
    | Obj(entries: seq<(string, Json)>)
    | Arr(items: seq<Json>)
    | Num(n: real)
    | Str(s: string)
    | Bool(b: bool)
    | Null

  /** `typeof value === "object" && value !== null`: objects and arrays. */
  predicate IsObject(v: Json) { v.Obj? || v.Arr? }

  /** The property key of array index `i`: its decimal digits, no leading
      zero. */
  function IndexKey(i: nat): (k: string)
    ensures k != [] && JsNumber.AllDigits(k)
    ensures |k| > 1 ==> k[0] != '0'
  {
    var d := [('0' as int + i % 10) as char];
    if i < 10 then d else IndexKey(i / 10) + d
  }

  /** The index key reads back as the index. */
  lemma {:induction false} IndexKeyValue(i: nat)
    ensures JsNumber.DigitsValue(IndexKey(i)) == i
  {
    var d := ('0' as int + i % 10) as char;
    if i < 10 {
      assert IndexKey(i) == [] + [d];
      JsNumber.DigitsValueAppend([], d);
    } else {
      IndexKeyValue(i / 10);
      JsNumber.DigitsValueAppend(IndexKey(i / 10), d);
    }
  }

  /** `Object.entries(node)`: an object's own entries, an array's elements
      keyed by index, a string's characters keyed by index, and nothing for
      numbers, booleans and null. */
  function Entries(node: Json): (es: seq<(string, Json)>)
    ensures node.Obj? ==> es == node.entries
    ensures node.Arr? ==> |es| == |node.items|
                          && forall i :: 0 <= i < |es| ==> es[i] == (IndexKey(i), node.items[i])
    ensures node.Str? ==> |es| == |node.s|
                          && forall i :: 0 <= i < |es| ==> es[i] == (IndexKey(i), Str([node.s[i]]))
    ensures node.Num? || node.Bool? || node.Null? ==> es == []
  {
    match node
    case Obj(es) => es
    case Arr(items) => seq(|items|, i requires 0 <= i < |items| => (IndexKey(i), items[i]))
    case Str(s) => seq(|s|, i requires 0 <= i < |s| => (IndexKey(i), Str([s[i]])))
    case _ => []
  }

  // ---------------------------------------------------------------------
  // The specification of `traverse`.

  /** The streets `traverse(node)` returns. */
  function Streets(node: Json): seq<string>
    decreases node, |Entries(node)| + 2
  {
    StreetsFrom(node, 0)
  }

  /** The streets contributed by entries `i..` of `node`. */
  function StreetsFrom(node: Json, i: nat): seq<string>
    decreases node, |Entries(node)| - i + 1
  {
    if i >= |Entries(node)| then [] else EntryStreets(node, i) + StreetsFrom(node, i + 1)
  }

  /** The streets contributed by entry `i` of `node`: the whole walk of an
      object value, the key of a number value, nothing otherwise. */
  function EntryStreets(node: Json, i: nat): seq<string>
    requires i < |Entries(node)|
    decreases node, 1
  {
    var (key, value) := Entries(node)[i];
    if IsObject(value) then
      assert node.Obj? ==> value == node.entries[i].1;
      Streets(value)
    else if value.Num? then [key]
    else []
  }

  /** `traverse`: a loop over `Object.entries(node)` that pushes the key of
      each number and the streets of each nested object, in order. */
  method Traverse(node: Json) returns (streets: seq<string>)
    ensures streets == Streets(node)
    decreases node
  {
    streets := [];
    var es := Entries(node);
    for i := 0 to |es|
      invariant streets + StreetsFrom(node, i) == StreetsFrom(node, 0)
    {
      var key := es[i].0;
      var value := es[i].1;
      var found: seq<string> := [];
      EntryStreetsOf(node, i);
      if IsObject(value) {
        ObjectEntryIsChild(node, i);
        found := Traverse(value);
      } else if value.Num? {
        found := [key];
      }
      assert found == EntryStreets(node, i);
      StreetsFromStep(node, i);
      Reassociate(streets, found, StreetsFrom(node, i + 1));
      streets := streets + found;
    }
  }

  lemma Reassociate(a: seq<string>, b: seq<string>, c: seq<string>)
    ensures a + (b + c) == (a + b) + c
  {
  }

  /** What entry `i` contributes, by the kind of its value. */
  lemma EntryStreetsOf(node: Json, i: nat)
    requires i < |Entries(node)|
    ensures var value := Entries(node)[i].1;
            EntryStreets(node, i) == if IsObject(value) then Streets(value)
                                     else if value.Num? then [Entries(node)[i].0] else []
  {
  }

  /** An object or array among the entries is a child of the node itself:
      an own value of an object or an element of an array. */
  lemma ObjectEntryIsChild(node: Json, i: nat)
    requires i < |Entries(node)| && IsObject(Entries(node)[i].1)
    ensures (node.Obj? && Entries(node)[i].1 == node.entries[i].1)
            || (node.Arr? && Entries(node)[i].1 == node.items[i])
  {
  }

  /** Entry `i` contributes just in front of the entries after it. */
  lemma StreetsFromStep(node: Json, i: nat)
    requires i < |Entries(node)|
    ensures StreetsFrom(node, i) == EntryStreets(node, i) + StreetsFrom(node, i + 1)
  {
  }

  // ---------------------------------------------------------------------
  // The category guard and `extractStreetNames`.

  /** The names `Object.prototype` provides: reading one of them off a
      parsed JSON object that lacks it as an own property yields a function
      or an object, which is truthy and has no enumerable entries. */
  const ObjectPrototypeMembers: set<string> := {
    "constructor", "hasOwnProperty", "isPrototypeOf", "propertyIsEnumerable",
    "toLocaleString", "toString", "valueOf", "__proto__",
    "__defineGetter__", "__defineSetter__", "__lookupGetter__", "__lookupSetter__"
  }

  /** What `treeData[key]` reads: an own property, an inherited member, or
      `undefined`. */
  datatype Access = Own(value: Json) | Inherited | Undefined

  /** The value of the first own entry named `key`. */
  function OwnProperty(entries: seq<(string, Json)>, key: string): (v: Option<Json>)
    ensures v.Some? <==> exists i :: 0 <= i < |entries| && entries[i].0 == key
    ensures v.Some? ==> exists i :: 0 <= i < |entries| && entries[i] == (key, v.value)
                                    && forall j :: 0 <= j < i ==> entries[j].0 != key
  {
    if entries == [] then None
    else if entries[0].0 == key then Some(entries[0].1)
    else
      var v := OwnProperty(entries[1..], key);
      assert forall i :: 1 <= i < |entries| ==> entries[i] == entries[1..][i - 1];
      v
  }

  /** Conversely, the first own entry named `key` is the one found. */
  lemma {:induction false} OwnPropertyOfFirst(entries: seq<(string, Json)>, i: nat)
    requires i < |entries| && forall j :: 0 <= j < i ==> entries[j].0 != entries[i].0
    ensures OwnProperty(entries, entries[i].0) == Some(entries[i].1)
  {
    if i > 0 {
      OwnPropertyOfFirst(entries[1..], i - 1);
    }
  }

  function Get(treeData: Json, key: string): Access
    requires treeData.Obj?
  {
    match OwnProperty(treeData.entries, key)
    case Some(v) => Own(v)
    case None => if key in ObjectPrototypeMembers then Inherited else Undefined
  }

  /** JavaScript truthiness; `NaN` is not a value of this model. */
  predicate Truthy(v: Json)
  {
    match v
    case Obj(_) => true
    case Arr(_) => true
    case Num(n) => n != 0.0
    case Str(s) => s != ""
    case Bool(b) => b
    case Null => false
  }

  /** `!treeData[category]` is false. */
  predicate HasCategory(treeData: Json, category: string)
    requires treeData.Obj?
  {
    match Get(treeData, category)
    case Own(v) => Truthy(v)
    case Inherited => true
    case Undefined => false
  }

  /** What `extractStreetNames(treeData, category)` returns or throws. */
  function CategoryStreets(treeData: Json, category: string): Result<seq<string>, Error>
    requires treeData.Obj?
  {
    if !HasCategory(treeData, category) then Failure(CategoryNotFound(category))
    else match Get(treeData, category)
      case Own(v) => Success(Streets(v))
      case _ => Success([])
  }

  /** `extractStreetNames`. The tree is the decoded catalogue, which the
      fetcher only ever delivers as a non-array object. */
  method ExtractStreetNames(treeData: Json, category: string) returns (r: Result<seq<string>, Error>)
    requires treeData.Obj?
    ensures r == CategoryStreets(treeData, category)
    ensures r.Failure? <==> !HasCategory(treeData, category)
    ensures r.Failure? ==>
              r.error == CategoryNotFound(category)
              && Message(r.error) == "Category '" + category + "' not found in tree data"
    ensures Get(treeData, category).Own? && r.Success? ==>
              r.value == Streets(Get(treeData, category).value)
    ensures Get(treeData, category).Inherited? ==> r == Success([])
  {
    var access := Get(treeData, category);
    if !HasCategory(treeData, category) {
      return Failure(CategoryNotFound(category));
    }
    var streets: seq<string> := [];
    if access.Own? {
      streets := Traverse(access.value);
    }
    return Success(streets);
  }

  // ---------------------------------------------------------------------
  // Properties of the walk.

  lemma {:induction false} StreetsFromConcat(a: seq<(string, Json)>, b: seq<(string, Json)>, i: nat)
    requires i <= |a|
    ensures StreetsFrom(Obj(a + b), i) == StreetsFrom(Obj(a), i) + StreetsFrom(Obj(b), 0)
    decreases |a| - i
  {
    if i == |a| {
      StreetsFromShift(a, b, 0);
    } else {
      StreetsFromConcat(a, b, i + 1);
      assert (a + b)[i] == a[i];
      assert EntryStreets(Obj(a + b), i) == EntryStreets(Obj(a), i);
      StreetsFromStep(Obj(a + b), i);
      StreetsFromStep(Obj(a), i);
      Reassociate(EntryStreets(Obj(a), i), StreetsFrom(Obj(a), i + 1), StreetsFrom(Obj(b), 0));
    }
  }

  lemma {:induction false} StreetsFromShift(a: seq<(string, Json)>, b: seq<(string, Json)>, j: nat)
    requires j <= |b|
    ensures StreetsFrom(Obj(a + b), |a| + j) == StreetsFrom(Obj(b), j)
    decreases |b| - j
  {
    if j < |b| {
      StreetsFromShift(a, b, j + 1);
      assert (a + b)[|a| + j] == b[j];
      assert EntryStreets(Obj(a + b), |a| + j) == EntryStreets(Obj(b), j);
    }
  }

  /** Splicing: the walk of a concatenation of entries is the concatenation
      of the walks, so each entry's contribution lands at its own position. */
  lemma StreetsConcat(a: seq<(string, Json)>, b: seq<(string, Json)>)
    ensures Streets(Obj(a + b)) == Streets(Obj(a)) + Streets(Obj(b))
  {
    StreetsFromConcat(a, b, 0);
  }

  /** One entry contributes the walk of an object or array value, the key of
      a number (zero included), and nothing for a string, boolean or null. */
  lemma StreetsSingle(key: string, value: Json)
    ensures Streets(Obj([(key, value)])) ==
              if IsObject(value) then Streets(value)
              else if value.Num? then [key]
              else []
  {
    var node := Obj([(key, value)]);
    assert StreetsFrom(node, 1) == [];
    assert Streets(node) == EntryStreets(node, 0) + StreetsFrom(node, 1);
  }

  /** Entries whose values are strings, booleans or null can be removed
      without changing the result. */
  lemma SkippedEntry(a: seq<(string, Json)>, key: string, value: Json, b: seq<(string, Json)>)
    requires value.Str? || value.Bool? || value.Null?
    ensures Streets(Obj(a + [(key, value)] + b)) == Streets(Obj(a + b))
  {
    StreetsConcat(a + [(key, value)], b);
    StreetsConcat(a, [(key, value)]);
    StreetsSingle(key, value);
    StreetsConcat(a, b);
  }

  lemma {:induction false} StreetsFromSameEntries(x: Json, y: Json, i: nat)
    requires !x.Obj? && Entries(x) == Entries(y) && i <= |Entries(x)|
    ensures StreetsFrom(x, i) == StreetsFrom(y, i)
    decreases |Entries(x)| - i
  {
    if i < |Entries(x)| {
      StreetsFromSameEntries(x, y, i + 1);
      var value := Entries(x)[i].1;
      if IsObject(value) {
        // the element's own walk, reached from both sides
        assert EntryStreets(x, i) == Streets(value);
        assert y.Obj? ==> value == y.entries[i].1;
        assert EntryStreets(y, i) == Streets(value);
      }
    }
  }

  /** An array is walked exactly like the object with keys "0", "1", ... */
  lemma ArrayAsObject(items: seq<Json>)
    ensures Streets(Arr(items)) == Streets(Obj(Entries(Arr(items))))
  {
    StreetsFromSameEntries(Arr(items), Obj(Entries(Arr(items))), 0);
  }

  lemma {:induction false} StringHasNoStreetsFrom(s: string, i: nat)
    requires i <= |s|
    ensures StreetsFrom(Str(s), i) == []
    decreases |s| - i
  {
    if i < |s| {
      StringHasNoStreetsFrom(s, i + 1);
      assert Entries(Str(s))[i].1 == Str([s[i]]);
    }
  }

  /** A value that is not an object has no streets: a number, boolean or
      null has no entries and the entries of a string are one-character
      strings. */
  lemma PrimitiveHasNoStreets(v: Json)
    requires !IsObject(v)
    ensures Streets(v) == []
  {
    if v.Str? {
      StringHasNoStreetsFrom(v.s, 0);
    }
  }

  /** `path` leads through nested objects and arrays (by entry position) to
      a number-valued entry named `key`. */
  predicate NumericLeafAt(node: Json, path: seq<nat>, key: string)
    decreases |path|
  {
    && |path| > 0
    && path[0] < |Entries(node)|
    && var (k, v) := Entries(node)[path[0]];
       if |path| == 1 then v.Num? && k == key
       else IsObject(v) && NumericLeafAt(v, path[1..], key)
  }

  /** A key contributed by entry `j` is among the streets of entries `i..`
      for every `i <= j`. */
  lemma {:induction false} EntryInStreetsFrom(node: Json, i: nat, j: nat, key: string)
    requires i <= j < |Entries(node)| && key in EntryStreets(node, j)
    ensures key in StreetsFrom(node, i)
    decreases j - i
  {
    StreetsFromStep(node, i);
    if i < j {
      EntryInStreetsFrom(node, i + 1, j, key);
    }
  }

  /** Every key among the streets of entries `i..` is contributed by one of
      them. */
  lemma {:induction false} StreetsFromEntry(node: Json, i: nat, key: string) returns (j: nat)
    requires i <= |Entries(node)| && key in StreetsFrom(node, i)
    ensures i <= j < |Entries(node)| && key in EntryStreets(node, j)
    decreases |Entries(node)| - i
  {
    StreetsFromStep(node, i);
    if key in EntryStreets(node, i) {
      j := i;
    } else {
      j := StreetsFromEntry(node, i + 1, key);
    }
  }

  /** Every extracted key sits at the end of a path to a number. */
  lemma {:induction false} StreetHasLeaf(node: Json, key: string) returns (path: seq<nat>)
    requires key in Streets(node)
    ensures NumericLeafAt(node, path, key)
    decreases node
  {
    var j := StreetsFromEntry(node, 0, key);
    var v := Entries(node)[j].1;
    EntryStreetsOf(node, j);
    if IsObject(v) {
      ObjectEntryIsChild(node, j);
      var p := StreetHasLeaf(v, key);
      path := [j] + p;
      assert path[1..] == p;
    } else {
      path := [j];
    }
  }

  /** Every path to a number yields its key. */
  lemma {:induction false} LeafIsStreet(node: Json, path: seq<nat>, key: string)
    requires NumericLeafAt(node, path, key)
    ensures key in Streets(node)
    decreases node
  {
    var j := path[0];
    var v := Entries(node)[j].1;
    EntryStreetsOf(node, j);
    if |path| > 1 {
      ObjectEntryIsChild(node, j);
      LeafIsStreet(v, path[1..], key);
    }
    EntryInStreetsFrom(node, 0, j, key);
  }

  /** A key is extracted exactly when some path leads to a number-valued
      entry with that key. */
  lemma StreetsAreNumericLeaves(node: Json, key: string)
    ensures key in Streets(node) <==> exists path :: NumericLeafAt(node, path, key)
  {
    if key in Streets(node) {
      var p := StreetHasLeaf(node, key);
      assert exists path :: NumericLeafAt(node, path, key);
    } else {
      forall path | NumericLeafAt(node, path, key)
        ensures false
      {
        LeafIsStreet(node, path, key);
      }
    }
  }

  // ---------------------------------------------------------------------
  // Properties of the category guard.

  lemma {:induction false} OwnPropertyIgnores(a: seq<(string, Json)>, key: string, value: Json,
                                               b: seq<(string, Json)>, category: string)
    requires key != category
    ensures OwnProperty(a + [(key, value)] + b, category) == OwnProperty(a + b, category)
  {
    if a == [] {
      assert a + [(key, value)] + b == [(key, value)] + b;
      assert a + b == b;
      assert ([(key, value)] + b)[1..] == b;
    } else {
      OwnPropertyIgnores(a[1..], key, value, b, category);
      assert (a + [(key, value)] + b)[1..] == a[1..] + [(key, value)] + b;
      assert (a + b)[1..] == a[1..] + b;
    }
  }

  /** Top-level entries other than the category have no influence. */
  lemma OtherCategoriesIgnored(a: seq<(string, Json)>, key: string, value: Json,
                               b: seq<(string, Json)>, category: string)
    requires key != category
    ensures CategoryStreets(Obj(a + [(key, value)] + b), category) == CategoryStreets(Obj(a + b), category)
  {
    OwnPropertyIgnores(a, key, value, b, category);
  }

  // ---------------------------------------------------------------------
  // The catalogues of tests/unit/streetExtractor.test.js.

  /** `{ "<street>": n }`: the innermost level of the catalogue. */
  function Leaf(street: string, n: real): Json
  {
    Obj([(street, Num(n))])
  }

  lemma LeafStreets(street: string, n: real)
    ensures Streets(Leaf(street, n)) == [street]
  {
    StreetsSingle(street, Num(n));
  }

  /** The walk of `{ k1: v1, k2: v2 }`. */
  lemma PairStreets(k1: string, v1: Json, k2: string, v2: Json)
    ensures Streets(Obj([(k1, v1), (k2, v2)])) == Streets(Obj([(k1, v1)])) + Streets(Obj([(k2, v2)]))
  {
    assert [(k1, v1), (k2, v2)] == [(k1, v1)] + [(k2, v2)];
    StreetsConcat([(k1, v1)], [(k2, v2)]);
  }

  lemma TwoRoadsStreets()
    ensures Streets(Obj([("road", Obj([("adelaide", Leaf("adelaide road", 25.0)),
                                        ("beaumont", Leaf("beaumont road", 20.0))]))]))
            == ["adelaide road", "beaumont road"]
  {
    var road := Obj([("adelaide", Leaf("adelaide road", 25.0)), ("beaumont", Leaf("beaumont road", 20.0))]);
    PairStreets("adelaide", Leaf("adelaide road", 25.0), "beaumont", Leaf("beaumont road", 20.0));
    StreetsSingle("adelaide", Leaf("adelaide road", 25.0));
    StreetsSingle("beaumont", Leaf("beaumont road", 20.0));
    LeafStreets("adelaide road", 25.0);
    LeafStreets("beaumont road", 20.0);
    StreetsSingle("road", road);
  }

  /** Two streets under one road type come out in key order. */
  lemma TallFixture()
    ensures CategoryStreets(Obj([("tall", Obj([("road", Obj([("adelaide", Leaf("adelaide road", 25.0)),
                                                                ("beaumont", Leaf("beaumont road", 20.0))]))]))]), "tall")
            == Success(["adelaide road", "beaumont road"])
  {
    TwoRoadsStreets();
  }

  /** A height of 0 still marks a street. */
  lemma ZeroHeightFixture()
    ensures CategoryStreets(Obj([("short", Obj([("drive", Obj([("abbey", Leaf("abbey drive", 0.0))]))]))]), "short")
            == Success(["abbey drive"])
  {
    var abbey := Obj([("abbey", Leaf("abbey drive", 0.0))]);
    LeafStreets("abbey drive", 0.0);
    StreetsSingle("abbey", Leaf("abbey drive", 0.0));
    StreetsSingle("drive", abbey);
  }

  /** A sibling holding `skipped` (null, or a string) contributes nothing. */
  lemma SkippedSiblingStreets(skipped: Json)
    requires skipped.Null? || skipped.Str?
    ensures Streets(Obj([("road", Obj([("adelaide", Leaf("adelaide road", 25.0)), ("invalid", skipped)]))]))
            == ["adelaide road"]
  {
    var road := Obj([("adelaide", Leaf("adelaide road", 25.0)), ("invalid", skipped)]);
    PairStreets("adelaide", Leaf("adelaide road", 25.0), "invalid", skipped);
    StreetsSingle("adelaide", Leaf("adelaide road", 25.0));
    StreetsSingle("invalid", skipped);
    LeafStreets("adelaide road", 25.0);
    StreetsSingle("road", road);
  }

  lemma NullSiblingFixture()
    ensures CategoryStreets(Obj([("tall", Obj([("road", Obj([("adelaide", Leaf("adelaide road", 25.0)),
                                                                ("invalid", Null)]))]))]), "tall")
            == Success(["adelaide road"])
  {
    SkippedSiblingStreets(Null);
  }

  lemma StringSiblingFixture()
    ensures CategoryStreets(Obj([("tall", Obj([("road", Obj([("adelaide", Leaf("adelaide road", 25.0)),
                                                                ("invalid", Str("not a number"))]))]))]), "tall")
            == Success(["adelaide road"])
  {
    SkippedSiblingStreets(Str("not a number"));
  }

  /** A category the catalogue does not have is an error. */
  lemma MissingCategoryFixture()
    ensures CategoryStreets(Obj([("tall", Obj([]))]), "invalid") == Failure(CategoryNotFound("invalid"))
  {
    assert "invalid" !in ObjectPrototypeMembers;
  }

  /** A category named like a member of `Object.prototype` reads an
      inherited function: truthy, with no entries, so no streets. */
  lemma InheritedCategoryFixture()
    ensures CategoryStreets(Obj([("tall", Obj([]))]), "toString") == Success([])
  {
    assert "toString" in ObjectPrototypeMembers;
  }
}

