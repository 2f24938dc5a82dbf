/** The mapping between JSON type descriptions and C declarations in the C
    driver (yggdrasil/drivers/CModelDriver.py): `type_map`, the precision
    and pointer rewriting of `get_native_type`, and the parse of a C type
    name in `get_json_type`. */
module CTypes {
  import opened Base
  import opened Strings

  /** A JSON type description: the keys the C driver reads (`type`,
      `subtype`, `precision`, `units`, `length`, `shape`) and, for arrays
      and objects, the item and property types (a property list keeps the
      dict's insertion order). The two lists have their own present/absent
      wrappers, rather than `Option`, so that a member is structurally
      smaller than the description holding it. */
  datatype Schema = Schema(
    kind: string,
    subtype: Option<string>,
    precision: Option<int>,
    units: Option<string>,
    length: Option<int>,
    shape: Option<seq<int>>,
    items: Items,
    properties: Properties)

  /** The `items` key: absent, or the list of item types. */
  datatype Items = NoItems | ItemList(list: seq<Schema>)

  /** The `properties` key: absent, or the (key, type) pairs in order. */
  datatype Properties = NoProperties | PropertyList(list: seq<Property>)

  datatype Property = Property(key: string, value: Schema)

  /** A description with only the `type` key. */
  function Plain(kind: string): Schema {
    Schema(kind, None, None, None, None, None, NoItems, NoProperties)
  }

  /** `CModelDriver.type_map`. */
  const CTypeMap: map<string, string> := map[
    "int" := "intX_t",
    "float" := "float",
    "string" := "char*",
    "array" := "vector_t",
    "object" := "map_t",
    "boolean" := "bool",
    "null" := "NULL",
    "uint" := "uintX_t",
    "complex" := "complex_X",
    "bytes" := "char*",
    "unicode" := "char*",
    "1darray" := "*",
    "ndarray" := "*",
    "ply" := "ply_t",
    "obj" := "obj_t",
    "schema" := "map_t",
    "flag" := "int"]

  /** The base driver's answer: the `type_map` entry of the type. The base
      class is not part of this model; a type outside the map fails with
      the map's `KeyError`. */
  function ParentNativeType(kind: string): (r: Result<string>)
    ensures r.Success? <==> kind in CTypeMap
    ensures r.Success? ==> r.value == CTypeMap[kind]
  {
    if kind in CTypeMap then Success(CTypeMap[kind]) else Failure(KeyError(kind))
  }

  /** The native types the C driver rewrites instead of returning. */
  predicate NeedsRewrite(native: string) {
    native == "*" || 'X' in native || native == "float"
  }

  /** The keyword a description reaches `get_native_type` under: the
      top-level call passes `datatype=`, the recursive call for an array's
      element passes `type=`. */
  datatype NativeArgs = NativeArgs(viaDatatype: Option<Schema>, viaType: Option<Schema>)

  /** The description the base driver reads from either keyword, `bytes`
      when neither is given. */
  function GivenSchema(args: NativeArgs): Schema {
    if args.viaDatatype.Some? then args.viaDatatype.value
    else if args.viaType.Some? then args.viaType.value
    else Plain("bytes")
  }

  /** The element description of an array: a copy with `subtype` moved to
      `type`. */
  function ElementOf(dt: Schema): Schema
    requires dt.subtype.Some?
  {
    dt.(kind := dt.subtype.value, subtype := None)
  }

  /** `CModelDriver.get_native_type` as written: the rewrite reads only the
      `datatype=` keyword, so the element call, which passes `type=`, fails
      the dictionary assertion whenever the element needs a rewrite. */
  function NativeTypeAsWritten(args: NativeArgs): (r: Result<string>)
    decreases if args.viaDatatype.Some? then 1 else 0
  {
    var out :- ParentNativeType(GivenSchema(args).kind);
    if !NeedsRewrite(out) then Success(out)
    else if args.viaDatatype.None? then Failure(AssertionError(""))
    else
      var json := args.viaDatatype.value;
      if out == "*" then
        if json.subtype.None? then Failure(KeyError("subtype"))
        else
          var element :- NativeTypeAsWritten(NativeArgs(None, Some(ElementOf(json))));
          Success(element + "*")
      else if 'X' in out then
        if json.precision.None? then Failure(KeyError("precision"))
        else Success(Replace(out, "X", IntToString(json.precision.value)))
      else if json.precision.None? then Failure(KeyError("precision"))
      else if json.precision.value == 64 then Success("double")
      else Success(out)
  }

  /** `get_native_type` with the rewrite reading the description under
      either keyword: a placeholder `X` becomes the precision, `float` at
      precision 64 becomes `double`, and an array becomes its element's
      type followed by `*`. */
  function NativeType(dt: Schema): (r: Result<string>)
    ensures dt.kind !in CTypeMap ==> r == Failure(KeyError(dt.kind))
    ensures dt.kind in CTypeMap && !NeedsRewrite(CTypeMap[dt.kind]) ==> r == Success(CTypeMap[dt.kind])
    ensures dt.kind in CTypeMap && CTypeMap[dt.kind] == "*" && dt.subtype.Some? ==>
      r == (if NativeType(ElementOf(dt)).Success? then Success(NativeType(ElementOf(dt)).value + "*")
            else NativeType(ElementOf(dt)))
    ensures dt.kind in CTypeMap && CTypeMap[dt.kind] == "*" && dt.subtype.None? ==> r == Failure(KeyError("subtype"))
    ensures dt.kind in CTypeMap && NeedsRewrite(CTypeMap[dt.kind]) && CTypeMap[dt.kind] != "*" && dt.precision.None? ==>
      r == Failure(KeyError("precision"))
    ensures r.Success? ==> 'X' !in r.value
    decreases if dt.subtype.Some? then 1 else 0
  {
    var out :- ParentNativeType(dt.kind);
    if !NeedsRewrite(out) then Success(out)
    else if out == "*" then
      if dt.subtype.None? then Failure(KeyError("subtype"))
      else
        var element :- NativeType(ElementOf(dt));
        Success(element + "*")
    else if 'X' in out then
      if dt.precision.None? then Failure(KeyError("precision"))
      else
        var r := Replace(out, "X", IntToString(dt.precision.value));
        NoPlaceholderLeft(out, IntToString(dt.precision.value));
        Success(r)
    else if dt.precision.None? then Failure(KeyError("precision"))
    else if dt.precision.value == 64 then Success("double")
    else Success(out)
  }

  /** Replacing every `X` by text without an `X` leaves none. */
  lemma {:induction false} NoPlaceholderLeft(s: string, text: string)
    requires 'X' !in text
    ensures 'X' !in Replace(s, "X", text)
    decreases |s|
  {
    if |s| > 0 {
      NoPlaceholderLeft(s[1..], text);
    }
  }

  /** When the element needs no rewrite, the two versions agree. */
  lemma AsWrittenAgreesOnPlainElements(dt: Schema)
    requires dt.kind in CTypeMap
    requires CTypeMap[dt.kind] != "*" || dt.subtype.None? || dt.subtype.value !in CTypeMap
      || !NeedsRewrite(CTypeMap[dt.subtype.value])
    ensures NativeTypeAsWritten(NativeArgs(Some(dt), None)) == NativeType(dt)
  {
  }

  // ---------------------------------------------------------------------
  // get_json_type: parsing a C type name
  // ---------------------------------------------------------------------

  predicate IsStar(c: char) {
    c == '*'
  }

  /** Length of the longest suffix of `s` whose characters all satisfy
      `inRun`. */
  function TrailingRun(s: string, inRun: char -> bool): (n: nat)
    ensures n <= |s|
    ensures forall i :: |s| - n <= i < |s| ==> inRun(s[i])
    ensures n < |s| ==> !inRun(s[|s| - n - 1])
    decreases |s|
  {
    if |s| == 0 || !inRun(s[|s| - 1]) then 0
    else 1 + TrailingRun(s[..|s| - 1], inRun)
  }

  /** The run after a character outside it is exactly the appended part. */
  lemma {:induction false} TrailingRunOf(a: string, d: string, inRun: char -> bool)
    requires |a| > 0 && !inRun(a[|a| - 1])
    requires forall i :: 0 <= i < |d| ==> inRun(d[i])
    ensures TrailingRun(a + d, inRun) == |d|
    decreases |d|
  {
    if |d| > 0 {
      assert (a + d)[..|a + d| - 1] == a + d[..|d| - 1];
      TrailingRunOf(a, d[..|d| - 1], inRun);
    } else {
      assert a + d == a;
    }
  }

  /** The groups of `(?P<type>.+?(?P<precision>\d*)(?:_t)?)\s*(?P<pointer>\**)`
      after a full match: the type name, its trailing precision digits and
      the number of pointer stars. */
  datatype NativeParts = NativeParts(typeName: string, precision: string, stars: nat)

  /** Where the type group ends: before the trailing run of spaces and
      stars, but at least one character in. */
  function TypeEnd(n: string): (e: nat)
    requires |n| > 0
    ensures 1 <= e <= |n|
  {
    var s := TrailingRun(n, IsStar);
    var w := TrailingRun(n[..|n| - s], IsSpace);
    var e0 := |n| - s - w;
    if e0 >= 1 then e0 else 1
  }

  /** The precision group: the digits the lazy type prefix leaves before
      an optional `_t`, with at least one character kept in front. */
  function PrecisionOf(t: string): (p: string)
    requires |t| > 0
    ensures AllDigits(p)
    ensures |p| < |t|
  {
    DigitTail(CoreOf(t))
  }

  /** The type group without a trailing `_t` that the lazy prefix can
      leave outside the digits. */
  function CoreOf(t: string): (c: string)
    requires |t| > 0
    ensures 0 < |c| <= |t|
  {
    if |t| >= 3 && t[|t| - 2..] == "_t" then t[..|t| - 2] else t
  }

  /** The trailing digits of `core`, leaving its first character out. */
  function DigitTail(core: string): (p: string)
    requires |core| > 0
    ensures AllDigits(p)
    ensures |p| < |core|
  {
    var d := TrailingRun(core, IsDigit);
    var start := if |core| - d >= 1 then |core| - d else 1;
    core[start..]
  }

  /** `re.fullmatch(regex_var, native_type).groupdict()`: there is no
      match (and `groupdict` fails on `None`) for the empty string or when
      the type group would have to hold a newline, which `.` does not
      match. */
  function ParseNative(n: string): (r: Result<NativeParts>)
    ensures r.Success? ==> |r.value.typeName| > 0 && AllDigits(r.value.precision)
  {
    if |n| == 0 then Failure(AttributeError("groupdict"))
    else
      var e := TypeEnd(n);
      var t := n[..e];
      if '\n' in t then Failure(AttributeError("groupdict"))
      else
        var s := TrailingRun(n, IsStar);
        Success(NativeParts(t, PrecisionOf(t), if s <= |n| - e then s else |n| - e))
  }

  /** `k` pointer stars. */
  function Stars(k: nat): (r: string)
    ensures |r| == k && forall i :: 0 <= i < k ==> r[i] == '*'
  {
    seq(k, i => '*')
  }

  /** Appending stars to a name that ends in neither a space nor a star
      only changes the pointer group. */
  lemma ParseWithStars(base: string, k: nat)
    requires |base| > 0 && !IsStar(base[|base| - 1]) && !IsSpace(base[|base| - 1]) && '\n' !in base
    ensures ParseNative(base + Stars(k)) == Success(NativeParts(base, PrecisionOf(base), k))
  {
    var n := base + Stars(k);
    TrailingRunOf(base, Stars(k), IsStar);
    assert n[..|n| - k] == base;
    TrailingRunOf(base, "", IsSpace) by { assert base + "" == base; }
    assert base + "" == base;
    assert n[..|base|] == base;
  }

  /** The type name the regex leaves once the precision is replaced by
      `X`. */
  function BaseName(g: NativeParts): string {
    if g.precision != "" then Replace(g.typeName, g.precision, "X") else g.typeName
  }

  /** The scalar description of a parsed name and the name the pointer
      count is compared against (`double` is renamed `float`, `int` and
      `uint` gain the `X_t` placeholder suffix). */
  function ScalarOf(g: NativeParts, parentJson: string -> string, intcBytes: nat): (r: (string, Schema))
    requires AllDigits(g.precision)
    ensures r.1 == Plain(r.1.kind).(precision := r.1.precision)
    ensures r.0 == "char" <==> BaseName(g) == "char"
    ensures BaseName(g) == "char" ==> r.1.kind == "bytes"
  {
    var precision0: Option<int> := if g.precision != "" then Some(DigitsValue(g.precision)) else None;
    var t0 := BaseName(g);
    if t0 == "char" then (t0, Plain("bytes").(precision := precision0))
    else if t0 == "double" then ("float", Plain(parentJson("float")).(precision := Some(64)))
    else if t0 == "float" then (t0, Plain(parentJson(t0)).(precision := Some(32)))
    else if t0 == "int" || t0 == "uint" then
      (t0 + "X_t", Plain(parentJson(t0 + "X_t")).(precision := Some(8 * intcBytes)))
    else (t0, Plain(parentJson(t0)).(precision := precision0))
  }

  /** The pointer levels that count: a `char` name absorbs one star into
      `bytes`. */
  function PointerDepth(g: NativeParts, parentJson: string -> string, intcBytes: nat): int
    requires AllDigits(g.precision)
  {
    if ScalarOf(g, parentJson, intcBytes).0 == "char" then g.stars - 1 else g.stars
  }

  /** A scalar description wrapped by `depth` pointer levels: one level is
      a `1darray`, more an `ndarray`, with the scalar type as `subtype`. */
  function Wrap(scalar: Schema, depth: int): (r: Schema)
    ensures depth <= 0 ==> r == scalar
    ensures depth > 0 ==> r.subtype == Some(scalar.kind) && r.precision == scalar.precision
  {
    if depth > 0 then scalar.(kind := if depth == 1 then "1darray" else "ndarray", subtype := Some(scalar.kind))
    else scalar
  }

  /** `CModelDriver.get_json_type(native_type)`. `parentJson` is the base
      driver's lookup from a native name back to a JSON type, and
      `intcBytes` the size of a C `int`; both are inputs here. */
  function JsonType(n: string, parentJson: string -> string, intcBytes: nat): (r: Result<Schema>)
    ensures r.Failure? <==> ParseNative(n).Failure?
    ensures r.Success? ==> r.value.units.None? && r.value.items.NoItems? && r.value.properties.NoProperties?
    ensures r.Success? ==>
      || (r.value.kind == "1darray" && r.value.subtype.Some?)
      || (r.value.kind == "ndarray" && r.value.subtype.Some?)
      || r.value.subtype.None?
  {
    var g :- ParseNative(n);
    var (_, scalar) := ScalarOf(g, parentJson, intcBytes);
    Success(Wrap(scalar, PointerDepth(g, parentJson, intcBytes)))
  }

  /** Adding `k` stars to a name wraps its description `k` levels deep
      (one fewer for `char`): the pointer depth decides between a scalar,
      a `1darray` and an `ndarray`, and the scalar moves to `subtype`. */
  lemma StarsWrap(base: string, k: nat, parentJson: string -> string, intcBytes: nat)
    requires |base| > 0 && !IsStar(base[|base| - 1]) && !IsSpace(base[|base| - 1]) && '\n' !in base
    ensures ParseNative(base).Success?
    ensures var depth := if BaseName(ParseNative(base).value) == "char" then k - 1 else k;
      JsonType(base + Stars(k), parentJson, intcBytes)
      == Success(Wrap(ScalarOf(ParseNative(base).value, parentJson, intcBytes).1, depth))
    ensures JsonType(base, parentJson, intcBytes) == Success(ScalarOf(ParseNative(base).value, parentJson, intcBytes).1)
  {
    ParseWithStars(base, k);
    ParseWithStars(base, 0);
    assert base + Stars(0) == base;
    var g := ParseNative(base).value;
    JsonTypeOfParts(base + Stars(k), g.(stars := k), parentJson, intcBytes);
    JsonTypeOfParts(base, g, parentJson, intcBytes);
    ScalarIgnoresStars(g, k, parentJson, intcBytes);
  }

  /** `get_json_type` in terms of the parsed groups. */
  lemma JsonTypeOfParts(n: string, g: NativeParts, parentJson: string -> string, intcBytes: nat)
    requires ParseNative(n) == Success(g)
    ensures JsonType(n, parentJson, intcBytes)
         == Success(Wrap(ScalarOf(g, parentJson, intcBytes).1, PointerDepth(g, parentJson, intcBytes)))
  {
  }

  lemma ScalarIgnoresStars(g: NativeParts, k: nat, parentJson: string -> string, intcBytes: nat)
    requires AllDigits(g.precision)
    ensures ScalarOf(g.(stars := k), parentJson, intcBytes) == ScalarOf(g, parentJson, intcBytes)
    ensures PointerDepth(g.(stars := k), parentJson, intcBytes)
         == if BaseName(g) == "char" then k - 1 else k
  {
    assert BaseName(g.(stars := k)) == BaseName(g);
  }

  // ---------------------------------------------------------------------
  // Round trips
  // ---------------------------------------------------------------------

  /** The base lookup inverts `type_map` on the names this mapping
      produces. */
  predicate InvertsTypeMap(parentJson: string -> string) {
    && parentJson("intX_t") == "int"
    && parentJson("uintX_t") == "uint"
    && parentJson("complex_X") == "complex"
    && parentJson("float") == "float"
  }

  predicate NoDigits(s: string) {
    forall i :: 0 <= i < |s| ==> !IsDigit(s[i])
  }

  /** A type with a placeholder, `a` + `X` + `b`, spelled with the
      precision in place of `X`. */
  lemma PlaceholderSpelling(a: string, b: string, d: string)
    requires 'X' !in a && 'X' !in b
    ensures Replace(a + "X" + b, "X", d) == a + d + b
  {
    assert a + "X" + b == a + ("X" + b);
    ReplaceSkip(a, "X" + b, "X", d);
    ReplaceFront("X", b, d);
    ReplaceAbsent(b, "X", d);
  }

  /** Parsing the spelled type gives back the placeholder name and the
      precision. */
  lemma PlaceholderParse(a: string, b: string, p: nat)
    requires |a| > 0 && NoDigits(a) && 'X' !in a && '\n' !in a
    requires b == "" || b == "_t"
    requires !IsSpace(a[|a| - 1]) && !IsStar(a[|a| - 1])
    ensures var g := ParseNative(a + NatToString(p) + b);
      g.Success? && g.value.precision == NatToString(p) && g.value.stars == 0
      && BaseName(g.value) == a + "X" + b
  {
    var d := NatToString(p);
    var n := a + d + b;
    SpelledEnd(a, d, b);
    assert n == n + Stars(0);
    ParseWithStars(n, 0);
    SpelledCore(a, d, b);
    DigitTailOf(a, d);
    ReplaceBack(a, d, b);
  }

  lemma SpelledEnd(a: string, d: string, b: string)
    requires |d| > 0 && AllDigits(d)
    requires b == "" || b == "_t"
    requires '\n' !in a
    ensures var n := a + d + b;
      |n| > 0 && !IsStar(n[|n| - 1]) && !IsSpace(n[|n| - 1]) && '\n' !in n
  {
    var n := a + d + b;
    assert n[|n| - 1] == (if b == "" then d[|d| - 1] else 't');
    assert forall i :: 0 <= i < |n| ==> n[i] == '\n' ==> i < |a|;
  }

  lemma SpelledCore(a: string, d: string, b: string)
    requires |d| > 0 && AllDigits(d)
    requires b == "" || b == "_t"
    ensures CoreOf(a + d + b) == a + d
  {
    var n := a + d + b;
    if b == "_t" {
      assert n[|n| - 2..] == "_t";
      assert n[..|n| - 2] == a + d;
    } else {
      assert n == a + d;
      assert n[|n| - 1] == d[|d| - 1];
    }
  }

  lemma DigitTailOf(a: string, d: string)
    requires |a| > 0 && NoDigits(a)
    requires AllDigits(d)
    ensures DigitTail(a + d) == d
  {
    TrailingRunOf(a, d, IsDigit);
    assert (a + d)[|a|..] == d;
  }

  lemma ReplaceBack(a: string, d: string, b: string)
    requires NoDigits(a) && |d| > 0 && AllDigits(d)
    requires b == "" || b == "_t"
    ensures Replace(a + d + b, d, "X") == a + "X" + b
  {
    assert a + d + b == a + (d + b);
    ReplaceSkip(a, d + b, d, "X");
    ReplaceFront(d, b, "X");
    assert d[0] !in b;
    ReplaceAbsent(b, d, "X");
  }

  /** A name `get_json_type` does not rename keeps its precision and is
      looked up as it is. */
  lemma ScalarOfPlainName(g: NativeParts, parentJson: string -> string, intcBytes: nat)
    requires AllDigits(g.precision)
    requires BaseName(g) != "char" && BaseName(g) != "double" && BaseName(g) != "float"
    requires BaseName(g) != "int" && BaseName(g) != "uint"
    ensures ScalarOf(g, parentJson, intcBytes)
         == (BaseName(g), Plain(parentJson(BaseName(g))).(precision := if g.precision != "" then Some(DigitsValue(g.precision)) else None))
  {
  }

  /** `int`, `uint` and `complex` descriptions map to a C name and back:
      the JSON type of the native type is the description again. */
  lemma PlaceholderRoundTrip(kind: string, p: nat, parentJson: string -> string, intcBytes: nat)
    requires kind == "int" || kind == "uint" || kind == "complex"
    requires InvertsTypeMap(parentJson)
    ensures var dt := Plain(kind).(precision := Some(p));
      NativeType(dt).Success? && JsonType(NativeType(dt).value, parentJson, intcBytes) == Success(dt)
    ensures NativeType(Plain(kind).(precision := Some(p)))
         == Success(Spelling(kind).0 + NatToString(p) + Spelling(kind).1)
  {
    var (a, b) := Spelling(kind);
    PlaceholderTable(kind, a, b);
    InvertsPlaceholders(kind, parentJson);
    var dt := Plain(kind).(precision := Some(p));
    var d := NatToString(p);
    var n := a + d + b;
    NativeTypeOfPlaceholder(dt);
    PlaceholderSpelling(a, b, d);
    assert NativeType(dt) == Success(n);
    PlaceholderParse(a, b, p);
    DigitsOfNat(p);
    var g := ParseNative(n).value;
    NotRenamed(a + "X" + b);
    ScalarOfPlainName(g, parentJson, intcBytes);
    JsonTypeOfParts(n, g, parentJson, intcBytes);
    assert PointerDepth(g, parentJson, intcBytes) == 0;
    assert ScalarOf(g, parentJson, intcBytes).1 == dt;
  }

  lemma NativeTypeOfPlaceholder(dt: Schema)
    requires dt.kind in CTypeMap && 'X' in CTypeMap[dt.kind] && CTypeMap[dt.kind] != "*"
    requires dt.precision.Some? && dt.precision.value >= 0
    ensures NativeType(dt) == Success(Replace(CTypeMap[dt.kind], "X", NatToString(dt.precision.value)))
  {
  }

  lemma InvertsPlaceholders(kind: string, parentJson: string -> string)
    requires kind == "int" || kind == "uint" || kind == "complex"
    requires InvertsTypeMap(parentJson)
    ensures parentJson(CTypeMap[kind]) == kind
  {
  }

  /** How a placeholder type is spelled around its `X`. */
  function Spelling(kind: string): (string, string) {
    if kind == "int" then ("int", "_t") else if kind == "uint" then ("uint", "_t") else ("complex_", "")
  }

  /** The `type_map` entries with a placeholder. */
  lemma PlaceholderTable(kind: string, a: string, b: string)
    requires kind == "int" || kind == "uint" || kind == "complex"
    requires (a, b) == Spelling(kind)
    ensures kind in CTypeMap && CTypeMap[kind] == a + "X" + b
    ensures NeedsRewrite(CTypeMap[kind]) && CTypeMap[kind] != "*"
    ensures |a| > 0 && NoDigits(a) && 'X' !in a && '\n' !in a && 'X' !in b
    ensures !IsSpace(a[|a| - 1]) && !IsStar(a[|a| - 1])
    ensures b == "" || b == "_t"
  {
    if kind == "int" {
      IntEntry();
    } else if kind == "uint" {
      UintEntry();
    } else {
      ComplexEntry();
    }
  }

  lemma IntEntry()
    ensures "int" in CTypeMap && CTypeMap["int"] == "int" + "X" + "_t"
  {
  }

  lemma UintEntry()
    ensures "uint" in CTypeMap && CTypeMap["uint"] == "uint" + "X" + "_t"
  {
  }

  lemma ComplexEntry()
    ensures "complex" in CTypeMap && CTypeMap["complex"] == "complex_" + "X" + ""
  {
  }

  /** A name holding `X` is none of the names `get_json_type` renames. */
  lemma NotRenamed(t: string)
    requires 'X' in t
    ensures t != "char" && t != "double" && t != "float" && t != "int" && t != "uint"
  {
  }

  /** `float` survives the round trip at precisions 32 (`float`) and 64
      (`double`); any other precision comes back as 32. */
  lemma FloatRoundTrip(p: int, parentJson: string -> string, intcBytes: nat)
    requires InvertsTypeMap(parentJson)
    ensures var dt := Plain("float").(precision := Some(p));
      && NativeType(dt) == Success(if p == 64 then "double" else "float")
      && JsonType(NativeType(dt).value, parentJson, intcBytes)
         == Success(Plain("float").(precision := Some(if p == 64 then 64 else 32)))
  {
    var dt := Plain("float").(precision := Some(p));
    FloatEntry();
    var n := if p == 64 then "double" else "float";
    assert NativeType(dt) == Success(n);
    StarsWrap(n, 0, parentJson, intcBytes);
    assert n + Stars(0) == n;
    NoPrecisionIn(n);
  }

  lemma FloatEntry()
    ensures "float" in CTypeMap && CTypeMap["float"] == "float" && NeedsRewrite("float") && "float" != "*"
    ensures 'X' !in "float"
  {
  }

  /** `double` and `float` parse as themselves, with no precision digits
      and no stars. */
  lemma NoPrecisionIn(n: string)
    requires n == "double" || n == "float"
    ensures ParseNative(n).Success? && ParseNative(n).value.precision == ""
    ensures BaseName(ParseNative(n).value) == n
  {
    assert n == n + Stars(0);
    ParseWithStars(n, 0);
    assert TrailingRun(n, IsDigit) == 0;
    assert CoreOf(n) == n;
  }

  /** A one-dimensional array of `int`, `uint` or `complex` maps to the
      element's C name with one star and back. */
  lemma ArrayRoundTrip(kind: string, p: nat, parentJson: string -> string, intcBytes: nat)
    requires kind == "int" || kind == "uint" || kind == "complex"
    requires InvertsTypeMap(parentJson)
    ensures var dt := Plain("1darray").(subtype := Some(kind), precision := Some(p));
      NativeType(dt).Success? && JsonType(NativeType(dt).value, parentJson, intcBytes) == Success(dt)
  {
    var dt := Plain("1darray").(subtype := Some(kind), precision := Some(p));
    var element := Plain(kind).(precision := Some(p));
    assert ElementOf(dt) == element;
    PlaceholderRoundTrip(kind, p, parentJson, intcBytes);
    var n := Spelling(kind).0 + NatToString(p) + Spelling(kind).1;
    ArrayOfElement(dt);
    SpelledName(kind, p);
    OneStarMore(n, parentJson, intcBytes);
    assert Wrap(element, 1) == dt;
  }

  /** The spelled placeholder name ends in neither a space nor a star and
      is not `char`. */
  lemma SpelledName(kind: string, p: nat)
    requires kind == "int" || kind == "uint" || kind == "complex"
    ensures var n := Spelling(kind).0 + NatToString(p) + Spelling(kind).1;
      && |n| > 0 && !IsStar(n[|n| - 1]) && !IsSpace(n[|n| - 1]) && '\n' !in n
      && ParseNative(n).Success? && BaseName(ParseNative(n).value) != "char"
  {
    var (a, b) := Spelling(kind);
    PlaceholderTable(kind, a, b);
    SpelledEnd(a, NatToString(p), b);
    PlaceholderParse(a, b, p);
    NotCharName(a + "X" + b);
  }

  /** An array's native type is its element's with one more star. */
  lemma ArrayOfElement(dt: Schema)
    requires dt.kind == "1darray" && dt.subtype.Some?
    requires NativeType(ElementOf(dt)).Success?
    ensures NativeType(dt) == Success(NativeType(ElementOf(dt)).value + "*")
  {
    ArrayEntry();
  }

  /** One more star on a name that is not `char` makes a `1darray` of its
      description. */
  lemma OneStarMore(n: string, parentJson: string -> string, intcBytes: nat)
    requires |n| > 0 && !IsStar(n[|n| - 1]) && !IsSpace(n[|n| - 1]) && '\n' !in n
    requires ParseNative(n).Success? && BaseName(ParseNative(n).value) != "char"
    ensures JsonType(n, parentJson, intcBytes).Success?
    ensures JsonType(n + "*", parentJson, intcBytes) == Success(Wrap(JsonType(n, parentJson, intcBytes).value, 1))
  {
    assert n + "*" == n + Stars(1);
    StarsWrap(n, 1, parentJson, intcBytes);
  }

  lemma ArrayEntry()
    ensures "1darray" in CTypeMap && CTypeMap["1darray"] == "*"
  {
  }

  lemma NotCharName(t: string)
    requires 'X' in t
    ensures t != "char"
  {
  }

  /** A `char` name absorbs its first star: `char` and `char*` are both
      `bytes`, and each further star adds an array level. */
  lemma CharPointers(k: nat, parentJson: string -> string, intcBytes: nat)
    ensures JsonType("char" + Stars(k), parentJson, intcBytes)
         == Success(Wrap(Plain("bytes"), k - 1))
  {
    CharParts();
    StarsWrap("char", k, parentJson, intcBytes);
  }

  lemma CharParts()
    ensures ParseNative("char").Success? && ParseNative("char").value.precision == ""
    ensures BaseName(ParseNative("char").value) == "char"
  {
    assert "char" == "char" + Stars(0);
    ParseWithStars("char", 0);
    assert TrailingRun("char", IsDigit) == 0;
    assert CoreOf("char") == "char";
  }

  /** The element call of an array reaches `get_native_type` under
      `type=`, which the rewrite does not read: a `float64` array fails
      the dictionary assertion, where the evident intent is `double*`. */
  lemma ElementRewriteFails()
    ensures var dt := Plain("1darray").(subtype := Some("float"), precision := Some(64));
      && NativeTypeAsWritten(NativeArgs(Some(dt), None)) == Failure(AssertionError(""))
      && NativeType(dt) == Success("double*")
  {
    var dt := Plain("1darray").(subtype := Some("float"), precision := Some(64));
    ArrayEntry();
    FloatEntry();
    assert ElementOf(dt) == Plain("float").(precision := Some(64));
    assert GivenSchema(NativeArgs(None, Some(ElementOf(dt)))).kind == "float";
    assert NativeTypeAsWritten(NativeArgs(None, Some(ElementOf(dt)))) == Failure(AssertionError(""));
    assert NativeType(ElementOf(dt)) == Success("double");
    assert "double" + "*" == "double*";
  }
}
