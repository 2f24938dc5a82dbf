/** The C driver's call variables and type definitions
    (yggdrasil/drivers/CModelDriver.py): the `_length` companions of
    `prepare_variables`, the address-of outputs of
    `prepare_output_variables`, and the lines `write_native_type_definition`
    emits for a JSON type together with the pointers it asks the caller to
    free. */
module CTypeDefs {
  import opened Base
  import opened Strings
  import opened CTypes

  // ---------------------------------------------------------------------
  // prepare_variables and prepare_output_variables
  // ---------------------------------------------------------------------

  /** A variable description: its name and, when given, its JSON type. */
  datatype Var = Var(name: string, jsonType: Option<Schema>)

  /** An entry of a variable list: a bare string, a description, or
      something else, which the source rejects. */
  datatype Entry = Named(text: string) | Described(v: Var) | Other

  /** The argument of `prepare_variables`: a list, or one entry that is
      wrapped into a list. */
  datatype VarsArg = OneEntry(entry: Entry) | EntryList(entries: seq<Entry>)

  function EntriesOf(arg: VarsArg): seq<Entry> {
    match arg
    case OneEntry(e) => [e]
    case EntryList(es) => es
  }

  /** The native type of a description, as `get_native_type(**x)` finds
      it. */
  function VarNative(v: Var): Result<string> {
    NativeTypeAsWritten(NativeArgs(v.jsonType, None))
  }

  /** The companion the source adds after a `char*` variable. */
  function LengthCompanion(v: Var): Entry {
    Described(Var(v.name + "_length", None))
  }

  /** The lemmas below hold for any way of finding a description's native
      type; `prepare_variables` uses `VarNative`. */
  type NativeOf = Var -> Result<string>

  predicate IsCharPtr(e: Entry, nativeOf: NativeOf) {
    e.Described? && nativeOf(e.v) == Success("char*")
  }

  /** How many entries of `es` are `char*` descriptions. */
  function CharPtrCount(es: seq<Entry>, nativeOf: NativeOf): nat {
    if |es| == 0 then 0
    else (if IsCharPtr(es[0], nativeOf) then 1 else 0) + CharPtrCount(es[1..], nativeOf)
  }

  /** An entry the expansion rejects or cannot type. */
  predicate Fails(e: Entry, nativeOf: NativeOf) {
    e.Other? || (e.Described? && nativeOf(e.v).Failure?)
  }

  /** The exception an entry the expansion rejects raises. */
  function ErrorOf(e: Entry, nativeOf: NativeOf): PyError
    requires Fails(e, nativeOf)
  {
    if e.Other? then AssertionError("") else nativeOf(e.v).error
  }

  /** What one accepted entry expands to. */
  function EntryExpansion(e: Entry, nativeOf: NativeOf): (r: seq<Entry>)
    ensures |r| == if IsCharPtr(e, nativeOf) then 2 else 1
  {
    if IsCharPtr(e, nativeOf) then [e, LengthCompanion(e.v)] else [e]
  }

  /** The list `prepare_variables` hands to the base class: every entry
      in order, each `char*` description followed by its `_length`
      companion; the first entry that cannot be handled raises. */
  function ExpandEntries(es: seq<Entry>, nativeOf: NativeOf): (r: Result<seq<Entry>>)
    ensures r.Failure? <==> exists i :: 0 <= i < |es| && Fails(es[i], nativeOf)
    ensures r.Success? ==> |r.value| == |es| + CharPtrCount(es, nativeOf)
    decreases |es|
  {
    if |es| == 0 then Success([])
    else
      var rest := ExpandEntries(es[1..], nativeOf);
      assert forall i :: 1 <= i < |es| ==> es[i] == es[1..][i - 1];
      if Fails(es[0], nativeOf) then Failure(ErrorOf(es[0], nativeOf))
      else if rest.Failure? then rest
      else Success(EntryExpansion(es[0], nativeOf) + rest.value)
  }

  /** `CModelDriver.prepare_variables` up to the base class's
      concatenation. */
  function PrepareVariables(arg: VarsArg): (r: Result<seq<Entry>>)
    ensures r == ExpandEntries(EntriesOf(arg), VarNative)
  {
    ExpandEntries(EntriesOf(arg), VarNative)
  }

  /** Where entry `i` of the input lands in the expansion: after the
      expansions of every entry before it. */
  function Landing(es: seq<Entry>, i: nat, nativeOf: NativeOf): nat
    requires i <= |es|
    decreases i
  {
    if i == 0 then 0 else |EntryExpansion(es[0], nativeOf)| + Landing(es[1..], i - 1, nativeOf)
  }

  /** `x` occurs in `out` starting at `k`. */
  predicate OccursAt<T(==)>(out: seq<T>, k: nat, x: seq<T>) {
    k + |x| <= |out| && out[k..k + |x|] == x
  }

  /** The expansion, position by position: entry `i`'s expansion sits at
      its landing place. */
  lemma {:induction false} ExpandPositions(es: seq<Entry>, i: nat, nativeOf: NativeOf)
    requires i < |es|
    requires ExpandEntries(es, nativeOf).Success?
    ensures OccursAt(ExpandEntries(es, nativeOf).value, Landing(es, i, nativeOf), EntryExpansion(es[i], nativeOf))
    decreases i
  {
    ExpandCons(es, nativeOf);
    var head := EntryExpansion(es[0], nativeOf);
    var rest := ExpandEntries(es[1..], nativeOf).value;
    if i == 0 {
      PrefixOf(head, rest);
    } else {
      ExpandPositions(es[1..], i - 1, nativeOf);
      assert es[1..][i - 1] == es[i];
      SliceShift(head, rest, Landing(es[1..], i - 1, nativeOf), |EntryExpansion(es[i], nativeOf)|);
    }
  }

  /** Entry `i` sits at its landing place, followed by its companion
      exactly when it is a `char*` description. */
  lemma EntryLands(es: seq<Entry>, i: nat, nativeOf: NativeOf)
    requires i < |es|
    requires ExpandEntries(es, nativeOf).Success?
    ensures var out := ExpandEntries(es, nativeOf).value;
      && Landing(es, i, nativeOf) < |out|
      && out[Landing(es, i, nativeOf)] == es[i]
      && (IsCharPtr(es[i], nativeOf) ==>
            Landing(es, i, nativeOf) + 1 < |out| && out[Landing(es, i, nativeOf) + 1] == LengthCompanion(es[i].v))
  {
    ExpandPositions(es, i, nativeOf);
    var out := ExpandEntries(es, nativeOf).value;
    var k := Landing(es, i, nativeOf);
    var x := EntryExpansion(es[i], nativeOf);
    assert out[k] == out[k..k + |x|][0];
    if IsCharPtr(es[i], nativeOf) {
      assert out[k + 1] == out[k..k + |x|][1];
    }
  }

  lemma ExpandCons(es: seq<Entry>, nativeOf: NativeOf)
    requires |es| > 0 && ExpandEntries(es, nativeOf).Success?
    ensures ExpandEntries(es[1..], nativeOf).Success?
    ensures ExpandEntries(es, nativeOf).value == EntryExpansion(es[0], nativeOf) + ExpandEntries(es[1..], nativeOf).value
  {
  }

  /** The argument list a list of outputs becomes when they are passed as
      inputs: each name gets the address-of operator. */
  function PrepareOutputVariables(vars: seq<Var>, inInputs: bool): (r: seq<Var>)
    ensures |r| == |vars|
    ensures forall i :: 0 <= i < |vars| ==>
      r[i].jsonType == vars[i].jsonType && r[i].name == (if inInputs then "&" + vars[i].name else vars[i].name)
  {
    if inInputs then seq(|vars|, i requires 0 <= i < |vars| => vars[i].(name := "&" + vars[i].name))
    else vars
  }

  /** Dropping the address-of operator gives the outputs back. */
  lemma AddressOfRoundTrip(vars: seq<Var>)
    ensures var r := PrepareOutputVariables(vars, true);
      seq(|r|, i requires 0 <= i < |r| => r[i].(name := r[i].name[1..])) == vars
  {
    var r := PrepareOutputVariables(vars, true);
    var back := seq(|r|, i requires 0 <= i < |r| => r[i].(name := r[i].name[1..]));
    forall i | 0 <= i < |vars|
      ensures back[i] == vars[i]
    {
      assert r[i].name == "&" + vars[i].name;
      assert r[i].name[1..] == vars[i].name;
    }
  }

  // ---------------------------------------------------------------------
  // write_native_type_definition
  // ---------------------------------------------------------------------

  /** What `write_native_type_definition` produces: its lines and the
      caller's `requires_freeing` list after the call (`None` when no list
      was passed). */
  datatype Defs = Defs(lines: seq<string>, freeing: Option<seq<string>>)

  function Quoted(s: string): string {
    "\"" + s + "\""
  }

  /** `str(list)` for a shape: `[2, 3]`. */
  function ShapeText(shape: seq<int>): string {
    "[" + Join(seq(|shape|, i requires 0 <= i < |shape| => IntToString(shape[i])), ", ") + "]"
  }

  function UnitsOf(dt: Schema): string {
    if dt.units.Some? then dt.units.value else ""
  }

  /** The allocation line of a `MetaschemaType*` array of `n` entries. */
  function TypeArrayAlloc(var_: string, n: nat): string {
    "MetaschemaType** " + var_ + " = (MetaschemaType**)malloc(" + IntToString(n) + "*sizeof(MetaschemaType*));"
  }

  /** The allocation line of a `char*` array of `n` entries. */
  function KeyArrayAlloc(var_: string, n: nat): string {
    "char** " + var_ + " = (char**)malloc(" + IntToString(n) + "*sizeof(char*));"
  }

  /** What the last line starts with: a serializer declaration, a bare
      assignment when `noDecl`, or a type declaration. */
  function DefHead(name: string, asSeri: bool, noDecl: bool): string {
    if asSeri then "seri_t* " + name + " = " else if noDecl then name + " = " else "MetaschemaType* " + name + " = "
  }

  /** The line a definition ends with: a serializer built from the type,
      or the type assigned to `name`. */
  function DefLine(name: string, typeName: string, call: string, asSeri: bool, noDecl: bool): (line: string)
    ensures StartsWith(line, DefHead(name, asSeri, noDecl))
  {
    var tail := if asSeri then "init_serializer(" + Quoted(typeName) + ", " + call + ");" else call + ";";
    PrefixOf(DefHead(name, asSeri, noDecl), tail);
    DefHead(name, asSeri, noDecl) + tail
  }

  /** The keys a type with no member types must carry, in the order the
      source reads them. */
  function RequiredKeys(kind: string): seq<string> {
    if kind == "ply" || kind == "obj" then []
    else if kind == "1darray" then ["subtype", "precision", "length"]
    else if kind == "ndarray" then ["subtype", "precision", "shape"]
    else ["precision"]
  }

  predicate HasKey(dt: Schema, key: string) {
    if key == "subtype" then dt.subtype.Some?
    else if key == "precision" then dt.precision.Some?
    else if key == "length" then dt.length.Some?
    else if key == "shape" then dt.shape.Some?
    else true
  }

  /** The first of `keys` that `dt` lacks. */
  function FirstMissing(dt: Schema, keys: seq<string>): (r: Option<string>)
    ensures r.Some? ==> r.value in keys && !HasKey(dt, r.value)
    ensures r.None? <==> forall k :: k in keys ==> HasKey(dt, k)
  {
    if keys == [] then None
    else if !HasKey(dt, keys[0]) then Some(keys[0])
    else FirstMissing(dt, keys[1..])
  }

  lemma MissingLast(dt: Schema, a: string, b: string, c: string)
    requires HasKey(dt, a) && HasKey(dt, b) && !HasKey(dt, c)
    ensures FirstMissing(dt, [a, b, c]) == Some(c)
  {
    assert [a, b, c][1..] == [b, c];
    assert [b, c][1..] == [c];
  }

  /** The type name a serializer of a type with no member types is
      initialised with: every kind but the geometry and array kinds is a
      scalar. */
  function LeafTypeName(kind: string): string {
    if kind == "ply" || kind == "obj" || kind == "1darray" || kind == "ndarray" then kind else "scalar"
  }

  /** The argument list, with its closing parenthesis, of the constructor
      call of a type that holds no other type, or the key the source finds
      missing. */
  function LeafArgs(dt: Schema): (r: Result<string>)
    ensures r.Failure? <==> FirstMissing(dt, RequiredKeys(dt.kind)).Some?
    ensures r.Failure? ==> r.error == KeyError(FirstMissing(dt, RequiredKeys(dt.kind)).value)
  {
    if dt.kind == "ply" || dt.kind == "obj" then Success(")")
    else if dt.kind == "1darray" then
      if dt.subtype.None? then Failure(KeyError("subtype"))
      else if dt.precision.None? then Failure(KeyError("precision"))
      else if dt.length.None? then MissingLast(dt, "subtype", "precision", "length"); Failure(KeyError("length"))
      else Success(Quoted(dt.subtype.value) + ", " + IntToString(dt.precision.value) + ", "
        + IntToString(dt.length.value) + ", " + Quoted(UnitsOf(dt)) + ")")
    else if dt.kind == "ndarray" then
      if dt.subtype.None? then Failure(KeyError("subtype"))
      else if dt.precision.None? then Failure(KeyError("precision"))
      else if dt.shape.None? then MissingLast(dt, "subtype", "precision", "shape"); Failure(KeyError("shape"))
      else Success(Quoted(dt.subtype.value) + ", " + IntToString(dt.precision.value) + ", "
        + IntToString(|dt.shape.value|) + ", " + ShapeText(dt.shape.value) + ", " + Quoted(UnitsOf(dt)) + ")")
    else if dt.precision.None? then Failure(KeyError("precision"))
    else
      var subtype := if dt.subtype.Some? then dt.subtype.value else dt.kind;
      Success(Quoted(subtype) + ", " + IntToString(dt.precision.value) + ", " + Quoted(UnitsOf(dt)) + ")")
  }

  /** The constructor call and type name of a type that holds no other
      type, or the key the source finds missing. */
  function LeafCall(dt: Schema): (r: Result<(string, string)>)
    ensures r.Failure? <==> FirstMissing(dt, RequiredKeys(dt.kind)).Some?
    ensures r.Failure? ==> r.error == KeyError(FirstMissing(dt, RequiredKeys(dt.kind)).value)
    ensures r.Success? ==> r.value.1 == LeafTypeName(dt.kind) && StartsWith(r.value.0, "get_" + r.value.1 + "_type(")
  {
    var args :- LeafArgs(dt);
    var typeName := LeafTypeName(dt.kind);
    var head := "get_" + typeName + "_type(";
    PrefixOf(head, args);
    Success((head + args, typeName))
  }

  predicate IsContainer(dt: Schema) {
    dt.kind == "array" || dt.kind == "object"
  }

  /** How many lines a definition takes: one for a leaf type; an array
      adds its allocation and its items' lines; an object adds two
      allocations and, per property, a key line and the value's lines. */
  function LineCount(dt: Schema): nat
    decreases dt, 1
  {
    if dt.kind == "array" && dt.items.ItemList? then 2 + ItemsLineCount(dt, 0)
    else if dt.kind == "object" && dt.properties.PropertyList? then 3 + PropsLineCount(dt, 0)
    else 1
  }

  function ItemsLineCount(dt: Schema, i: nat): nat
    requires dt.items.ItemList? && i <= |dt.items.list|
    decreases dt, 0, |dt.items.list| - i
  {
    if i == |dt.items.list| then 0 else ItemSmaller(dt, i); LineCount(dt.items.list[i]) + ItemsLineCount(dt, i + 1)
  }

  function PropsLineCount(dt: Schema, i: nat): nat
    requires dt.properties.PropertyList? && i <= |dt.properties.list|
    decreases dt, 0, |dt.properties.list| - i
  {
    if i == |dt.properties.list| then 0 else PropSmaller(dt, i); 1 + LineCount(dt.properties.list[i].value) + PropsLineCount(dt, i + 1)
  }

  /** How many pointers a definition asks the caller to free: one per
      array, two per object. */
  function FreeCount(dt: Schema): nat
    decreases dt, 1
  {
    if dt.kind == "array" && dt.items.ItemList? then 1 + ItemsFreeCount(dt, 0)
    else if dt.kind == "object" && dt.properties.PropertyList? then 2 + PropsFreeCount(dt, 0)
    else 0
  }

  function ItemsFreeCount(dt: Schema, i: nat): nat
    requires dt.items.ItemList? && i <= |dt.items.list|
    decreases dt, 0, |dt.items.list| - i
  {
    if i == |dt.items.list| then 0 else ItemSmaller(dt, i); FreeCount(dt.items.list[i]) + ItemsFreeCount(dt, i + 1)
  }

  function PropsFreeCount(dt: Schema, i: nat): nat
    requires dt.properties.PropertyList? && i <= |dt.properties.list|
    decreases dt, 0, |dt.properties.list| - i
  {
    if i == |dt.properties.list| then 0 else PropSmaller(dt, i); FreeCount(dt.properties.list[i].value) + PropsFreeCount(dt, i + 1)
  }

  /** `after` extends `before` by `n` names, or both are absent. */
  predicate Grows(before: Option<seq<string>>, after: Option<seq<string>>, n: nat) {
    before.Some? == after.Some?
    && (before.Some? ==> |after.value| == |before.value| + n && after.value[..|before.value|] == before.value)
  }

  /** The variable item `i` of array `name` is defined into. */
  function ItemVar(name: string, i: nat): string {
    name + "_items[" + IntToString(i) + "]"
  }

  /** The variable the value of property `i` of object `name` is defined into. */
  function ValVar(name: string, i: nat): string {
    name + "_vals[" + IntToString(i) + "]"
  }

  /** The line storing the key of property `i` of object `name`. */
  function KeyLine(name: string, i: nat, key: string): string {
    name + "_keys[" + IntToString(i) + "] = " + Quoted(key)
  }

  function ArrayCall(name: string, n: nat): string {
    "get_json_array_type(" + IntToString(n) + ", " + name + "_items)"
  }

  function ObjectCall(name: string, n: nat): string {
    "get_json_object_type(" + IntToString(n) + ", " + name + "_keys, " + name + "_vals)"
  }

  /** The lines of a definition as the C code lays them out, without
      reference to any freeing list: a leaf is its one definition line; an
      array is the `malloc` of its items array, then each item's lines in
      item order, then its own line; an object is the `malloc`s of its
      values and keys arrays, then per property in order its key line and
      its value's lines, then its own line. */
  function Layout(name: string, dt: Schema, asSeri: bool, noDecl: bool): Result<seq<string>>
    decreases dt, 1
  {
    if dt.kind == "array" then
      if dt.items.NoItems? then Failure(KeyError("items"))
      else
        var block :- ItemsLayout(name, dt, 0);
        var n := |dt.items.list|;
        Success([TypeArrayAlloc(name + "_items", n)] + block + [DefLine(name, "array", ArrayCall(name, n), asSeri, noDecl)])
    else if dt.kind == "object" then
      if dt.properties.NoProperties? then Failure(KeyError("properties"))
      else
        var block :- PropsLayout(name, dt, 0);
        var n := |dt.properties.list|;
        Success([TypeArrayAlloc(name + "_vals", n), KeyArrayAlloc(name + "_keys", n)] + block
          + [DefLine(name, "object", ObjectCall(name, n), asSeri, noDecl)])
    else
      var (call, typeName) :- LeafCall(dt);
      Success([DefLine(name, typeName, call, asSeri, noDecl)])
  }

  function ItemsLayout(name: string, dt: Schema, i: nat): Result<seq<string>>
    requires dt.items.ItemList? && i <= |dt.items.list|
    decreases dt, 0, |dt.items.list| - i
  {
    if i == |dt.items.list| then Success([])
    else
      ItemSmaller(dt, i);
      var here :- Layout(ItemVar(name, i), dt.items.list[i], false, true);
      var rest :- ItemsLayout(name, dt, i + 1);
      Success(here + rest)
  }

  function PropsLayout(name: string, dt: Schema, i: nat): Result<seq<string>>
    requires dt.properties.PropertyList? && i <= |dt.properties.list|
    decreases dt, 0, |dt.properties.list| - i
  {
    if i == |dt.properties.list| then Success([])
    else
      PropSmaller(dt, i);
      var Property(key, value) := dt.properties.list[i];
      var here :- Layout(ValVar(name, i), value, false, false);
      var rest :- PropsLayout(name, dt, i + 1);
      Success([KeyLine(name, i, key)] + here + rest)
  }

  /** The pointers a definition hands to the caller to free, in order:
      those of the members first, then an array's items array, or an
      object's values and keys arrays. */
  function FreeNames(name: string, dt: Schema): seq<string>
    decreases dt, 1
  {
    if dt.kind == "array" && dt.items.ItemList? then ItemsFreeNames(name, dt, 0) + [name + "_items"]
    else if dt.kind == "object" && dt.properties.PropertyList? then PropsFreeNames(name, dt, 0) + [name + "_vals", name + "_keys"]
    else []
  }

  function ItemsFreeNames(name: string, dt: Schema, i: nat): seq<string>
    requires dt.items.ItemList? && i <= |dt.items.list|
    decreases dt, 0, |dt.items.list| - i
  {
    if i == |dt.items.list| then [] else ItemSmaller(dt, i); FreeNames(ItemVar(name, i), dt.items.list[i]) + ItemsFreeNames(name, dt, i + 1)
  }

  function PropsFreeNames(name: string, dt: Schema, i: nat): seq<string>
    requires dt.properties.PropertyList? && i <= |dt.properties.list|
    decreases dt, 0, |dt.properties.list| - i
  {
    if i == |dt.properties.list| then [] else PropSmaller(dt, i); FreeNames(ValVar(name, i), dt.properties.list[i].value) + PropsFreeNames(name, dt, i + 1)
  }

  /** `CModelDriver.write_native_type_definition(name, datatype, as_seri,
      requires_freeing, no_decl)`. */
  function TypeDef(name: string, dt: Schema, asSeri: bool, freeing: Option<seq<string>>, noDecl: bool): (r: Result<Defs>)
    ensures r.Success? ==> Layout(name, dt, asSeri, noDecl) == Success(r.value.lines)
    ensures freeing.Some? && r.Failure? ==> Layout(name, dt, asSeri, noDecl) == Failure(r.error)
    ensures r.Success? && freeing.Some? ==> r.value.freeing == Some(freeing.value + FreeNames(name, dt))
    ensures r.Success? ==> |r.value.lines| == LineCount(dt) && Grows(freeing, r.value.freeing, FreeCount(dt))
    ensures r.Success? ==> StartsWith(r.value.lines[|r.value.lines| - 1], DefHead(name, asSeri, noDecl))
    ensures IsContainer(dt) && freeing.None? ==> r.Failure?
    decreases dt, 2
  {
    if dt.kind == "array" then ArrayDef(name, dt, asSeri, freeing, noDecl)
    else if dt.kind == "object" then ObjectDef(name, dt, asSeri, freeing, noDecl)
    else
      var (call, typeName) :- LeafCall(dt);
      assert freeing.Some? ==> freeing.value + FreeNames(name, dt) == freeing.value;
      Success(Defs([DefLine(name, typeName, call, asSeri, noDecl)], freeing))
  }

  /** An array: its items array is allocated, each item defined into it,
      and the items array handed to the caller to free. */
  function ArrayDef(name: string, dt: Schema, asSeri: bool, freeing: Option<seq<string>>, noDecl: bool): (r: Result<Defs>)
    requires dt.kind == "array"
    ensures dt.items.NoItems? ==> r == Failure(KeyError("items"))
    ensures freeing.None? ==> r.Failure?
    ensures r.Success? ==> Layout(name, dt, asSeri, noDecl) == Success(r.value.lines)
    ensures freeing.Some? && r.Failure? ==> Layout(name, dt, asSeri, noDecl) == Failure(r.error)
    ensures r.Success? ==> r.value.freeing == Some(freeing.value + FreeNames(name, dt))
    ensures r.Success? ==>
      && dt.items.ItemList?
      && |r.value.lines| == LineCount(dt) && Grows(freeing, r.value.freeing, FreeCount(dt))
      && r.value.lines[0] == TypeArrayAlloc(name + "_items", |dt.items.list|)
      && StartsWith(r.value.lines[|r.value.lines| - 1], DefHead(name, asSeri, noDecl))
      && r.value.freeing.value[|r.value.freeing.value| - 1] == name + "_items"
    decreases dt, 1
  {
    if dt.items.NoItems? then Failure(KeyError("items"))
    else
      var n := |dt.items.list|;
      var itemsName := name + "_items";
      var body :- ItemDefs(name, dt, 0, freeing);
      if body.freeing.None? then Failure(AssertionError(""))
      else
        GrowsByOne(freeing, body.freeing.value, itemsName, ItemsFreeCount(dt, 0));
        assert body.freeing.value + [itemsName] == freeing.value + (ItemsFreeNames(name, dt, 0) + [itemsName]);
        Success(Defs([TypeArrayAlloc(itemsName, n)] + body.lines + [DefLine(name, "array", ArrayCall(name, n), asSeri, noDecl)],
          Some(body.freeing.value + [itemsName])))
  }

  /** An object: its values and keys arrays are allocated, each property
      stored into them, and both arrays handed to the caller to free. */
  function ObjectDef(name: string, dt: Schema, asSeri: bool, freeing: Option<seq<string>>, noDecl: bool): (r: Result<Defs>)
    requires dt.kind == "object"
    ensures dt.properties.NoProperties? ==> r == Failure(KeyError("properties"))
    ensures freeing.None? ==> r.Failure?
    ensures r.Success? ==> Layout(name, dt, asSeri, noDecl) == Success(r.value.lines)
    ensures freeing.Some? && r.Failure? ==> Layout(name, dt, asSeri, noDecl) == Failure(r.error)
    ensures r.Success? ==> r.value.freeing == Some(freeing.value + FreeNames(name, dt))
    ensures r.Success? ==>
      && dt.properties.PropertyList?
      && |r.value.lines| == LineCount(dt) && Grows(freeing, r.value.freeing, FreeCount(dt))
      && r.value.lines[0] == TypeArrayAlloc(name + "_vals", |dt.properties.list|)
      && r.value.lines[1] == KeyArrayAlloc(name + "_keys", |dt.properties.list|)
      && StartsWith(r.value.lines[|r.value.lines| - 1], DefHead(name, asSeri, noDecl))
      && r.value.freeing.value[|r.value.freeing.value| - 2..] == [name + "_vals", name + "_keys"]
    decreases dt, 1
  {
    if dt.properties.NoProperties? then Failure(KeyError("properties"))
    else
      var n := |dt.properties.list|;
      var keysName := name + "_keys";
      var valsName := name + "_vals";
      var body :- PropDefs(name, dt, 0, freeing);
      if body.freeing.None? then Failure(AssertionError(""))
      else
        GrowsByTwo(freeing, body.freeing.value, valsName, keysName, PropsFreeCount(dt, 0));
        assert body.freeing.value + [valsName, keysName] == freeing.value + (PropsFreeNames(name, dt, 0) + [valsName, keysName]);
        Success(Defs([TypeArrayAlloc(valsName, n), KeyArrayAlloc(keysName, n)] + body.lines
          + [DefLine(name, "object", ObjectCall(name, n), asSeri, noDecl)], Some(body.freeing.value + [valsName, keysName])))
  }

  lemma ItemSmaller(dt: Schema, i: nat)
    requires dt.items.ItemList? && i < |dt.items.list|
    ensures dt.items.list[i] < dt
  {
    assert dt.items.list[i] in dt.items.list;
  }

  lemma PropSmaller(dt: Schema, i: nat)
    requires dt.properties.PropertyList? && i < |dt.properties.list|
    ensures dt.properties.list[i].value < dt
  {
    assert dt.properties.list[i] in dt.properties.list;
  }

  /** The definitions of items `i..` of an array, each assigned into the
      items array without a declaration. */
  function ItemDefs(name: string, dt: Schema, i: nat, freeing: Option<seq<string>>): (r: Result<Defs>)
    requires dt.items.ItemList? && i <= |dt.items.list|
    ensures r.Success? ==> ItemsLayout(name, dt, i) == Success(r.value.lines)
    ensures freeing.Some? && r.Failure? ==> ItemsLayout(name, dt, i) == Failure(r.error)
    ensures r.Success? && freeing.Some? ==> r.value.freeing == Some(freeing.value + ItemsFreeNames(name, dt, i))
    ensures r.Success? ==> |r.value.lines| == ItemsLineCount(dt, i) && Grows(freeing, r.value.freeing, ItemsFreeCount(dt, i))
    decreases dt, 0, |dt.items.list| - i
  {
    if i == |dt.items.list| then
      assert freeing.Some? ==> freeing.value + [] == freeing.value;
      Success(Defs([], freeing))
    else
      ItemSmaller(dt, i);
      var here :- TypeDef(ItemVar(name, i), dt.items.list[i], false, freeing, true);
      var rest :- ItemDefs(name, dt, i + 1, here.freeing);
      GrowsTrans(freeing, here.freeing, rest.freeing, FreeCount(dt.items.list[i]), ItemsFreeCount(dt, i + 1));
      AppendsTrans(freeing, here.freeing, rest.freeing, FreeNames(ItemVar(name, i), dt.items.list[i]), ItemsFreeNames(name, dt, i + 1));
      Success(Defs(here.lines + rest.lines, rest.freeing))
  }

  /** The definitions of properties `i..` of an object: the key stored in
      the keys array, then the value's definition, declared. */
  function PropDefs(name: string, dt: Schema, i: nat, freeing: Option<seq<string>>): (r: Result<Defs>)
    requires dt.properties.PropertyList? && i <= |dt.properties.list|
    ensures r.Success? ==> PropsLayout(name, dt, i) == Success(r.value.lines)
    ensures freeing.Some? && r.Failure? ==> PropsLayout(name, dt, i) == Failure(r.error)
    ensures r.Success? && freeing.Some? ==> r.value.freeing == Some(freeing.value + PropsFreeNames(name, dt, i))
    ensures r.Success? ==> |r.value.lines| == PropsLineCount(dt, i) && Grows(freeing, r.value.freeing, PropsFreeCount(dt, i))
    decreases dt, 0, |dt.properties.list| - i
  {
    if i == |dt.properties.list| then
      assert freeing.Some? ==> freeing.value + [] == freeing.value;
      Success(Defs([], freeing))
    else
      PropSmaller(dt, i);
      var Property(key, value) := dt.properties.list[i];
      var here :- TypeDef(ValVar(name, i), value, false, freeing, false);
      var rest :- PropDefs(name, dt, i + 1, here.freeing);
      GrowsTrans(freeing, here.freeing, rest.freeing, FreeCount(value), PropsFreeCount(dt, i + 1));
      AppendsTrans(freeing, here.freeing, rest.freeing, FreeNames(ValVar(name, i), value), PropsFreeNames(name, dt, i + 1));
      Success(Defs([KeyLine(name, i, key)] + here.lines + rest.lines, rest.freeing))
  }

  /** `tail` is the last `|tail|` lines of `all`. */
  predicate EndsWithLines(all: seq<string>, tail: seq<string>) {
    |tail| <= |all| && all[|all| - |tail|..] == tail
  }

  lemma EndsWithLinesTrans(a: seq<string>, b: seq<string>, c: seq<string>)
    requires EndsWithLines(a, b) && EndsWithLines(b, c)
    ensures EndsWithLines(a, c)
  {
    assert a[|a| - |c|..] == b[|b| - |c|..];
  }

  lemma ItemsStep(name: string, dt: Schema, i: nat)
    requires dt.items.ItemList? && i < |dt.items.list|
    requires ItemsLayout(name, dt, i).Success?
    ensures ItemsLayout(name, dt, i + 1).Success?
    ensures EndsWithLines(ItemsLayout(name, dt, i).value, ItemsLayout(name, dt, i + 1).value)
  {
    var here := Layout(ItemVar(name, i), dt.items.list[i], false, true).value;
    var mid := ItemsLayout(name, dt, i + 1).value;
    assert ItemsLayout(name, dt, i).value == here + mid;
  }

  lemma PropsStep(name: string, dt: Schema, i: nat)
    requires dt.properties.PropertyList? && i < |dt.properties.list|
    requires PropsLayout(name, dt, i).Success?
    ensures PropsLayout(name, dt, i + 1).Success?
    ensures EndsWithLines(PropsLayout(name, dt, i).value, PropsLayout(name, dt, i + 1).value)
  {
    var p := dt.properties.list[i];
    var here := [KeyLine(name, i, p.key)] + Layout(ValVar(name, i), p.value, false, false).value;
    var mid := PropsLayout(name, dt, i + 1).value;
    assert PropsLayout(name, dt, i).value == here + mid;
  }

  /** The lines of items `j..` are the tail of the lines of items `i..`
      for every `i <= j`: items are laid out in item order. */
  lemma {:induction false} ItemsBlockTail(name: string, dt: Schema, i: nat, j: nat)
    requires dt.items.ItemList? && i <= j <= |dt.items.list|
    requires ItemsLayout(name, dt, i).Success?
    ensures ItemsLayout(name, dt, j).Success?
    ensures EndsWithLines(ItemsLayout(name, dt, i).value, ItemsLayout(name, dt, j).value)
    decreases j - i
  {
    if i < j {
      ItemsStep(name, dt, i);
      ItemsBlockTail(name, dt, i + 1, j);
      EndsWithLinesTrans(ItemsLayout(name, dt, i).value, ItemsLayout(name, dt, i + 1).value, ItemsLayout(name, dt, j).value);
    } else {
      var all := ItemsLayout(name, dt, i).value;
      assert all[|all| - |all|..] == all;
    }
  }

  /** The same for the properties of an object. */
  lemma {:induction false} PropsBlockTail(name: string, dt: Schema, i: nat, j: nat)
    requires dt.properties.PropertyList? && i <= j <= |dt.properties.list|
    requires PropsLayout(name, dt, i).Success?
    ensures PropsLayout(name, dt, j).Success?
    ensures EndsWithLines(PropsLayout(name, dt, i).value, PropsLayout(name, dt, j).value)
    decreases j - i
  {
    if i < j {
      PropsStep(name, dt, i);
      PropsBlockTail(name, dt, i + 1, j);
      EndsWithLinesTrans(PropsLayout(name, dt, i).value, PropsLayout(name, dt, i + 1).value, PropsLayout(name, dt, j).value);
    } else {
      var all := PropsLayout(name, dt, i).value;
      assert all[|all| - |all|..] == all;
    }
  }

  lemma GrowsTrans(a: Option<seq<string>>, b: Option<seq<string>>, c: Option<seq<string>>, m: nat, n: nat)
    requires Grows(a, b, m) && Grows(b, c, n)
    ensures Grows(a, c, m + n)
  {
    if a.Some? {
      assert c.value[..|a.value|] == c.value[..|b.value|][..|a.value|];
    }
  }

  /** Appending `x` and then `y` to a present list appends `x + y`. */
  lemma AppendsTrans(a: Option<seq<string>>, b: Option<seq<string>>, c: Option<seq<string>>, x: seq<string>, y: seq<string>)
    requires a.Some? ==> b == Some(a.value + x)
    requires b.Some? ==> c == Some(b.value + y)
    ensures a.Some? ==> c == Some(a.value + (x + y))
  {
    if a.Some? {
      assert a.value + x + y == a.value + (x + y);
    }
  }

  lemma GrowsByOne(a: Option<seq<string>>, b: seq<string>, x: string, n: nat)
    requires Grows(a, Some(b), n)
    ensures Grows(a, Some(b + [x]), n + 1)
  {
    assert (b + [x])[..|a.value|] == b[..|a.value|];
  }

  lemma GrowsByTwo(a: Option<seq<string>>, b: seq<string>, x: string, y: string, n: nat)
    requires Grows(a, Some(b), n)
    ensures Grows(a, Some(b + [x, y]), n + 2)
  {
    assert (b + [x, y])[..|a.value|] == b[..|a.value|];
  }
}
