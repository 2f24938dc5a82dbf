/** The key/value map serializer (yggdrasil/serialize/AsciiMapSerialize.py):
    one `key<delimiter>json(value)<newline>` line per key in sorted key
    order, its parser, and `concatenate`. `json.dumps` and `json.loads`
    are a parameter (`Codec`). */
module AsciiMap {
  import opened Base
  import opened Strings
  import opened Sorting
  import opened DictMerge

  /** The JSON values a map entry carries. */
  datatype Json =
    | JNull
    | JBool(b: bool)
    | JNumber(n: int)
    | JString(s: string)
    | JArray(elems: seq<Json>)

  /** A Python dict key: a string, or a number (the only other keys the
      model distinguishes). */
  datatype Key = StrKey(s: string) | IntKey(i: int)

  /** `json.dumps` and `json.loads`; `loads` yields `None` where Python
      raises. */
  datatype Codec = Codec(dumps: Json -> string, loads: string -> Option<Json>)

  /** A value wrapped in single quotes, which the parser reads as a bare
      string. */
  predicate Quoted(text: string) {
    StartsWith(text, "'") && EndsWith(text, "'")
  }

  /** What `json` promises: `loads` undoes `dumps`, and an encoded value is
      on one line and never starts with a single quote. */
  ghost predicate Lawful(codec: Codec, newline: char) {
    forall v :: codec.loads(codec.dumps(v)) == Some(v)
      && newline !in codec.dumps(v)
      && (|codec.dumps(v)| == 0 || codec.dumps(v)[0] != '\'')
  }

  // ---------------------------------------------------------------------
  // func_serialize
  // ---------------------------------------------------------------------

  predicate AllStringKeys(d: map<Key, Json>) {
    forall key :: key in d ==> key.StrKey?
  }

  /** The string-keyed entries of a dict. */
  function StrEntries(d: map<Key, Json>): (m: map<string, Json>)
    ensures forall k :: k in m <==> StrKey(k) in d
    ensures forall k :: k in m ==> m[k] == d[StrKey(k)]
  {
    map key | key in d && key.StrKey? :: key.s := d[key]
  }

  /** The line for key `k`, without its newline. */
  function Line(k: string, v: Json, delimiter: char, codec: Codec): string {
    k + [delimiter] + codec.dumps(v)
  }

  /** The loop of `func_serialize` over `keys`. */
  function Emit(keys: seq<string>, d: map<string, Json>, delimiter: char, newline: char, codec: Codec): string
    requires forall k :: k in keys ==> k in d
  {
    if |keys| == 0 then ""
    else Line(keys[0], d[keys[0]], delimiter, codec) + [newline] + Emit(keys[1..], d, delimiter, newline, codec)
  }

  /** `func_serialize(args)`. Sorting a dict whose keys mix strings and
      numbers raises `TypeError`; a dict of number keys sorts, and its first
      key raises `ValueError`. */
  function Serialize(d: map<Key, Json>, delimiter: char, newline: char, codec: Codec): (r: Result<string>)
    ensures r.Success? <==> AllStringKeys(d)
    ensures r.Failure? ==> (r.error.ValueError? <==> forall key :: key in d ==> key.IntKey?)
    ensures r.Failure? ==> r.error.ValueError? || r.error.TypeError?
    ensures d == map[] ==> r == Success("")
  {
    if AllStringKeys(d) then
      var m := StrEntries(d);
      Success(Emit(SortedKeys(m.Keys), m, delimiter, newline, codec))
    else if forall key :: key in d ==> key.IntKey? then
      Failure(ValueError("Serialization of non-string keys not supported."))
    else
      Failure(TypeError("'<' not supported between instances of 'int' and 'str'"))
  }

  /** The lines of a serialized dict, one per key in `keys`. */
  function Lines(keys: seq<string>, d: map<string, Json>, delimiter: char, codec: Codec): (ls: seq<string>)
    requires forall k :: k in keys ==> k in d
    ensures |ls| == |keys|
    ensures forall i :: 0 <= i < |keys| ==> ls[i] == Line(keys[i], d[keys[i]], delimiter, codec)
  {
    seq(|keys|, i requires 0 <= i < |keys| => Line(keys[i], d[keys[i]], delimiter, codec))
  }

  /** The emitted text is the lines joined by the newline, with a final
      newline. */
  lemma {:induction false} EmitJoin(keys: seq<string>, d: map<string, Json>, delimiter: char, newline: char, codec: Codec)
    requires forall k :: k in keys ==> k in d
    ensures Emit(keys, d, delimiter, newline, codec) == Join(Lines(keys, d, delimiter, codec) + [""], [newline])
    decreases |keys|
  {
    if |keys| > 0 {
      EmitJoin(keys[1..], d, delimiter, newline, codec);
      var ls := Lines(keys, d, delimiter, codec);
      assert (ls + [""])[1..] == Lines(keys[1..], d, delimiter, codec) + [""];
    }
  }

  /** `func_serialize` writes exactly one line per key, in sorted key
      order, and ends with a newline: splitting its output on the newline
      gives those lines and a final empty piece. */
  lemma SerializedLines(d: map<Key, Json>, delimiter: char, newline: char, codec: Codec)
    requires AllStringKeys(d) && Lawful(codec, newline) && delimiter != newline
    requires forall key :: key in d ==> newline !in key.s
    ensures var m := StrEntries(d);
      var keys := SortedKeys(m.Keys);
      Split(Serialize(d, delimiter, newline, codec).value, newline) == Lines(keys, m, delimiter, codec) + [""]
  {
    var m := StrEntries(d);
    var keys := SortedKeys(m.Keys);
    var ls := Lines(keys, m, delimiter, codec);
    EmitJoin(keys, m, delimiter, newline, codec);
    forall i | 0 <= i < |ls + [""]|
      ensures newline !in (ls + [""])[i]
    {
      if i < |ls| {
        assert keys[i] in m.Keys;
        assert StrKey(keys[i]) in d;
        LineWithout(keys[i], m[keys[i]], delimiter, codec, newline);
      }
    }
    SplitJoin(ls + [""], newline);
  }

  lemma LineWithout(k: string, v: Json, delimiter: char, codec: Codec, c: char)
    requires c !in k && c != delimiter && c !in codec.dumps(v)
    ensures c !in Line(k, v, delimiter, codec)
  {
  }

  // ---------------------------------------------------------------------
  // func_deserialize
  // ---------------------------------------------------------------------

  /** The value text after the delimiter: a single-quoted text is a bare
      string, otherwise JSON, or the raw text when it is not JSON. */
  function ParseValue(text: string, codec: Codec): (v: Json)
    ensures !Quoted(text) && codec.loads(text).None? ==> v == JString(text)
  {
    if Quoted(text) then JString(Strip(text, '\''))
    else
      match codec.loads(text)
      case Some(v) => v
      case None => JString(text)
  }

  /** The parser's reading of lines `lines`, entered into `out`. */
  function ParseLines(lines: seq<string>, out: map<string, Json>, delimiter: char, codec: Codec): (r: Result<map<string, Json>>)
    ensures r.Failure? <==> exists i :: 0 <= i < |lines| && multiset(lines[i])[delimiter] > 1
    ensures r.Failure? ==> r.error.ValueError?
    ensures r.Success? ==> forall k :: k in out ==> k in r.value
    decreases |lines|
  {
    if |lines| == 0 then Success(out)
    else
      var kv := Split(lines[0], delimiter);
      SplitCount(lines[0], delimiter);
      assert forall i :: 0 < i < |lines| ==> lines[i] == lines[1..][i - 1];
      if |kv| <= 1 then ParseLines(lines[1..], out, delimiter, codec)
      else if |kv| == 2 then ParseLines(lines[1..], out[kv[0] := ParseValue(kv[1], codec)], delimiter, codec)
      else Failure(ValueError("Line has more than one delimiter: " + lines[0]))
  }

  /** `func_deserialize(msg)`. */
  function Deserialize(msg: string, delimiter: char, newline: char, codec: Codec): (r: Result<map<string, Json>>)
    ensures r.Failure? <==> exists line :: line in Split(msg, newline) && multiset(line)[delimiter] > 1
  {
    var lines := Split(msg, newline);
    var r := ParseLines(lines, map[], delimiter, codec);
    assert r.Failure? ==> exists i :: 0 <= i < |lines| && multiset(lines[i])[delimiter] > 1;
    r
  }

  /** Splitting yields one more piece than there are separators. */
  lemma {:induction false} SplitCount(s: string, c: char)
    ensures |Split(s, c)| == multiset(s)[c] + 1
    decreases |s|
  {
    var i := IndexOf(s, c);
    assert s == s[..i] + s[i..];
    assert multiset(s[..i])[c] == 0;
    if i < |s| {
      SplitCount(s[i + 1..], c);
      assert s[i..] == [c] + s[i + 1..];
    }
  }

  /** A line without the delimiter, the empty line after the last newline
      among them, is skipped. */
  lemma SkipsBareLine(line: string, rest: seq<string>, out: map<string, Json>, delimiter: char, codec: Codec)
    requires delimiter !in line
    ensures ParseLines([line] + rest, out, delimiter, codec) == ParseLines(rest, out, delimiter, codec)
  {
    SplitOfAbsent(line, delimiter);
    assert ([line] + rest)[1..] == rest;
  }

  /** A single-quoted value reads back as the text between the quotes. */
  lemma QuotedValue(t: string, codec: Codec)
    requires |t| == 0 || (t[0] != '\'' && t[|t| - 1] != '\'')
    ensures ParseValue("'" + t + "'", codec) == JString(t)
  {
    StripWrapped(t, '\'');
    assert "'" + t + "'" == ['\''] + t + ['\''];
  }

  /** A line written by the serializer reads back as its key and value. */
  lemma LineSplits(k: string, v: Json, delimiter: char, codec: Codec)
    requires delimiter !in k && delimiter !in codec.dumps(v)
    ensures Split(Line(k, v, delimiter, codec), delimiter) == [k, codec.dumps(v)]
  {
    SplitOfPrefixed(k, delimiter, codec.dumps(v));
    SplitOfAbsent(codec.dumps(v), delimiter);
  }

  /** A line holding one delimiter enters its key and value. */
  lemma ParseStep(line: string, rest: seq<string>, out: map<string, Json>, delimiter: char, codec: Codec, k: string, text: string)
    requires Split(line, delimiter) == [k, text]
    ensures ParseLines([line] + rest, out, delimiter, codec) == ParseLines(rest, out[k := ParseValue(text, codec)], delimiter, codec)
  {
    assert ([line] + rest)[0] == line && ([line] + rest)[1..] == rest;
  }

  /** An encoded value reads back as the value. */
  lemma ParsesEncoded(v: Json, newline: char, codec: Codec)
    requires Lawful(codec, newline)
    ensures ParseValue(codec.dumps(v), codec) == v
  {
    assert codec.loads(codec.dumps(v)) == Some(v);
    assert !Quoted(codec.dumps(v));
  }

  function Restrict(keys: seq<string>, d: map<string, Json>): (m: map<string, Json>)
    requires forall k :: k in keys ==> k in d
  {
    map k | k in keys :: d[k]
  }

  lemma RestrictCons(keys: seq<string>, d: map<string, Json>, out: map<string, Json>)
    requires |keys| > 0 && forall k :: k in keys ==> k in d
    ensures out[keys[0] := d[keys[0]]] + Restrict(keys[1..], d) == out + Restrict(keys, d)
  {
    assert forall k :: k in keys <==> k == keys[0] || k in keys[1..];
  }

  lemma RestrictAll(keys: seq<string>, d: map<string, Json>)
    requires forall k :: k in keys <==> k in d
    ensures map[] + Restrict(keys, d) == d
  {
    var r := Restrict(keys, d);
    assert r.Keys == d.Keys;
    assert map[] + r == r;
  }

  /** The serializer's lines for `keys` enter each key with its value. */
  lemma {:induction false} ParseEmitted(keys: seq<string>, d: map<string, Json>, out: map<string, Json>,
                                        delimiter: char, newline: char, codec: Codec)
    requires forall k :: k in keys ==> k in d
    requires Lawful(codec, newline)
    requires forall k :: k in keys ==> delimiter !in k && delimiter !in codec.dumps(d[k])
    ensures ParseLines(Lines(keys, d, delimiter, codec) + [""], out, delimiter, codec) == Success(out + Restrict(keys, d))
    decreases |keys|
  {
    if |keys| == 0 {
      SkipsBareLine("", [], out, delimiter, codec);
      assert out + Restrict(keys, d) == out;
    } else {
      var k := keys[0];
      var v := d[k];
      var ls := Lines(keys, d, delimiter, codec);
      var rest := Lines(keys[1..], d, delimiter, codec);
      assert ls + [""] == [ls[0]] + (rest + [""]);
      LineSplits(k, v, delimiter, codec);
      ParseStep(ls[0], rest + [""], out, delimiter, codec, k, codec.dumps(v));
      ParsesEncoded(v, newline, codec);
      assert forall k' :: k' in keys[1..] ==> k' in keys;
      ParseEmitted(keys[1..], d, out[k := v], delimiter, newline, codec);
      RestrictCons(keys, d, out);
    }
  }

  /** Round trip: a dict of string keys that hold neither the delimiter
      nor the newline, and whose encoded values hold no delimiter, reads
      back as itself. */
  lemma RoundTrip(d: map<Key, Json>, delimiter: char, newline: char, codec: Codec)
    requires AllStringKeys(d) && Lawful(codec, newline) && delimiter != newline
    requires forall key :: key in d ==> newline !in key.s && delimiter !in key.s
    requires forall key :: key in d ==> delimiter !in codec.dumps(d[key])
    ensures Serialize(d, delimiter, newline, codec).Success?
    ensures Deserialize(Serialize(d, delimiter, newline, codec).value, delimiter, newline, codec) == Success(StrEntries(d))
  {
    var m := StrEntries(d);
    SerializedLines(d, delimiter, newline, codec);
    forall k | k in m
      ensures delimiter !in k && delimiter !in codec.dumps(m[k])
    {
      assert StrKey(k) in d;
    }
    ParseSorted(m, delimiter, newline, codec);
  }

  /** The lines of a whole string-keyed dict, in sorted key order, read
      back as the dict. */
  lemma ParseSorted(m: map<string, Json>, delimiter: char, newline: char, codec: Codec)
    requires Lawful(codec, newline)
    requires forall k :: k in m ==> delimiter !in k && delimiter !in codec.dumps(m[k])
    ensures ParseLines(Lines(SortedKeys(m.Keys), m, delimiter, codec) + [""], map[], delimiter, codec) == Success(m)
  {
    var keys := SortedKeys(m.Keys);
    ParseEmitted(keys, m, map[], delimiter, newline, codec);
    RestrictAll(keys, m);
  }

  // ---------------------------------------------------------------------
  // concatenate
  // ---------------------------------------------------------------------

  /** `concatenate(objects)`: one dict holding every key, each with the
      value of the last object that has it. */
  function Concatenate(objects: seq<map<string, Json>>): (r: seq<map<string, Json>>)
    ensures |r| == 1
    ensures forall k :: k in r[0] <==> exists i :: 0 <= i < |objects| && k in objects[i]
    ensures |objects| == 0 ==> r == [map[]]
    ensures forall i, k {:trigger objects[i][k]} ::
      (0 <= i < |objects| && k in objects[i] && forall j :: i < j < |objects| ==> k !in objects[j])
      ==> r[0][k] == objects[i][k]
  {
    MergeKeys(objects);
    forall i, k | 0 <= i < |objects| && k in objects[i] && (forall j :: i < j < |objects| ==> k !in objects[j])
      ensures Merge(objects)[k] == objects[i][k]
    {
      LastWriterWins(objects, i, k);
    }
    [Merge(objects)]
  }
}
