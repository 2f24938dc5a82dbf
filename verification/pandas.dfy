/** The pandas frame serializer (yggdrasil/serialize/PandasSerialize.py):
    matching field names to a frame's columns, the "header written once"
    flags, the frame type guard and `concatenate`. The CSV writer is a
    parameter; a frame is its list of named columns. */
module Pandas {
  import opened Base
  import opened Strings

  /** A column of a frame: its label and its cells. */
  datatype Column<C> = Column(name: string, cells: seq<C>)

  type Frame<C> = seq<Column<C>>

  /** `frame.columns.tolist()`. */
  function Names<C>(frame: Frame<C>): (names: seq<string>)
    ensures |names| == |frame|
    ensures forall i :: 0 <= i < |frame| ==> names[i] == frame[i].name
  {
    seq(|frame|, i requires 0 <= i < |frame| => frame[i].name)
  }

  predicate Distinct<T(==)>(s: seq<T>) {
    forall i, j :: 0 <= i < j < |s| ==> s[i] != s[j]
  }

  // ---------------------------------------------------------------------
  // apply_field_names
  // ---------------------------------------------------------------------

  /** The field names that are not column labels, in field order. */
  function Missing(fieldNames: seq<string>, cols: seq<string>): (fmiss: seq<string>)
    ensures |fmiss| <= |fieldNames|
    ensures forall f :: f in fmiss <==> f in fieldNames && f !in cols
    ensures |fmiss| == |fieldNames| <==> forall f :: f in fieldNames ==> f !in cols
    ensures |fmiss| == 0 <==> forall f :: f in fieldNames ==> f in cols
  {
    if |fieldNames| == 0 then []
    else
      var rest := Missing(fieldNames[1..], cols);
      assert forall f :: f in fieldNames <==> f == fieldNames[0] || f in fieldNames[1..];
      if fieldNames[0] !in cols then [fieldNames[0]] + rest else rest
  }

  /** The first column labelled `f`, which `frame[field_names]` selects. */
  function ColumnNamed<C>(frame: Frame<C>, f: string): (c: Column<C>)
    requires f in Names(frame)
    ensures c in frame && c.name == f
  {
    if frame[0].name == f then frame[0]
    else
      assert Names(frame) == [frame[0].name] + Names(frame[1..]);
      ColumnNamed(frame[1..], f)
  }

  /** `apply_field_names(frame)`: no field names leave the frame alone; a
      count mismatch and a partial overlap are `RuntimeError`s; no overlap
      relabels the columns in place; a full overlap selects the columns in
      field order. */
  function ApplyFieldNames<C>(fieldNames: Option<seq<string>>, frame: Frame<C>): (r: Result<Frame<C>>)
    ensures fieldNames.None? ==> r == Success(frame)
    ensures fieldNames.Some? && |fieldNames.value| != |frame| ==> r.Failure? && r.error.RuntimeError?
    ensures fieldNames.Some? && |fieldNames.value| == |frame| ==>
      (r.Failure? <==> 0 < |Missing(fieldNames.value, Names(frame))| < |fieldNames.value|)
    ensures r.Failure? ==> r.error.RuntimeError?
    ensures r.Success? && fieldNames.Some? ==> Names(r.value) == fieldNames.value
    ensures r.Success? && fieldNames.Some? && |Missing(fieldNames.value, Names(frame))| > 0 ==>
      forall i :: 0 <= i < |frame| ==> r.value[i].cells == frame[i].cells
    ensures r.Success? && fieldNames.Some? && |Missing(fieldNames.value, Names(frame))| == 0 ==>
      forall i :: 0 <= i < |r.value| ==> r.value[i] in frame
  {
    if fieldNames.None? then Success(frame)
    else
      var fieldNames := fieldNames.value;
      var cols := Names(frame);
      if |fieldNames| != |cols| then
        Failure(RuntimeError("Number of field names (" + IntToString(|fieldNames|) + ") doesn't match "
          + "number of columns in data frame (" + IntToString(|cols|) + ")."))
      else
        var fmiss := Missing(fieldNames, cols);
        if |fmiss| > 0 then
          if |fmiss| == |fieldNames| then
            Success(Relabel(frame, fieldNames))
          else
            Failure(RuntimeError(IntToString(|fmiss|) + " fields missing from frame: " + ListRepr(fmiss)))
        else
          Success(Select(frame, fieldNames))
  }

  /** `frame.columns = names`: the cells stay where they are. */
  function Relabel<C>(frame: Frame<C>, names: seq<string>): (r: Frame<C>)
    requires |names| == |frame|
    ensures |r| == |frame| && Names(r) == names
    ensures forall i :: 0 <= i < |r| ==> r[i].cells == frame[i].cells
  {
    seq(|frame|, i requires 0 <= i < |frame| => Column(names[i], frame[i].cells))
  }

  /** `frame[names]`: the columns in the order of `names`. */
  function Select<C>(frame: Frame<C>, names: seq<string>): (r: Frame<C>)
    requires forall f :: f in names ==> f in Names(frame)
    ensures |r| == |names| && Names(r) == names
    ensures forall i :: 0 <= i < |r| ==> r[i] in frame
  {
    seq(|names|, i requires 0 <= i < |names| => ColumnNamed(frame, names[i]))
  }

  /** `str(list)` for a list of strings without quote characters. */
  function ListRepr(items: seq<string>): string {
    "[" + Join(seq(|items|, i requires 0 <= i < |items| => "'" + items[i] + "'"), ", ") + "]"
  }

  /** Applying the field names a second time changes nothing, provided the
      names are distinct. */
  lemma ApplyFieldNamesIdempotent<C>(fieldNames: Option<seq<string>>, frame: Frame<C>)
    requires fieldNames.Some? ==> Distinct(fieldNames.value)
    requires ApplyFieldNames(fieldNames, frame).Success?
    ensures var once := ApplyFieldNames(fieldNames, frame).value;
      ApplyFieldNames(fieldNames, once) == Success(once)
  {
    if fieldNames.Some? {
      var names := fieldNames.value;
      var once := ApplyFieldNames(fieldNames, frame).value;
      assert Names(once) == names;
      assert |Missing(names, Names(once))| == 0;
      SelectOwnNames(once);
    }
  }

  /** Selecting a frame's own (distinct) labels in their order is the
      frame itself. */
  lemma SelectOwnNames<C>(frame: Frame<C>)
    requires Distinct(Names(frame))
    ensures Select(frame, Names(frame)) == frame
  {
    var names := Names(frame);
    var r := Select(frame, names);
    forall i | 0 <= i < |frame|
      ensures r[i] == frame[i]
    {
      FirstNamed(frame, i);
    }
  }

  /** In a frame with distinct labels, column `i` is the one named by its
      label. */
  lemma {:induction false} FirstNamed<C>(frame: Frame<C>, i: nat)
    requires i < |frame| && Distinct(Names(frame))
    ensures ColumnNamed(frame, frame[i].name) == frame[i]
    decreases i
  {
    assert Names(frame)[i] == frame[i].name;
    if i > 0 {
      assert Names(frame)[0] != Names(frame)[i];
      var tail := Names(frame[1..]);
      assert Distinct(tail) by {
        forall a, b | 0 <= a < b < |tail|
          ensures tail[a] != tail[b]
        {
          assert tail[a] == Names(frame)[a + 1] && tail[b] == Names(frame)[b + 1];
        }
      }
      FirstNamed(frame[1..], i - 1);
    }
  }

  /** When every field name is a column label and labels and names are
      both distinct, the selection only reorders the columns: it is a
      permutation of the frame. */
  lemma SelectPermutes<C>(frame: Frame<C>, names: seq<string>)
    requires |names| == |frame| && Distinct(names) && Distinct(Names(frame))
    requires forall f :: f in names ==> f in Names(frame)
    ensures multiset(Select(frame, names)) == multiset(frame)
  {
    var r := Select(frame, names);
    assert Distinct(r) by {
      forall i, j | 0 <= i < j < |r|
        ensures r[i] != r[j]
      {
        assert Names(r)[i] != Names(r)[j];
      }
    }
    assert Distinct(frame) by {
      forall i, j | 0 <= i < j < |frame|
        ensures frame[i] != frame[j]
      {
        assert Names(frame)[i] != Names(frame)[j];
      }
    }
    var sr := set c | c in r;
    var sf := set c | c in frame;
    assert sr <= sf;
    DistinctCard(r);
    DistinctCard(frame);
    SubsetSameSize(sr, sf);
    DistinctMultiset(r);
    DistinctMultiset(frame);
    forall x
      ensures multiset(r)[x] == multiset(frame)[x]
    {
      assert x in r <==> x in sr;
      assert x in frame <==> x in sf;
    }
  }

  lemma {:induction false} DistinctCard<T>(s: seq<T>)
    requires Distinct(s)
    ensures |set x | x in s| == |s|
    decreases |s|
  {
    if |s| > 0 {
      var tail := s[1..];
      assert Distinct(tail) by {
        forall i, j | 0 <= i < j < |tail|
          ensures tail[i] != tail[j]
        {
          assert s[i + 1] != s[j + 1];
        }
      }
      DistinctCard(tail);
      assert s[0] !in tail by {
        forall j | 0 <= j < |tail|
          ensures tail[j] != s[0]
        {
          assert s[j + 1] != s[0];
        }
      }
      assert (set x | x in s) == {s[0]} + (set x | x in tail);
    }
  }

  lemma SubsetSameSize<T>(a: set<T>, b: set<T>)
    requires a <= b && |a| == |b|
    ensures a == b
  {
    if a != b {
      var x :| x in b && x !in a;
      SubsetCard(a, b - {x});
    }
  }

  lemma {:induction false} SubsetCard<T>(a: set<T>, b: set<T>)
    requires a <= b
    ensures |a| <= |b|
    decreases |b|
  {
    if a != {} {
      var x :| x in a;
      SubsetCard(a - {x}, b - {x});
    }
  }

  lemma DistinctMultiset<T>(s: seq<T>)
    requires Distinct(s)
    ensures forall x :: multiset(s)[x] == if x in s then 1 else 0
  {
    forall x
      ensures multiset(s)[x] == if x in s then 1 else 0
    {
      if x in s {
        var i :| 0 <= i < |s| && s[i] == x;
        assert s == s[..i] + [x] + s[i + 1..];
        assert x !in s[..i] && x !in s[i + 1..] by {
          forall j | 0 <= j < |s| && j != i
            ensures s[j] != x
          {
          }
        }
      }
    }
  }

  // ---------------------------------------------------------------------
  // func_serialize and the header flags
  // ---------------------------------------------------------------------

  /** The serializer's `dont_write_header` and `write_header_once` flags. */
  datatype HeaderFlags = HeaderFlags(dontWriteHeader: bool, writeHeaderOnce: bool)

  /** `serialize_header()`. */
  function SerializeHeader(flags: HeaderFlags): (r: HeaderFlags)
    ensures !r.dontWriteHeader && r.writeHeaderOnce
  {
    HeaderFlags(false, true)
  }

  /** The flags after a message is written: once `write_header_once` is
      set, no later message carries a header. */
  function AfterMessage(flags: HeaderFlags): (r: HeaderFlags)
    ensures r.writeHeaderOnce == flags.writeHeaderOnce
    ensures r.writeHeaderOnce ==> r.dontWriteHeader
    ensures !flags.writeHeaderOnce ==> r == flags
  {
    if flags.writeHeaderOnce then flags.(dontWriteHeader := true) else flags
  }

  /** The argument handed to `func_serialize`. */
  datatype PyObject<C> = DataFrame(frame: Frame<C>) | NotFrame(typeName: string)

  /** Some column of the frame has no cells, so `column[0]` raises. */
  predicate HasEmptyColumn<C>(frame: Frame<C>) {
    exists j :: 0 <= j < |frame| && |frame[j].cells| == 0
  }

  /** A column whose first cell is bytes has every cell decoded from UTF-8;
      any other column is left alone. */
  function DecodeColumn<C>(col: Column<C>, isBytes: C -> bool, decode: C -> C): (r: Column<C>)
    requires |col.cells| > 0
    ensures r.name == col.name && |r.cells| == |col.cells|
    ensures forall k :: 0 <= k < |col.cells| ==>
      r.cells[k] == if isBytes(col.cells[0]) then decode(col.cells[k]) else col.cells[k]
  {
    if isBytes(col.cells[0]) then col.(cells := seq(|col.cells|, k requires 0 <= k < |col.cells| => decode(col.cells[k])))
    else col
  }

  /** The column loop of `func_serialize`: `args_[c][0]` is read for every
      column in order, which raises `KeyError` on an empty column, and
      bytes columns are decoded. */
  function DecodeBytesColumns<C>(frame: Frame<C>, isBytes: C -> bool, decode: C -> C): (r: Result<Frame<C>>)
    ensures r.Failure? <==> HasEmptyColumn(frame)
    ensures r.Failure? ==> r.error == KeyError("0")
    ensures r.Success? ==> |r.value| == |frame| && Names(r.value) == Names(frame)
    ensures r.Success? ==> forall j :: 0 <= j < |frame| ==>
      |frame[j].cells| > 0 && r.value[j] == DecodeColumn(frame[j], isBytes, decode)
  {
    if |frame| == 0 then Success([])
    else if |frame[0].cells| == 0 then Failure(KeyError("0"))
    else
      assert forall j :: 1 <= j < |frame| ==> frame[j] == frame[1..][j - 1];
      assert HasEmptyColumn(frame) <==> HasEmptyColumn(frame[1..]) by {
        if HasEmptyColumn(frame) {
          var j :| 0 <= j < |frame| && |frame[j].cells| == 0;
          assert |frame[1..][j - 1].cells| == 0;
        }
      }
      var rest :- DecodeBytesColumns(frame[1..], isBytes, decode);
      var out := [DecodeColumn(frame[0], isBytes, decode)] + rest;
      assert forall j :: 1 <= j < |frame| ==> out[j] == rest[j - 1];
      assert Names(out) == Names(frame) by {
        forall j | 0 <= j < |frame|
          ensures Names(out)[j] == Names(frame)[j]
        {
          if j > 0 {
            assert Names(rest)[j - 1] == Names(frame[1..])[j - 1];
          }
        }
      }
      Success(out)
  }

  /** A frame without bytes columns comes out of the column loop as it
      went in. */
  lemma DecodeWithoutBytes<C>(frame: Frame<C>, isBytes: C -> bool, decode: C -> C)
    requires !HasEmptyColumn(frame)
    requires forall j :: 0 <= j < |frame| ==> !isBytes(frame[j].cells[0])
    ensures DecodeBytesColumns(frame, isBytes, decode) == Success(frame)
  {
    var r := DecodeBytesColumns(frame, isBytes, decode).value;
    forall j | 0 <= j < |frame|
      ensures r[j] == frame[j]
    {
      assert r[j] == DecodeColumn(frame[j], isBytes, decode);
    }
    assert r == frame;
  }

  /** `func_serialize(args)`: the CSV text of the frame (with a header
      unless `dont_write_header`), its platform line endings replaced by
      the serializer's, and the flags after the message. `toCsv` is
      `DataFrame.to_csv`; it takes the frame and whether to write the
      header. `isBytes` and `decode` are the bytes test and the UTF-8
      decoding of a cell. */
  function Serialize<C>(flags: HeaderFlags, fieldNames: Option<seq<string>>, obj: PyObject<C>,
                        isBytes: C -> bool, decode: C -> C,
                        toCsv: (Frame<C>, bool) -> string, platformNewline: string, newline: string)
    : (r: Result<(string, HeaderFlags)>)
    requires |platformNewline| > 0
    ensures obj.NotFrame? ==> r.Failure? && r.error.TypeError?
    ensures obj.DataFrame? ==>
      (r.Failure? <==> HasEmptyColumn(obj.frame) || ApplyFieldNames(fieldNames, obj.frame).Failure?)
    ensures obj.DataFrame? && HasEmptyColumn(obj.frame) ==> r == Failure(KeyError("0"))
    ensures r.Success? ==> r.value.1 == AfterMessage(flags)
    ensures obj.DataFrame? && r.Success? ==>
      r.value.0 == Replace(toCsv(Aligned(fieldNames, obj.frame, isBytes, decode).value, !flags.dontWriteHeader),
                           platformNewline, newline)
  {
    match obj
    case NotFrame(t) => Failure(TypeError("Pandas DataFrame required. Invalid type of '" + t + "' provided."))
    case DataFrame(frame) =>
      var decoded :- DecodeBytesColumns(frame, isBytes, decode);
      var frame' :- ApplyFieldNames(fieldNames, decoded);
      var out := toCsv(frame', !flags.dontWriteHeader);
      Success((Replace(out, platformNewline, newline), AfterMessage(flags)))
  }

  /** The frame handed to `to_csv`: bytes columns decoded, then the field
      names applied. */
  function Aligned<C>(fieldNames: Option<seq<string>>, frame: Frame<C>, isBytes: C -> bool, decode: C -> C)
    : (r: Result<Frame<C>>)
    ensures r.Failure? <==> HasEmptyColumn(frame) || ApplyFieldNames(fieldNames, frame).Failure?
    ensures r.Success? && fieldNames.Some? ==> Names(r.value) == fieldNames.value
    ensures r.Success? && fieldNames.None? ==> Names(r.value) == Names(frame)
  {
    var decoded :- DecodeBytesColumns(frame, isBytes, decode);
    ApplyFieldNames(fieldNames, decoded)
  }

  /** `func_serialize` fails on this argument whatever the header flags. */
  predicate MessageFails<C>(fieldNames: Option<seq<string>>, obj: PyObject<C>) {
    obj.NotFrame? || HasEmptyColumn(obj.frame) || ApplyFieldNames(fieldNames, obj.frame).Failure?
  }

  /** Successive `func_serialize` calls on one serializer: each call starts
      from the flags the previous one left, and the first error stops the
      run. */
  function SerializeAll<C>(flags: HeaderFlags, fieldNames: Option<seq<string>>, objs: seq<PyObject<C>>,
                           isBytes: C -> bool, decode: C -> C,
                           toCsv: (Frame<C>, bool) -> string, platformNewline: string, newline: string)
    : (r: Result<seq<string>>)
    requires |platformNewline| > 0
    ensures r.Success? ==> |r.value| == |objs|
    ensures r.Failure? <==> exists k :: 0 <= k < |objs| && MessageFails(fieldNames, objs[k])
    decreases |objs|
  {
    if |objs| == 0 then Success([])
    else
      var first :- Serialize(flags, fieldNames, objs[0], isBytes, decode, toCsv, platformNewline, newline);
      var rest :- SerializeAll(first.1, fieldNames, objs[1..], isBytes, decode, toCsv, platformNewline, newline);
      assert forall k :: 1 <= k < |objs| ==> objs[k] == objs[1..][k - 1];
      Success([first.0] + rest)
  }

  /** Message `k` of a run is the CSV text of its aligned frame, with the
      header exactly when `Headers` says message `k` carries one. */
  lemma {:induction false} SerializeAllHeaders<C>(flags: HeaderFlags, fieldNames: Option<seq<string>>,
                                                  objs: seq<PyObject<C>>, isBytes: C -> bool, decode: C -> C,
                                                  toCsv: (Frame<C>, bool) -> string,
                                                  platformNewline: string, newline: string)
    requires |platformNewline| > 0
    requires SerializeAll(flags, fieldNames, objs, isBytes, decode, toCsv, platformNewline, newline).Success?
    ensures var out := SerializeAll(flags, fieldNames, objs, isBytes, decode, toCsv, platformNewline, newline).value;
      forall k :: 0 <= k < |objs| ==>
        objs[k].DataFrame? && Aligned(fieldNames, objs[k].frame, isBytes, decode).Success?
        && out[k] == Replace(toCsv(Aligned(fieldNames, objs[k].frame, isBytes, decode).value,
                                   Headers(flags, |objs|)[k]), platformNewline, newline)
    decreases |objs|
  {
    if |objs| > 0 {
      var first := Serialize(flags, fieldNames, objs[0], isBytes, decode, toCsv, platformNewline, newline).value;
      SerializeAllHeaders(first.1, fieldNames, objs[1..], isBytes, decode, toCsv, platformNewline, newline);
      assert Headers(flags, |objs|) == [!flags.dontWriteHeader] + Headers(first.1, |objs| - 1);
      forall k | 1 <= k < |objs|
        ensures objs[k] == objs[1..][k - 1]
      {
      }
    }
  }

  /** After `serialize_header`, a run writes the header into its first
      message and into no other. */
  lemma HeaderOnlyInFirst<C>(flags: HeaderFlags, fieldNames: Option<seq<string>>, objs: seq<PyObject<C>>,
                             isBytes: C -> bool, decode: C -> C,
                             toCsv: (Frame<C>, bool) -> string, platformNewline: string, newline: string)
    requires |platformNewline| > 0 && |objs| > 0
    requires SerializeAll(SerializeHeader(flags), fieldNames, objs, isBytes, decode, toCsv, platformNewline, newline).Success?
    ensures var out := SerializeAll(SerializeHeader(flags), fieldNames, objs, isBytes, decode, toCsv, platformNewline, newline).value;
      forall k :: 0 <= k < |objs| ==>
        out[k] == Replace(toCsv(Aligned(fieldNames, objs[k].frame, isBytes, decode).value, k == 0),
                          platformNewline, newline)
  {
    SerializeAllHeaders(SerializeHeader(flags), fieldNames, objs, isBytes, decode, toCsv, platformNewline, newline);
    HeaderWrittenOnce(flags, |objs|);
    var hs := Headers(SerializeHeader(flags), |objs|);
    assert forall k :: 0 <= k < |objs| ==> hs[k] == (k == 0);
  }

  /** Whether each of `n` successive messages written from `flags` carries
      a header. */
  function Headers(flags: HeaderFlags, n: nat): (hs: seq<bool>)
    ensures |hs| == n
    decreases n
  {
    if n == 0 then [] else [!flags.dontWriteHeader] + Headers(AfterMessage(flags), n - 1)
  }

  /** After `serialize_header`, the first message carries the header and
      none after it does. */
  lemma HeaderWrittenOnce(flags: HeaderFlags, n: nat)
    requires n > 0
    ensures Headers(SerializeHeader(flags), n) == [true] + seq(n - 1, i => false)
  {
    var after := AfterMessage(SerializeHeader(flags));
    assert after == HeaderFlags(true, true);
    SteadyHeaders(after, n - 1);
  }

  /** Without `write_header_once`, and once the header has been written
      under it, every message makes the same choice. */
  lemma {:induction false} SteadyHeaders(flags: HeaderFlags, n: nat)
    requires !flags.writeHeaderOnce || flags.dontWriteHeader
    ensures Headers(flags, n) == seq(n, i => !flags.dontWriteHeader)
  {
    if n > 0 {
      assert AfterMessage(flags) == flags;
      SteadyHeaders(flags, n - 1);
    }
  }

  // ---------------------------------------------------------------------
  // concatenate
  // ---------------------------------------------------------------------

  /** Column `j`'s cells of every frame, one frame after another. */
  function StackedCells<C>(frames: seq<Frame<C>>, j: nat): seq<C>
    requires forall i :: 0 <= i < |frames| ==> j < |frames[i]|
  {
    if |frames| == 0 then [] else frames[0][j].cells + StackedCells(frames[1..], j)
  }

  predicate SameColumns<C>(frames: seq<Frame<C>>) {
    forall i :: 0 <= i < |frames| ==> Names(frames[i]) == Names(frames[0])
  }

  /** `concatenate(objects)` for frames: nothing for no frames, otherwise
      one frame with the rows of each in turn (`pandas.concat` with
      `ignore_index`). */
  function Concatenate<C>(frames: seq<Frame<C>>): (r: seq<Frame<C>>)
    requires SameColumns(frames)
    ensures |frames| == 0 <==> r == []
    ensures |frames| > 0 ==> |r| == 1 && Names(r[0]) == Names(frames[0])
    ensures |frames| > 0 ==> forall j :: 0 <= j < |r[0]| ==> r[0][j].cells == StackedCells(frames, j)
  {
    if |frames| == 0 then []
    else
      var first := frames[0];
      forall i | 0 <= i < |frames|
        ensures |frames[i]| == |first|
      {
        assert |Names(frames[i])| == |Names(first)|;
      }
      var stacked := Stack(frames);
      [stacked]
  }

  /** The frames stacked row-wise, column by column. */
  function Stack<C>(frames: seq<Frame<C>>): (r: Frame<C>)
    requires |frames| > 0 && SameColumns(frames)
    requires forall i :: 0 <= i < |frames| ==> |frames[i]| == |frames[0]|
    ensures Names(r) == Names(frames[0])
  {
    seq(|frames[0]|, j requires 0 <= j < |frames[0]| => Column(frames[0][j].name, StackedCells(frames, j)))
  }

  /** Column `j` of two runs of frames stacked together is the column of
      the first run followed by that of the second. */
  lemma {:induction false} StackedCellsAppend<C>(a: seq<Frame<C>>, b: seq<Frame<C>>, j: nat)
    requires forall i :: 0 <= i < |a| ==> j < |a[i]|
    requires forall i :: 0 <= i < |b| ==> j < |b[i]|
    ensures StackedCells(a + b, j) == StackedCells(a, j) + StackedCells(b, j)
    decreases |a|
  {
    if |a| == 0 {
      assert a + b == b;
    } else {
      assert (a + b)[1..] == a[1..] + b;
      StackedCellsAppend(a[1..], b, j);
    }
  }

  /** Concatenating a single frame gives that frame back. */
  lemma ConcatenateSingle<C>(frame: Frame<C>)
    ensures Concatenate([frame]) == [frame]
  {
    var r := Concatenate([frame])[0];
    assert |r| == |Names(r)| == |frame|;
    forall j | 0 <= j < |frame|
      ensures r[j] == frame[j]
    {
      assert [frame][0] == frame && [frame][1..] == [];
      assert StackedCells([frame], j) == frame[j].cells + StackedCells<C>([], j);
      assert Names(r)[j] == Names(frame)[j];
    }
    assert r == frame;
  }

  /** Concatenating two runs separately and then their results is the same
      as concatenating both runs at once. */
  lemma ConcatenateAssociative<C>(a: seq<Frame<C>>, b: seq<Frame<C>>)
    requires |a| > 0 && |b| > 0 && SameColumns(a + b)
    ensures SameColumns(a) && SameColumns(b)
    ensures SameColumns(Concatenate(a) + Concatenate(b))
    ensures Concatenate(Concatenate(a) + Concatenate(b)) == Concatenate(a + b)
  {
    assert forall i :: 0 <= i < |a| ==> a[i] == (a + b)[i];
    assert forall i :: 0 <= i < |b| ==> b[i] == (a + b)[|a| + i];
    var sa := Concatenate(a)[0];
    var sb := Concatenate(b)[0];
    var pair := Concatenate(a) + Concatenate(b);
    assert pair == [sa, sb];
    var whole := Concatenate(a + b)[0];
    var left := Concatenate(pair)[0];
    forall i | 0 <= i < |a + b|
      ensures |(a + b)[i]| == |a[0]|
    {
      assert |Names((a + b)[i])| == |Names(a[0])|;
    }
    assert |left| == |Names(left)| == |Names(whole)| == |whole|;
    forall j | 0 <= j < |left|
      ensures left[j] == whole[j]
    {
      assert Names(left)[j] == Names(whole)[j];
      assert |sa| == |Names(sa)| && |sb| == |Names(sb)| && |Names(sb)| == |Names(b[0])|;
      var one: seq<Frame<C>> := [sb];
      var none: seq<Frame<C>> := [];
      assert pair[0] == sa && pair[1..] == one && one[0] == sb && one[1..] == none;
      assert StackedCells(one, j) == sb[j].cells + StackedCells(none, j);
      assert StackedCells(pair, j) == sa[j].cells + StackedCells(one, j);
      StackedCellsAppend(a, b, j);
    }
    assert left == whole;
  }
}
