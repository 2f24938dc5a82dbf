/** The block writers of the model drivers (yggdrasil/drivers/ModelDriver.py
    and the C++ override in yggdrasil/drivers/CPPModelDriver.py): each
    fills the opening template of a language's `function_param` table,
    indents the body lines and closes the block. The templates are filled
    with Python's `str.format`, modelled here for plain named fields. */
module CodeGen {
  import opened Base
  import opened Strings

  // ---------------------------------------------------------------------
  // str.format with keyword arguments
  // ---------------------------------------------------------------------

  function Prepend(p: string, r: Result<string>): (r': Result<string>)
    ensures r'.Success? <==> r.Success?
    ensures r'.Success? ==> r'.value == p + r.value
    ensures r'.Failure? ==> r' == r
  {
    if r.Success? then Success(p + r.value) else r
  }

  /** One unit of a format template: literal text, a replacement field,
      or the error an ill-formed template raises at that point. */
  datatype Piece = Literal(text: string) | Field(name: string) | Malformed(error: PyError)

  datatype Lexed = Lexed(piece: Piece, rest: string)

  /** The next unit of a non-empty template: `{{` and `}}` stand for one
      brace; `{name}` is a field, where an empty or numeric name asks for a
      positional argument that is never there; an unpaired brace is a
      ValueError. */
  function NextPiece(t: string): (r: Lexed)
    requires |t| > 0
    ensures |r.rest| < |t|
  {
    if t[0] == '{' then
      if |t| == 1 then Lexed(Malformed(ValueError("Single '{' encountered in format string")), "")
      else if t[1] == '{' then Lexed(Literal("{"), t[2..])
      else
        var j := IndexOf(t[1..], '}');
        if j == |t| - 1 then Lexed(Malformed(ValueError("expected '}' before end of string")), "")
        else
          var name := t[1..j + 1];
          if '{' in name then Lexed(Malformed(ValueError("unexpected '{' in field name")), "")
          else if |name| == 0 || AllDigits(name) then Lexed(Malformed(IndexError), "")
          else Lexed(Field(name), t[j + 2..])
    else if t[0] == '}' then
      if |t| > 1 && t[1] == '}' then Lexed(Literal("}"), t[2..])
      else Lexed(Malformed(ValueError("Single '}' encountered in format string")), "")
    else Lexed(Literal([t[0]]), t[1..])
  }

  /** `template.format(**args)`, unit by unit from the left, so the first
      missing argument or ill-formed unit is the error raised. */
  function Format(template: string, args: map<string, string>): Result<string>
    decreases |template|
  {
    if |template| == 0 then Success("")
    else
      var next := NextPiece(template);
      match next.piece
      case Literal(text) => Prepend(text, Format(next.rest, args))
      case Field(name) =>
        if name in args then Prepend(args[name], Format(next.rest, args)) else Failure(KeyError(name))
      case Malformed(e) => Failure(e)
  }

  predicate NoBraces(s: string) {
    '{' !in s && '}' !in s
  }

  /** Literal text as a template: every brace doubled. */
  function Escape(s: string): (t: string)
    ensures NoBraces(s) ==> t == s
    ensures |t| >= |s|
  {
    if |s| == 0 then ""
    else if s[0] == '{' || s[0] == '}' then [s[0], s[0]] + Escape(s[1..])
    else [s[0]] + Escape(s[1..])
  }

  lemma NextPieceEscaped(s: string, rest: string)
    requires |s| > 0
    ensures NextPiece(Escape(s) + rest) == Lexed(Literal([s[0]]), Escape(s[1..]) + rest)
  {
    if s[0] == '{' || s[0] == '}' {
      EscapeBrace(s, rest);
      NextPieceDoubled(s[0], Escape(s[1..]) + rest);
    } else {
      EscapePlain(s, rest);
      NextPiecePlain(s[0], Escape(s[1..]) + rest);
    }
  }

  lemma EscapeBrace(s: string, rest: string)
    requires |s| > 0 && (s[0] == '{' || s[0] == '}')
    ensures Escape(s) + rest == [s[0], s[0]] + (Escape(s[1..]) + rest)
  {
  }

  lemma EscapePlain(s: string, rest: string)
    requires |s| > 0 && s[0] != '{' && s[0] != '}'
    ensures Escape(s) + rest == [s[0]] + (Escape(s[1..]) + rest)
  {
  }

  lemma NextPieceDoubled(c: char, rest: string)
    requires c == '{' || c == '}'
    ensures NextPiece([c, c] + rest) == Lexed(Literal([c]), rest)
  {
    var t := [c, c] + rest;
    assert t[0] == c && t[1] == c;
    assert t[2..] == rest;
  }

  lemma NextPiecePlain(c: char, rest: string)
    requires c != '{' && c != '}'
    ensures NextPiece([c] + rest) == Lexed(Literal([c]), rest)
  {
    var t := [c] + rest;
    assert t[0] == c;
    assert t[1..] == rest;
  }

  /** Escaped text formats to itself, whatever follows it. */
  lemma {:induction false} FormatEscaped(s: string, rest: string, args: map<string, string>)
    ensures Format(Escape(s) + rest, args) == Prepend(s, Format(rest, args))
    decreases |s|
  {
    if |s| == 0 {
      assert Escape(s) + rest == rest;
      if Format(rest, args).Success? {
        assert s + Format(rest, args).value == Format(rest, args).value;
      }
    } else {
      var t := Escape(s) + rest;
      NextPieceEscaped(s, rest);
      assert |t| > 0;
      assert Format(t, args) == Prepend([s[0]], Format(Escape(s[1..]) + rest, args));
      FormatEscaped(s[1..], rest, args);
      if Format(rest, args).Success? {
        ConsAppend(s, Format(rest, args).value);
      }
    }
  }

  /** A template without fields formats to its literal text. */
  lemma FormatLiteral(s: string, args: map<string, string>)
    ensures Format(Escape(s), args) == Success(s)
  {
    FormatEscaped(s, "", args);
    assert Escape(s) + "" == Escape(s);
    assert s + "" == s;
  }

  /** A plain field name: non-empty, not a position, without braces. */
  predicate FieldName(k: string) {
    |k| > 0 && !AllDigits(k) && NoBraces(k)
  }

  lemma NextPieceField(k: string, rest: string)
    requires FieldName(k)
    ensures NextPiece("{" + k + "}" + rest) == Lexed(Field(k), rest)
  {
    var t := "{" + k + "}" + rest;
    var u := t[1..];
    assert u == k + "}" + rest;
    assert forall i :: 0 <= i < |k| ==> u[i] == k[i];
    IndexOfFirst(u, '}', |k|);
    assert t[1..|k| + 1] == k;
    assert t[|k| + 2..] == rest;
  }

  /** A field is replaced by its argument, or fails on a missing key. */
  lemma FormatField(k: string, rest: string, args: map<string, string>)
    requires FieldName(k)
    ensures Format("{" + k + "}" + rest, args)
         == if k in args then Prepend(args[k], Format(rest, args)) else Failure(KeyError(k))
  {
    NextPieceField(k, rest);
  }

  // ---------------------------------------------------------------------
  // Block writers
  // ---------------------------------------------------------------------

  /** A `function_param` table: template names to templates. */
  type FunctionParam = map<string, string>

  /** A block body: one line or a list of lines. */
  datatype Content = One(line: string) | Many(lines: seq<string>)

  /** `if not isinstance(x, (list, tuple)): x = [x]`. */
  function Lines(c: Content): seq<string> {
    match c
    case One(line) => [line]
    case Many(lines) => lines
  }

  function LanguageText(language: Option<string>): string {
    if language.Some? then language.value else "None"
  }

  /** The error every writer raises for a language without a table (the
      two halves of the message are joined without a space). */
  function NoTable(language: Option<string>): PyError {
    NotImplementedError("function_param attribute not set forlanguage '" + LanguageText(language) + "'")
  }

  /** `fp['indent'] + x` for every line; the indent is looked up only when
      there is a line to indent. */
  function Indented(fp: FunctionParam, xs: seq<string>): (r: Result<seq<string>>)
    ensures r.Success? <==> |xs| == 0 || "indent" in fp
    ensures r.Failure? ==> r.error == KeyError("indent")
    ensures r.Success? ==> |r.value| == |xs|
    ensures r.Success? && |xs| > 0 ==> forall i :: 0 <= i < |xs| ==> r.value[i] == fp["indent"] + xs[i]
  {
    if |xs| == 0 then Success([])
    else if "indent" !in fp then Failure(KeyError("indent"))
    else Success(seq(|xs|, i requires 0 <= i < |xs| => fp["indent"] + xs[i]))
  }

  /** `fp.get(endKey, fp['block_end'])`: the default is evaluated first,
      so a table without `block_end` fails even when it has `endKey`. */
  function BlockEnd(fp: FunctionParam, endKey: string): (r: Result<string>)
    ensures r.Success? <==> "block_end" in fp
    ensures r.Failure? ==> r.error == KeyError("block_end")
    ensures r.Success? ==> r.value == (if endKey in fp then fp[endKey] else fp["block_end"])
  {
    if "block_end" !in fp then Failure(KeyError("block_end"))
    else if endKey in fp then Success(fp[endKey])
    else Success(fp["block_end"])
  }

  function Template(fp: FunctionParam, key: string): (r: Result<string>)
    ensures r.Success? <==> key in fp
    ensures r.Failure? ==> r.error == KeyError(key)
  {
    if key in fp then Success(fp[key]) else Failure(KeyError(key))
  }

  /** The shape every block writer shares: the filled opening template,
      the indented body, then the closing line. */
  function WriteBlock(table: Option<FunctionParam>, language: Option<string>, beginKey: string,
                      fields: map<string, string>, contents: Content, endKey: string): (r: Result<seq<string>>)
    ensures table.None? ==> r == Failure(NoTable(language))
    ensures r.Success? <==>
      && table.Some? && beginKey in table.value
      && Format(table.value[beginKey], fields).Success?
      && (|Lines(contents)| == 0 || "indent" in table.value)
      && "block_end" in table.value
    ensures r.Success? ==>
      && |r.value| == |Lines(contents)| + 2
      && r.value[0] == Format(table.value[beginKey], fields).value
      && r.value[1..|r.value| - 1] == Indented(table.value, Lines(contents)).value
      && r.value[|r.value| - 1] == BlockEnd(table.value, endKey).value
  {
    if table.None? then Failure(NoTable(language))
    else
      var fp := table.value;
      var template :- Template(fp, beginKey);
      var begin :- Format(template, fields);
      var body :- Indented(fp, Lines(contents));
      var end :- BlockEnd(fp, endKey);
      var out := [begin] + body + [end];
      assert out[1..|out| - 1] == body;
      Success(out)
  }

  /** `write_if_block(cond, block_contents)`. */
  function WriteIfBlock(table: Option<FunctionParam>, language: Option<string>, cond: string, contents: Content): Result<seq<string>> {
    WriteBlock(table, language, "if_begin", map["cond" := cond], contents, "if_end")
  }

  /** `write_for_loop(iter_var, iter_begin, iter_end, loop_contents)`, the
      bounds given as the text `str` makes of them. */
  function WriteForLoop(table: Option<FunctionParam>, language: Option<string>, iterVar: string,
                        iterBegin: string, iterEnd: string, contents: Content): Result<seq<string>> {
    WriteBlock(table, language, "for_begin",
               map["iter_var" := iterVar, "iter_begin" := iterBegin, "iter_end" := iterEnd], contents, "for_end")
  }

  /** `write_while_loop(cond, loop_contents)`. */
  function WriteWhileLoop(table: Option<FunctionParam>, language: Option<string>, cond: string, contents: Content): Result<seq<string>> {
    WriteBlock(table, language, "while_begin", map["cond" := cond], contents, "while_end")
  }

  /** Recovers a block's body from its lines: drop the opening and the
      closing line and the indent in front of every other line. */
  function BlockBody(indent: string, block: seq<string>): seq<string>
    requires |block| >= 2
  {
    var inner := block[1..|block| - 1];
    seq(|inner|, i requires 0 <= i < |inner| => if StartsWith(inner[i], indent) then inner[i][|indent|..] else inner[i])
  }

  /** The writers lose nothing: a block's body gives back the contents it
      was written from. */
  lemma BlockBodyOfWrite(table: Option<FunctionParam>, language: Option<string>, beginKey: string,
                         fields: map<string, string>, contents: Content, endKey: string)
    requires WriteBlock(table, language, beginKey, fields, contents, endKey).Success?
    requires |Lines(contents)| > 0
    ensures BlockBody(table.value["indent"], WriteBlock(table, language, beginKey, fields, contents, endKey).value)
         == Lines(contents)
  {
    var xs := Lines(contents);
    var indent := table.value["indent"];
    var body := BlockBody(indent, WriteBlock(table, language, beginKey, fields, contents, endKey).value);
    forall i | 0 <= i < |xs|
      ensures body[i] == xs[i]
    {
      assert (indent + xs[i])[..|indent|] == indent;
      assert (indent + xs[i])[|indent|..] == xs[i];
    }
  }

  // ---------------------------------------------------------------------
  // try/except
  // ---------------------------------------------------------------------

  /** `write_try_except(try_contents, except_contents, error_var,
      error_type)`: `try_begin`, the indented try body, the filled
      `try_except` line, the indented except body, then the closing line. */
  function WriteTryExcept(table: Option<FunctionParam>, language: Option<string>, tryContents: Content,
                          exceptContents: Content, errorVar: string, errorType: Option<string>): (r: Result<seq<string>>)
    ensures table.None? ==> r == Failure(NoTable(language))
    ensures table.Some? && "try_begin" !in table.value ==> r == Failure(KeyError("try_begin"))
    ensures r.Success? <==>
      && table.Some? && "try_begin" in table.value
      && Indented(table.value, Lines(tryContents)).Success?
      && CatchLine(table.value, errorVar, errorType).Success?
      && Indented(table.value, Lines(exceptContents)).Success?
      && BlockEnd(table.value, "try_end").Success?
    ensures r.Success? ==>
      var fp := table.value;
      var nt := |Lines(tryContents)|;
      && |r.value| == nt + |Lines(exceptContents)| + 3
      && r.value[0] == fp["try_begin"]
      && r.value[1..nt + 1] == Indented(fp, Lines(tryContents)).value
      && r.value[nt + 1] == CatchLine(fp, errorVar, errorType).value
      && r.value[nt + 2..|r.value| - 1] == Indented(fp, Lines(exceptContents)).value
      && r.value[|r.value| - 1] == BlockEnd(fp, "try_end").value
  {
    if table.None? then Failure(NoTable(language))
    else
      var fp := table.value;
      var begin :- Template(fp, "try_begin");
      var tryBody :- Indented(fp, Lines(tryContents));
      var catchLine :- CatchLine(fp, errorVar, errorType);
      var exceptBody :- Indented(fp, Lines(exceptContents));
      var end :- BlockEnd(fp, "try_end");
      SecondAndFourthOf([begin], tryBody, [catchLine], exceptBody, [end]);
      Success([begin] + tryBody + [catchLine] + exceptBody + [end])
  }

  /** The filled `try_except` line. Without an error type the table's
      `try_error_type` is used, and without that the text `None`. */
  function CatchLine(fp: FunctionParam, errorVar: string, errorType: Option<string>): Result<string> {
    var template :- Template(fp, "try_except");
    Format(template, map["error_var" := errorVar, "error_type" := ErrorTypeText(fp, errorType)])
  }

  /** The error type the catch line names. */
  function ErrorTypeText(fp: FunctionParam, errorType: Option<string>): string {
    if errorType.Some? then errorType.value
    else if "try_error_type" in fp then fp["try_error_type"]
    else "None"
  }

  /** The C++ override: naming `...` as either the type or the variable
      asks for a catch-all, written as an empty type and `...` as the
      variable. */
  function CppCatchArgs(errorVar: string, errorType: Option<string>): (r: (string, Option<string>))
    ensures errorType == Some("...") || errorVar == "..." ==> r == ("...", Some(""))
    ensures errorType != Some("...") && errorVar != "..." ==> r == (errorVar, errorType)
  {
    if errorType == Some("...") || errorVar == "..." then ("...", Some("")) else (errorVar, errorType)
  }

  function CppWriteTryExcept(table: Option<FunctionParam>, language: Option<string>, tryContents: Content,
                             exceptContents: Content, errorVar: string, errorType: Option<string>): Result<seq<string>> {
    var (v, t) := CppCatchArgs(errorVar, errorType);
    WriteTryExcept(table, language, tryContents, exceptContents, v, t)
  }

  // ---------------------------------------------------------------------
  // The C and C++ tables
  // ---------------------------------------------------------------------

  /** The block templates of the C driver's table. */
  const CTable: FunctionParam := map[
    "indent" := "  ",
    "block_end" := "}",
    "if_begin" := "if ({cond}) {{",
    "if_elif" := "}} else if ({cond}) {{",
    "if_else" := "}} else {{",
    "for_begin" := "for ({iter_var} = {iter_begin}; {iter_var} < {iter_end}; {iter_var}++) {{",
    "while_begin" := "while ({cond}) {{",
    "break" := "break;"]

  /** The C++ table: the C table with the try/catch templates added. */
  const CppTable: FunctionParam := CTable + map[
    "try_begin" := "try {",
    "try_error_type" := "const std::exception&",
    "try_except" := "}} catch ({error_type} {error_var}) {{"]

  function Indent2(xs: seq<string>): (r: seq<string>)
    ensures |r| == |xs|
  {
    seq(|xs|, i requires 0 <= i < |xs| => "  " + xs[i])
  }

  /** Text without braces formats to itself, whatever follows it. */
  lemma FormatPlain(s: string, rest: string, args: map<string, string>)
    requires NoBraces(s)
    ensures Format(s + rest, args) == Prepend(s, Format(rest, args))
  {
    FormatEscaped(s, rest, args);
  }

  /** `{{` and `}}` format to one brace. */
  lemma FormatDoubled(c: char, rest: string, args: map<string, string>)
    requires c == '{' || c == '}'
    ensures Format([c, c] + rest, args) == Prepend([c], Format(rest, args))
  {
    NextPieceDoubled(c, rest);
  }

  /** A template holding one field between two pieces of brace-free text,
      ending in an escaped opening brace. */
  lemma FormatOneField(pre: string, k: string, post: string, args: map<string, string>)
    requires NoBraces(pre) && NoBraces(post) && FieldName(k) && k in args
    ensures Format(pre + ("{" + k + "}" + (post + "{{")), args) == Success(pre + args[k] + post + "{")
  {
    FormatPlain(pre, "{" + k + "}" + (post + "{{"), args);
    FormatField(k, post + "{{", args);
    FormatPlain(post, "{{", args);
    FormatDoubled('{', "", args);
    assert ['{', '{'] + "" == "{{";
    assert Format("", args) == Success("");
    assert ['{'] + "" == "{";
    Assoc(args[k], post, "{");
    Assoc(pre, args[k], post + "{");
    Assoc(pre + args[k], post, "{");
  }

  lemma Assoc(a: string, b: string, c: string)
    ensures a + (b + c) == a + b + c
  {
  }

  lemma CondIsAField()
    ensures FieldName("cond")
  {
    assert !IsDigit("cond"[0]);
  }

  lemma ErrorFieldsAreFields()
    ensures FieldName("error_type") && FieldName("error_var")
  {
    assert !IsDigit("error_type"[0]);
    assert !IsDigit("error_var"[0]);
  }

  /** The C table's indent is two spaces, its blocks close with `}` and
      have no closing templates of their own. */
  lemma CTableBlocks()
    ensures "indent" in CTable && CTable["indent"] == "  "
    ensures "block_end" in CTable && CTable["block_end"] == "}"
    ensures "if_end" !in CTable && "while_end" !in CTable && "for_end" !in CTable && "try_begin" !in CTable
  {
  }

  lemma CIfTemplate()
    ensures CTable["if_begin"] == "if (" + ("{" + "cond" + "}" + (") " + "{{"))
    ensures NoBraces("if (") && NoBraces(") ")
  {
  }

  lemma CWhileTemplate()
    ensures CTable["while_begin"] == "while (" + ("{" + "cond" + "}" + (") " + "{{"))
    ensures NoBraces("while (")
  {
  }

  lemma IndentedByTwo(fp: FunctionParam, xs: seq<string>)
    requires "indent" in fp && fp["indent"] == "  "
    ensures Indented(fp, xs) == Success(Indent2(xs))
  {
  }

  /** A C `if` block, whatever the condition text: `if (cond) {`, the
      lines indented by two spaces, then `}`. */
  lemma CIfBlock(cond: string, contents: Content)
    ensures var r := WriteIfBlock(Some(CTable), Some("c"), cond, contents);
      && r.Success?
      && |r.value| == |Lines(contents)| + 2
      && r.value[0] == "if (" + cond + ") {"
      && r.value[1..|r.value| - 1] == Indent2(Lines(contents))
      && r.value[|r.value| - 1] == "}"
  {
    CTableBlocks();
    CIfTemplate();
    CondIsAField();
    FormatOneField("if (", "cond", ") ", map["cond" := cond]);
    Assoc("if (", cond, ") ");
    IndentedByTwo(CTable, Lines(contents));
  }

  /** A C `while` loop, whatever the condition text. */
  lemma CWhileLoop(cond: string, contents: Content)
    ensures var r := WriteWhileLoop(Some(CTable), Some("c"), cond, contents);
      && r.Success?
      && |r.value| == |Lines(contents)| + 2
      && r.value[0] == "while (" + cond + ") {"
      && r.value[1..|r.value| - 1] == Indent2(Lines(contents))
      && r.value[|r.value| - 1] == "}"
  {
    CTableBlocks();
    CIfTemplate();
    CWhileTemplate();
    CondIsAField();
    FormatOneField("while (", "cond", ") ", map["cond" := cond]);
    IndentedByTwo(CTable, Lines(contents));
  }

  /** The C table has no try/catch templates. */
  lemma CHasNoTry(tryContents: Content, exceptContents: Content, errorVar: string, errorType: Option<string>)
    ensures WriteTryExcept(Some(CTable), Some("c"), tryContents, exceptContents, errorVar, errorType)
         == Failure(KeyError("try_begin"))
  {
    CTableBlocks();
  }

  lemma CppTableTry()
    ensures "try_except" in CppTable && "try_error_type" in CppTable
    ensures CppTable["try_except"] == "}} catch ({error_type} {error_var}) {{"
    ensures CppTable["try_error_type"] == "const std::exception&"
  {
  }

  lemma CatchTemplateParts()
    ensures "}} catch ({error_type} {error_var}) {{"
         == ['}', '}'] + (" catch (" + ("{" + "error_type" + "}" + (" " + ("{" + "error_var" + "}" + (") " + "{{")))))
    ensures NoBraces(" catch (") && NoBraces(" ") && NoBraces(") ")
  {
  }

  /** The C++ catch line names the error type and the variable the C++
      override passes on. */
  lemma CppCatchLine(errorVar: string, errorType: Option<string>)
    ensures var (v, t) := CppCatchArgs(errorVar, errorType);
      CatchLine(CppTable, v, t) == Success("} catch (" + ErrorTypeText(CppTable, t) + " " + v + ") {")
  {
    var (v, t) := CppCatchArgs(errorVar, errorType);
    CppTableTry();
    CatchTemplateParts();
    ErrorFieldsAreFields();
    var et := ErrorTypeText(CppTable, t);
    var args := map["error_var" := v, "error_type" := et];
    var tail := "{" + "error_var" + "}" + (") " + "{{");
    FormatDoubled('}', " catch (" + ("{" + "error_type" + "}" + (" " + tail)), args);
    FormatPlain(" catch (", "{" + "error_type" + "}" + (" " + tail), args);
    FormatField("error_type", " " + tail, args);
    FormatOneField(" ", "error_var", ") ", args);
    assert Format(" " + tail, args) == Success(" " + v + ") " + "{");
    CatchText(et, v);
  }

  lemma CatchText(et: string, v: string)
    ensures ['}'] + (" catch (" + (et + (" " + v + ") " + "{"))) == "} catch (" + et + " " + v + ") {"
  {
  }

  /** By default the C++ catch line catches `const std::exception&` under
      the given name. */
  lemma CppCatchDefault(errorVar: string)
    requires errorVar != "..."
    ensures CatchLine(CppTable, errorVar, None) == Success("} catch (const std::exception& " + errorVar + ") {")
  {
    CppCatchLine(errorVar, None);
    CppTableTry();
    assert ErrorTypeText(CppTable, None) == "const std::exception&";
    CatchDefaultText(errorVar);
  }

  lemma CatchDefaultText(v: string)
    ensures "} catch (" + "const std::exception&" + " " + v + ") {" == "} catch (const std::exception& " + v + ") {"
  {
    assert "} catch (" + "const std::exception&" + " " == "} catch (const std::exception& ";
  }

  /** Naming `...` as the error type or the variable gives the catch-all
      `} catch ( ...) {`. */
  lemma CppCatchAll(errorVar: string, errorType: Option<string>)
    requires errorType == Some("...") || errorVar == "..."
    ensures CatchLine(CppTable, CppCatchArgs(errorVar, errorType).0, CppCatchArgs(errorVar, errorType).1)
         == Success("} catch ( ...) {")
  {
    CppCatchLine(errorVar, errorType);
    assert ErrorTypeText(CppTable, Some("")) == "";
    CatchAllText();
  }

  lemma CatchAllText()
    ensures "} catch (" + "" + " " + "..." + ") {" == "} catch ( ...) {"
  {
  }
}
