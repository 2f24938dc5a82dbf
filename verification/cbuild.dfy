/** Build policy of the C and C++ drivers (yggdrasil/drivers/CModelDriver.py,
    yggdrasil/drivers/CPPModelDriver.py): the link language the compiler
    and linker calls choose, the `LD_LIBRARY_PATH` edit the C driver makes
    to a model's environment, the C++ standard flag, and the rename of the
    interface library when the C++ driver registers. */
module CBuild {
  import opened Base
  import opened Strings
  import opened Paths
  import Driver

  // ---------------------------------------------------------------------
  // CCompilerBase.call and CModelDriver.call_linker
  // ---------------------------------------------------------------------

  /** A keyword argument that may be left out, or passed (possibly as
      `None`). */
  datatype KwArg = Unset | Given(value: Option<string>)

  /** The keyword arguments of a compiler call that decide how it links. */
  datatype CallKwargs = CallKwargs(dontLink: bool, linkerLanguage: KwArg)

  /** `CCompilerBase.call`: unless told not to link, a C compile links as
      C++ when no link language was passed; `setdefault` keeps a language
      that was passed, even an explicit `None`. */
  function CompilerCall(kw: CallKwargs): (r: CallKwargs)
    ensures r.dontLink == kw.dontLink
    ensures kw.dontLink || kw.linkerLanguage.Given? ==> r == kw
    ensures !kw.dontLink ==> r.linkerLanguage.Given?
    ensures !kw.dontLink && kw.linkerLanguage.Unset? ==> r.linkerLanguage == Given(Some("c++"))
  {
    if !kw.dontLink && kw.linkerLanguage.Unset? then kw.(linkerLanguage := Given(Some("c++"))) else kw
  }

  /** Passing the arguments through the rule twice changes nothing more. */
  lemma CompilerCallIdempotent(kw: CallKwargs)
    ensures CompilerCall(CompilerCall(kw)) == CompilerCall(kw)
  {
  }

  /** The keyword arguments of a link call: the two that decide its
      language, and the rest by name. */
  datatype LinkKwargs = LinkKwargs(forModel: bool, skipInterfaceFlags: bool, others: map<string, string>)

  /** The condition under which `call_linker` switches a C link to C++. */
  predicate SwitchesToCpp(driverLanguage: Option<string>, language: Option<string>, kw: LinkKwargs) {
    driverLanguage == Some("c") && language.None? && kw.forModel && !kw.skipInterfaceFlags
  }

  /** `CModelDriver.call_linker`: a model link of the C driver with no
      language given is done as C++, with the keywords updated by
      `update_linker_kwargs` and the interface flags marked as handled;
      every other call passes through. `updated` is the keyword set after
      `kwargs.update(cls.update_linker_kwargs(**kwargs))`. */
  function CallLinker(driverLanguage: Option<string>, language: Option<string>, kw: LinkKwargs,
                      updated: LinkKwargs -> LinkKwargs): (r: (Option<string>, LinkKwargs))
    ensures SwitchesToCpp(driverLanguage, language, kw) ==>
      r.0 == Some("c++") && r.1.skipInterfaceFlags
      && r.1.forModel == updated(kw).forModel && r.1.others == updated(kw).others
    ensures !SwitchesToCpp(driverLanguage, language, kw) ==> r == (language, kw)
  {
    if SwitchesToCpp(driverLanguage, language, kw) then (Some("c++"), updated(kw).(skipInterfaceFlags := true))
    else (language, kw)
  }

  /** A switched call is never switched again: the rule is idempotent. */
  lemma CallLinkerIdempotent(driverLanguage: Option<string>, language: Option<string>, kw: LinkKwargs,
                             updated: LinkKwargs -> LinkKwargs)
    ensures var (l, k) := CallLinker(driverLanguage, language, kw, updated);
      !SwitchesToCpp(driverLanguage, l, k) && CallLinker(driverLanguage, l, k, updated) == (l, k)
  {
  }

  // ---------------------------------------------------------------------
  // update_ld_library_path
  // ---------------------------------------------------------------------

  const LdKey: string := "LD_LIBRARY_PATH"

  /** The paths the update adds: those that are not already a substring of
      the previous value, in order (a path repeated in the list is added
      each time). */
  function Added(prev: string, paths: seq<string>): (r: seq<string>)
    ensures |r| <= |paths|
    ensures forall i :: 0 <= i < |r| ==> !Contains(prev, r[i]) && r[i] in paths
    ensures forall x :: x in paths && !Contains(prev, x) ==> x in r
  {
    if |paths| == 0 then []
    else
      var rest := Added(prev, paths[1..]);
      assert forall x :: x in paths[1..] ==> x in paths;
      if Contains(prev, paths[0]) then rest else [paths[0]] + rest
  }

  function Reverse(s: seq<string>): (r: seq<string>)
    ensures |r| == |s|
    ensures forall x :: x in r <==> x in s
  {
    if |s| == 0 then [] else
      var r := Reverse(s[1..]) + [s[0]];
      assert forall x :: x in s <==> x == s[0] || x in s[1..];
      r
  }

  /** The entries the new value is joined from: the previous value, if
      any, with the added paths after it, or in front of it in reverse
      order of addition. */
  function PathList(prev: string, paths: seq<string>, addToFront: bool): seq<string> {
    if addToFront then Reverse(Added(prev, paths)) + PrevEntry(prev) else PrevEntry(prev) + Added(prev, paths)
  }

  /** The previous value as an entry, when it is not empty. */
  function PrevEntry(prev: string): seq<string> {
    if prev != "" then [prev] else []
  }

  /** `update_ld_library_path(env, paths_to_add, add_to_front)`. Off Linux
      the environment is returned as it is. On Linux the previous value is
      taken out and, when there is anything to join, replaced by the joined
      list. */
  function UpdateLdLibraryPath(env: map<string, string>, paths: seq<string>, addToFront: bool, onLinux: bool): (r: map<string, string>)
    ensures !onLinux ==> r == env
    ensures forall k :: k != LdKey ==> (k in r <==> k in env) && (k in r ==> r[k] == env[k])
    ensures onLinux && LdKey in r ==> r[LdKey] == Join(PathList(LdValue(env), paths, addToFront), [':'])
    ensures onLinux ==> (LdKey in r <==> |PathList(LdValue(env), paths, addToFront)| > 0)
  {
    if !onLinux then env
    else
      var prev := LdValue(env);
      var rest := env - {LdKey};
      var list := PathList(prev, paths, addToFront);
      if |list| == 0 then rest else rest[LdKey := Join(list, [':'])]
  }

  /** `env.get('LD_LIBRARY_PATH', '')`. */
  function LdValue(env: map<string, string>): string {
    if LdKey in env then env[LdKey] else ""
  }

  /** The loop the source runs: start from the previous value and add each
      path that is not yet part of it, at the end or at the front. */
  method PathListLoop(prev: string, paths: seq<string>, addToFront: bool) returns (pathList: seq<string>)
    ensures pathList == PathList(prev, paths, addToFront)
  {
    pathList := PrevEntry(prev);
    var i := 0;
    while i < |paths|
      invariant 0 <= i <= |paths|
      invariant pathList == PathList(prev, paths[..i], addToFront)
    {
      assert paths[..i + 1] == paths[..i] + [paths[i]];
      PathListSnoc(prev, paths[..i], paths[i], addToFront);
      if !Contains(prev, paths[i]) {
        if addToFront {
          pathList := [paths[i]] + pathList;
        } else {
          pathList := pathList + [paths[i]];
        }
      }
      i := i + 1;
    }
    assert paths[..i] == paths;
  }

  /** `update_ld_library_path` as the source writes it, with the loop
      above; it computes the same environment as the closed form. */
  method UpdateLdLibraryPathLoop(env: map<string, string>, paths: seq<string>, addToFront: bool, onLinux: bool)
    returns (out: map<string, string>)
    ensures out == UpdateLdLibraryPath(env, paths, addToFront, onLinux)
  {
    if !onLinux {
      return env;
    }
    var prev := LdValue(env);
    var rest := env - {LdKey};
    var pathList := PathListLoop(prev, paths, addToFront);
    if |pathList| == 0 {
      out := rest;
    } else {
      out := rest[LdKey := Join(pathList, [':'])];
    }
  }

  /** One more path extends the entry list as the loop body does. */
  lemma PathListSnoc(prev: string, paths: seq<string>, x: string, addToFront: bool)
    ensures PathList(prev, paths + [x], addToFront)
         == if Contains(prev, x) then PathList(prev, paths, addToFront)
            else if addToFront then [x] + PathList(prev, paths, addToFront)
            else PathList(prev, paths, addToFront) + [x]
  {
    AddedSnoc(prev, paths, x);
    if !Contains(prev, x) {
      AppendStep(Added(prev, paths), x, PrevEntry(prev), addToFront);
    } else {
      assert Added(prev, paths + [x]) == Added(prev, paths) + [];
      assert Added(prev, paths) + [] == Added(prev, paths);
    }
  }

  lemma AppendStep(a: seq<string>, x: string, base: seq<string>, addToFront: bool)
    ensures addToFront ==> Reverse(a + [x]) + base == [x] + (Reverse(a) + base)
    ensures !addToFront ==> base + (a + [x]) == (base + a) + [x]
  {
    if addToFront {
      ReverseSnoc(a, x);
    }
  }

  lemma {:induction false} ReverseSnoc(a: seq<string>, x: string)
    ensures Reverse(a + [x]) == [x] + Reverse(a)
    decreases |a|
  {
    if |a| == 0 {
      assert a + [x] == [x];
      assert ([x])[1..] == [];
    } else {
      assert (a + [x])[1..] == a[1..] + [x];
      ReverseSnoc(a[1..], x);
    }
  }

  lemma {:induction false} AddedSnoc(prev: string, paths: seq<string>, x: string)
    ensures Added(prev, paths + [x]) == Added(prev, paths) + (if Contains(prev, x) then [] else [x])
    decreases |paths|
  {
    if |paths| == 0 {
      assert paths + [x] == [x];
      assert ([x])[1..] == [];
    } else {
      assert (paths + [x])[1..] == paths[1..] + [x];
      AddedSnoc(prev, paths[1..], x);
    }
  }

  /** Every path asked for ends up as a substring of the new value. */
  lemma LdPathCoversPaths(env: map<string, string>, paths: seq<string>, addToFront: bool, k: nat)
    requires k < |paths|
    ensures var r := UpdateLdLibraryPath(env, paths, addToFront, true);
      LdKey in r || paths[k] == ""
    ensures var r := UpdateLdLibraryPath(env, paths, addToFront, true);
      LdKey in r ==> Contains(r[LdKey], paths[k])
  {
    var prev := LdValue(env);
    var list := PathList(prev, paths, addToFront);
    var x := paths[k];
    assert x in paths;
    if Contains(prev, x) {
      if prev == "" {
        EmptyContains(x);
      } else {
        var j := PrevIndex(prev, paths, addToFront);
        JoinContainsParts(list, [':'], j);
        ContainsTrans(Join(list, [':']), prev, x);
      }
    } else {
      assert x in Added(prev, paths);
      assert x in Reverse(Added(prev, paths));
      assert x in list;
      var j :| 0 <= j < |list| && list[j] == x;
      JoinContainsParts(list, [':'], j);
    }
  }

  lemma EmptyContains(x: string)
    requires Contains("", x)
    ensures x == ""
  {
  }

  /** Where the previous value sits in the entry list. */
  lemma PrevIndex(prev: string, paths: seq<string>, addToFront: bool) returns (j: nat)
    requires prev != ""
    ensures j < |PathList(prev, paths, addToFront)| && PathList(prev, paths, addToFront)[j] == prev
  {
    var list := PathList(prev, paths, addToFront);
    j := if addToFront then |list| - 1 else 0;
  }

  /** The entry list never holds an empty string, so its join is empty
      only when the list is. */
  lemma PathListEntries(prev: string, paths: seq<string>, addToFront: bool)
    ensures forall i :: 0 <= i < |PathList(prev, paths, addToFront)| ==> PathList(prev, paths, addToFront)[i] != ""
  {
    var list := PathList(prev, paths, addToFront);
    var added := Added(prev, paths);
    assert !Contains(prev, "") ==> "" !in added;
    assert StartsWith(prev, "");
    forall i | 0 <= i < |list|
      ensures list[i] != ""
    {
      var e := list[i];
      assert e in list;
      if e != prev {
        assert e in Reverse(added) || e in added;
      }
    }
  }

  lemma {:induction false} JoinNonEmpty(parts: seq<string>, sep: string)
    requires |parts| > 0 && parts[0] != ""
    ensures Join(parts, sep) != ""
  {
    if |parts| > 1 {
      assert |Join(parts, sep)| >= |parts[0]|;
    }
  }

  /** Updating with the same paths twice gives the environment updating
      once gives. */
  lemma LdLibraryPathIdempotent(env: map<string, string>, paths: seq<string>, addToFront: bool, onLinux: bool)
    ensures UpdateLdLibraryPath(UpdateLdLibraryPath(env, paths, addToFront, onLinux), paths, addToFront, onLinux)
         == UpdateLdLibraryPath(env, paths, addToFront, onLinux)
  {
    if onLinux {
      var env1 := UpdateLdLibraryPath(env, paths, addToFront, true);
      var prev := LdValue(env);
      var list := PathList(prev, paths, addToFront);
      if |list| == 0 {
        assert prev == "" && |Added(prev, paths)| == 0;
        assert LdValue(env1) == "";
      } else {
        var v := Join(list, [':']);
        PathListEntries(prev, paths, addToFront);
        NonEmptyJoin(list);
        assert LdValue(env1) == v;
        NothingMoreToAdd(env, paths, addToFront);
        assert PathList(v, paths, addToFront) == [v];
        assert Join([v], [':']) == v;
      }
      MapEq(UpdateLdLibraryPath(env1, paths, addToFront, true), env1);
    }
  }

  lemma NonEmptyJoin(list: seq<string>)
    requires |list| > 0
    requires forall i :: 0 <= i < |list| ==> list[i] != ""
    ensures Join(list, [':']) != ""
  {
    JoinNonEmpty(list, [':']);
  }

  /** After one update, every path is already a substring of the value. */
  lemma NothingMoreToAdd(env: map<string, string>, paths: seq<string>, addToFront: bool)
    requires |PathList(LdValue(env), paths, addToFront)| > 0
    ensures Added(Join(PathList(LdValue(env), paths, addToFront), [':']), paths) == []
  {
    var v := Join(PathList(LdValue(env), paths, addToFront), [':']);
    forall k | 0 <= k < |paths|
      ensures Contains(v, paths[k])
    {
      LdPathCoversPaths(env, paths, addToFront, k);
    }
    AddedOfCovered(v, paths);
  }

  lemma {:induction false} AddedOfCovered(v: string, paths: seq<string>)
    requires forall k :: 0 <= k < |paths| ==> Contains(v, paths[k])
    ensures Added(v, paths) == []
    decreases |paths|
  {
    if |paths| > 0 {
      AddedOfCovered(v, paths[1..]);
    }
  }

  lemma MapEq(a: map<string, string>, b: map<string, string>)
    requires forall k :: (k in a <==> k in b) && (k in a ==> a[k] == b[k])
    ensures a == b
  {
  }

  /** The test is on substrings, not on entries: a path that is a prefix
      of an entry already present is not added. */
  lemma SubstringShadowsEntry()
    ensures UpdateLdLibraryPath(map[LdKey := "/opt/lib64"], ["/opt/lib"], false, true) == map[LdKey := "/opt/lib64"]
  {
    var prev := "/opt/lib64";
    assert StartsWith(prev, "/opt/lib");
    assert Added(prev, ["/opt/lib"]) == [];
    assert PathList(prev, ["/opt/lib"], false) == [prev];
  }

  /** `CModelDriver.set_env`: the base environment with the language
      directory added to the library path. */
  function CSetEnv(d: Driver.ModelDriver, osEnviron: map<string, string>, languageDir: string, onLinux: bool): (r: map<string, string>)
    ensures "YGG_SUBPROCESS" in r && r["YGG_SUBPROCESS"] == "True"
    ensures "YGG_MODEL_INDEX" in r && r["YGG_MODEL_INDEX"] == IntToString(d.options.modelIndex)
    ensures onLinux && languageDir != "" ==> LdKey in r && Contains(r[LdKey], languageDir)
  {
    var base := Driver.SetEnv(d, osEnviron);
    if onLinux && languageDir != "" then LdPathCoversPaths(base, [languageDir], false, 0); UpdateLdLibraryPath(base, [languageDir], false, onLinux)
    else UpdateLdLibraryPath(base, [languageDir], false, onLinux)
  }

  // ---------------------------------------------------------------------
  // CPPCompilerBase.get_flags
  // ---------------------------------------------------------------------

  predicate IsStdFlag(flag: string) {
    StartsWith(flag, "-std=")
  }

  /** Index of the first `-std=` flag, as the source's search loop finds
      it. */
  function StdFlagIndex(flags: seq<string>): (r: Option<nat>)
    ensures r.None? <==> forall i :: 0 <= i < |flags| ==> !IsStdFlag(flags[i])
    ensures r.Some? ==> r.value < |flags| && IsStdFlag(flags[r.value])
    ensures r.Some? ==> forall i :: 0 <= i < r.value ==> !IsStdFlag(flags[i])
  {
    if |flags| == 0 then None
    else if IsStdFlag(flags[0]) then Some(0)
    else
      var r := StdFlagIndex(flags[1..]);
      if r.None? then None else Some(r.value + 1)
  }

  /** `CPPCompilerBase.get_flags`: the parent's flags, with `-std=c++11`
      appended when none of them chooses a standard. */
  function CppFlags(flags: seq<string>): (r: seq<string>)
    ensures (exists i :: 0 <= i < |flags| && IsStdFlag(flags[i])) ==> r == flags
    ensures (forall i :: 0 <= i < |flags| ==> !IsStdFlag(flags[i])) ==> r == flags + ["-std=c++11"]
    ensures exists i :: 0 <= i < |r| && IsStdFlag(r[i])
  {
    if StdFlagIndex(flags).None? then
      var r := flags + ["-std=c++11"];
      assert IsStdFlag(r[|flags|]);
      r
    else flags
  }

  function CountStd(flags: seq<string>): nat {
    if |flags| == 0 then 0 else (if IsStdFlag(flags[0]) then 1 else 0) + CountStd(flags[1..])
  }

  lemma {:induction false} CountStdSnoc(flags: seq<string>, x: string)
    ensures CountStd(flags + [x]) == CountStd(flags) + (if IsStdFlag(x) then 1 else 0)
    decreases |flags|
  {
    if |flags| == 0 {
      assert flags + [x] == [x];
    } else {
      assert (flags + [x])[1..] == flags[1..] + [x];
      CountStdSnoc(flags[1..], x);
    }
  }

  /** The standard flag is added at most once: the result has exactly as
      many `-std=` flags as the input, or one when the input had none, and
      applying the rule to its own output changes nothing. */
  lemma CppFlagsOnce(flags: seq<string>)
    ensures CountStd(CppFlags(flags)) == if CountStd(flags) == 0 then 1 else CountStd(flags)
    ensures CppFlags(CppFlags(flags)) == CppFlags(flags)
  {
    CountStdZero(flags);
    if StdFlagIndex(flags).None? {
      CountStdSnoc(flags, "-std=c++11");
      assert IsStdFlag("-std=c++11");
    }
  }

  lemma {:induction false} CountStdZero(flags: seq<string>)
    ensures CountStd(flags) == 0 <==> forall i :: 0 <= i < |flags| ==> !IsStdFlag(flags[i])
    decreases |flags|
  {
    if |flags| > 0 {
      CountStdZero(flags[1..]);
      assert forall i :: 1 <= i < |flags| ==> flags[i] == flags[1..][i - 1];
    }
  }

  // ---------------------------------------------------------------------
  // CPPModelDriver.before_registration
  // ---------------------------------------------------------------------

  /** A library entry's settings, such as its `source` file. */
  type Library = map<string, string>

  /** The default C++ compiler: on MacOS an unset default becomes
      `clang++`; a default that is set, or another system, keeps it. */
  function CppDefaultCompiler(current: Option<string>, os: Driver.OsFamily): (r: Option<string>)
    ensures current.Some? ==> r == current
    ensures os != Driver.MacOS ==> r == current
    ensures os == Driver.MacOS && current.None? ==> r == Some("clang++")
  {
    if os == Driver.MacOS && current.None? then Some("clang++") else current
  }

  /** The library rename: the C interface library `ygg` becomes the C++
      interface library `ygg++` (replacing any entry already under that
      name) and its source takes the first C++ extension, `.cpp`. */
  function RenameInterfaceLibrary(libs: map<string, Library>): (r: Result<map<string, Library>>)
    ensures "ygg" !in libs ==> r == Failure(KeyError("ygg"))
    ensures "ygg" in libs && "source" !in libs["ygg"] ==> r == Failure(KeyError("source"))
    ensures r.Success? <==> "ygg" in libs && "source" in libs["ygg"]
    ensures r.Success? ==> "ygg++" in r.value && "source" in r.value["ygg++"]
    ensures r.Success? ==>
      && r.value.Keys == libs.Keys - {"ygg"} + {"ygg++"}
      && r.value["ygg++"] == libs["ygg"]["source" := SplitExt(libs["ygg"]["source"]).0 + ".cpp"]
      && (forall k :: k in libs && k != "ygg" && k != "ygg++" ==> r.value[k] == libs[k])
  {
    if "ygg" !in libs then Failure(KeyError("ygg"))
    else
      var entry := libs["ygg"];
      var moved := (libs - {"ygg"})["ygg++" := entry];
      if "source" !in entry then Failure(KeyError("source"))
      else Success(moved["ygg++" := entry["source" := SplitExt(entry["source"]).0 + ".cpp"]])
  }

  /** The renamed source keeps the original's stem and directory: only
      the extension part changes. */
  lemma RenamedSourceStem(libs: map<string, Library>)
    requires "ygg" in libs && "source" in libs["ygg"]
    ensures RenameInterfaceLibrary(libs).Success?
    ensures var src := libs["ygg"]["source"];
      var renamed := RenameInterfaceLibrary(libs).value["ygg++"]["source"];
      && StartsWith(src, SplitExt(src).0)
      && renamed == SplitExt(src).0 + ".cpp"
      && (SplitExt(src).1 == ".c" ==> renamed == src[..|src| - 2] + ".cpp")
  {
    var src := libs["ygg"]["source"];
    var (stem, ext) := SplitExt(src);
    assert src == stem + ext;
    assert src[..|stem|] == stem;
    if ext == ".c" {
      assert src[..|src| - 2] == stem;
    }
  }
}
