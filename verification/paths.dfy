/** The POSIX flavour of Python's `os.path` functions the driver uses to
    resolve a model file: `isabs`, `join`, `normpath`, `dirname` and
    `splitext`. */
module Paths {
  import opened Strings

  const Sep: char := '/'

  predicate IsAbs(p: string) {
    |p| > 0 && p[0] == Sep
  }

  /** `os.path.join(a, b)`: an absolute `b` replaces `a`; otherwise a slash
      is inserted unless `a` is empty or already ends in one. */
  function JoinPath(a: string, b: string): (r: string)
    ensures IsAbs(a) ==> IsAbs(r)
    ensures IsAbs(b) ==> r == b
  {
    if IsAbs(b) then b
    else if |a| == 0 || a[|a| - 1] == Sep then a + b
    else a + [Sep] + b
  }

  // ---------------------------------------------------------------------
  // normpath
  // ---------------------------------------------------------------------

  /** Number of leading slashes `normpath` keeps: POSIX allows a path that
      starts with exactly two slashes to keep both. */
  function InitialSlashes(p: string): nat {
    if !StartsWith(p, "/") then 0
    else if StartsWith(p, "//") && !StartsWith(p, "///") then 2
    else 1
  }

  /** One step of the component loop of `normpath`. */
  function NormStep(acc: seq<string>, comp: string, initial: nat): seq<string> {
    if comp == "" || comp == "." then acc
    else if comp != ".." || (initial == 0 && |acc| == 0) || (|acc| > 0 && acc[|acc| - 1] == "..") then
      acc + [comp]
    else if |acc| > 0 then acc[..|acc| - 1]
    else acc
  }

  function NormComps(comps: seq<string>, initial: nat, acc: seq<string>): seq<string>
    decreases |comps|
  {
    if |comps| == 0 then acc
    else NormComps(comps[1..], initial, NormStep(acc, comps[0], initial))
  }

  function SlashPrefix(n: nat): string {
    seq(n, _ => Sep)
  }

  /** `os.path.normpath(p)`. */
  function NormPath(p: string): string {
    if |p| == 0 then "."
    else
      var initial := InitialSlashes(p);
      var body := Join(NormComps(Split(p, Sep), initial, []), [Sep]);
      var r := SlashPrefix(initial) + body;
      if |r| == 0 then "." else r
  }

  /** The components `normpath` leaves behind: none is empty or `.`, none
      holds a slash, and `..` appears only in a leading run (and not at all
      below the root of an absolute path). */
  ghost predicate Normal(comps: seq<string>, initial: nat) {
    && (forall i :: 0 <= i < |comps| ==> comps[i] != "" && comps[i] != "." && Sep !in comps[i])
    && (forall i :: 0 <= i < |comps| && comps[i] == ".." ==> initial == 0 && forall j :: 0 <= j < i ==> comps[j] == "..")
  }

  lemma {:induction false} NormCompsNormal(comps: seq<string>, initial: nat, acc: seq<string>)
    requires Normal(acc, initial)
    requires forall i :: 0 <= i < |comps| ==> Sep !in comps[i]
    ensures Normal(NormComps(comps, initial, acc), initial)
    decreases |comps|
  {
    if |comps| > 0 {
      var next := NormStep(acc, comps[0], initial);
      assert Normal(next, initial) by {
        var comp := comps[0];
        if comp == "" || comp == "." {
        } else if comp != ".." || (initial == 0 && |acc| == 0) || (|acc| > 0 && acc[|acc| - 1] == "..") {
          assert next == acc + [comp];
          if comp == ".." {
            assert initial == 0;
            forall j | 0 <= j < |acc|
              ensures acc[j] == ".."
            {
              assert acc[|acc| - 1] == "..";
            }
          }
        } else if |acc| > 0 {
          assert next == acc[..|acc| - 1];
        }
      }
      NormCompsNormal(comps[1..], initial, next);
    }
  }

  /** Normalising components that are already normal changes nothing. */
  lemma {:induction false} NormCompsOfNormal(comps: seq<string>, initial: nat, acc: seq<string>)
    requires Normal(acc + comps, initial)
    ensures NormComps(comps, initial, acc) == acc + comps
    decreases |comps|
  {
    if |comps| > 0 {
      var all := acc + comps;
      var comp := comps[0];
      assert comp == all[|acc|];
      if comp == ".." {
        assert initial == 0;
        if |acc| > 0 {
          assert acc[|acc| - 1] == all[|acc| - 1];
        }
      }
      assert NormStep(acc, comp, initial) == acc + [comp];
      assert (acc + [comp]) + comps[1..] == all;
      NormCompsOfNormal(comps[1..], initial, acc + [comp]);
    }
  }

  /** The text `normpath` builds from its kept slashes and components. */
  function Assemble(k: nat, comps: seq<string>): string {
    var r := SlashPrefix(k) + Join(comps, [Sep]);
    if |r| == 0 then "." else r
  }

  lemma {:induction false} JoinStartsWithFirst(comps: seq<string>, sep: string)
    requires |comps| > 0
    ensures StartsWith(Join(comps, sep), comps[0])
  {
    if |comps| > 1 {
      assert Join(comps, sep) == comps[0] + (sep + Join(comps[1..], sep));
    }
    assert Join(comps, sep)[..|comps[0]|] == comps[0];
  }

  lemma {:induction false} SplitJoinComps(comps: seq<string>)
    requires forall i :: 0 <= i < |comps| ==> Sep !in comps[i]
    ensures Split(Join(comps, [Sep]), Sep) == (if |comps| == 0 then [""] else comps)
  {
    if |comps| == 0 {
      SplitOfAbsent("", Sep);
    } else {
      SplitJoin(comps, Sep);
    }
  }

  lemma NormPathDot()
    ensures NormPath(".") == "."
  {
    SplitOfAbsent(".", Sep);
    assert InitialSlashes(".") == 0;
    assert NormComps(["."], 0, []) == [];
    assert SlashPrefix(0) + Join([], [Sep]) == "";
  }

  /** The joined components of a normal, non-empty component list do not
      start with a slash. */
  lemma JoinedFirstChar(comps: seq<string>)
    requires |comps| > 0
    requires comps[0] != "" && Sep !in comps[0]
    ensures |Join(comps, [Sep])| > 0 && Join(comps, [Sep])[0] != Sep
  {
    JoinStartsWithFirst(comps, [Sep]);
    assert Join(comps, [Sep])[0] == comps[0][0];
  }

  lemma {:induction false} InitialSlashesOfAssembled(k: nat, j: string)
    requires k <= 2
    requires |j| == 0 || j[0] != Sep
    ensures InitialSlashes(SlashPrefix(k) + j) == k
  {
    var s := SlashPrefix(k) + j;
    if k == 0 {
      assert s == j;
    } else if k == 1 {
      assert s[..1] == "/";
      if |s| > 1 { assert s[1] == j[0]; }
    } else {
      assert s[..2] == "//";
      if |s| > 2 { assert s[2] == j[0]; }
    }
  }

  lemma {:induction false} NormCompsOfAssembled(k: nat, comps: seq<string>)
    requires k <= 2
    requires Normal(comps, k)
    ensures NormComps(Split(SlashPrefix(k) + Join(comps, [Sep]), Sep), k, []) == comps
  {
    var j := Join(comps, [Sep]);
    var s := SlashPrefix(k) + j;
    SplitJoinComps(comps);
    var tail := if |comps| == 0 then [""] else comps;
    assert Split(s, Sep) == seq(k, _ => "") + tail by {
      if k == 1 {
        assert s == "" + [Sep] + j;
        SplitOfPrefixed("", Sep, j);
      } else if k == 2 {
        assert s == "" + [Sep] + ("" + [Sep] + j);
        SplitOfPrefixed("", Sep, "" + [Sep] + j);
        SplitOfPrefixed("", Sep, j);
      } else {
        assert s == j;
      }
    }
    assert NormComps(seq(k, _ => "") + tail, k, []) == NormComps(tail, k, []) by {
      if k == 1 {
        assert (seq(k, _ => "") + tail)[1..] == tail;
      } else if k == 2 {
        assert (seq(k, _ => "") + tail)[1..] == [""] + tail;
        assert ([""] + tail)[1..] == tail;
      } else {
        assert seq(k, _ => "") + tail == tail;
      }
    }
    if |comps| == 0 {
      assert NormComps(tail, k, []) == [];
    } else {
      NormCompsOfNormal(comps, k, []);
      assert [] + comps == comps;
    }
  }

  /** `normpath` leaves its own results alone. */
  lemma {:induction false} NormPathOfAssembled(k: nat, comps: seq<string>)
    requires k <= 2
    requires Normal(comps, k)
    ensures NormPath(Assemble(k, comps)) == Assemble(k, comps)
  {
    var j := Join(comps, [Sep]);
    if |comps| > 0 {
      JoinedFirstChar(comps);
    } else {
      assert j == "";
    }
    if |SlashPrefix(k) + j| == 0 {
      NormPathDot();
    } else {
      InitialSlashesOfAssembled(k, j);
      NormCompsOfAssembled(k, comps);
    }
  }

  lemma SplitNoSep(p: string)
    ensures forall i :: 0 <= i < |Split(p, Sep)| ==> Sep !in Split(p, Sep)[i]
  {
  }

  /** `normpath` is idempotent: a normalised path is its own normal form. */
  lemma {:induction false} NormPathIdempotent(p: string)
    ensures NormPath(NormPath(p)) == NormPath(p)
  {
    if |p| == 0 {
      NormPathOfAssembled(0, []);
    } else {
      var k := InitialSlashes(p);
      var comps := NormComps(Split(p, Sep), k, []);
      SplitNoSep(p);
      NormCompsNormal(Split(p, Sep), k, []);
      assert NormPath(p) == Assemble(k, comps);
      NormPathOfAssembled(k, comps);
    }
  }

  /** `normpath` keeps an absolute path absolute. */
  lemma NormPathAbs(p: string)
    requires IsAbs(p)
    ensures IsAbs(NormPath(p))
  {
    assert StartsWith(p, "/") by {
      assert p[..1] == [p[0]];
    }
    var initial := InitialSlashes(p);
    assert initial >= 1;
    var body := Join(NormComps(Split(p, Sep), initial, []), [Sep]);
    assert (SlashPrefix(initial) + body)[0] == Sep;
  }

  // ---------------------------------------------------------------------
  // dirname and splitext
  // ---------------------------------------------------------------------

  /** `s.rfind(c)`: the last index holding `c`, or -1. */
  function RFind(s: string, c: char): (i: int)
    ensures -1 <= i < |s|
    ensures i >= 0 ==> s[i] == c
    ensures forall j :: i < j < |s| ==> s[j] != c
    decreases |s|
  {
    if |s| == 0 then -1
    else if s[|s| - 1] == c then |s| - 1
    else RFind(s[..|s| - 1], c)
  }

  predicate AllSlashes(s: string) {
    forall i :: 0 <= i < |s| ==> s[i] == Sep
  }

  /** `os.path.dirname(p)`: everything before the last slash, with trailing
      slashes dropped unless the head is nothing but slashes. */
  function DirName(p: string): (r: string)
    ensures StartsWith(p, r)
    ensures Sep !in p ==> r == ""
    ensures IsAbs(p) ==> IsAbs(r)
  {
    var i := RFind(p, Sep) + 1;
    var head := p[..i];
    assert StartsWith(p, head);
    if |head| > 0 && !AllSlashes(head) then
      RStripRemovesOnly(head, Sep);
      PrefixOfPrefix(p, head, RStrip(head, Sep));
      RStrip(head, Sep)
    else
      head
  }

  lemma PrefixOfPrefix(s: string, t: string, u: string)
    requires StartsWith(s, t) && StartsWith(t, u)
    ensures StartsWith(s, u)
  {
    assert s[..|u|] == t[..|u|];
  }

  /** `os.path.splitext(p)`: the extension is the last dot and what follows
      it, provided that dot lies in the final path component and is not part
      of a run of leading dots of that component. */
  function SplitExt(p: string): (r: (string, string))
    ensures r.0 + r.1 == p
    ensures r.1 == "" || (r.1[0] == '.' && Sep !in r.1)
  {
    var sepIndex := RFind(p, Sep);
    var dotIndex := RFind(p, '.');
    if dotIndex > sepIndex && !AllDots(p[sepIndex + 1..dotIndex]) then
      assert p[..dotIndex] + p[dotIndex..] == p;
      (p[..dotIndex], p[dotIndex..])
    else
      assert p + "" == p;
      (p, "")
  }

  predicate AllDots(s: string) {
    forall i :: 0 <= i < |s| ==> s[i] == '.'
  }
}
