/** Python string operations used by the drivers and serializers, stated on
    `seq<char>`: `str.split()`, `str.split(sep)` for a one-character
    separator, `sep.join`, the substring test `x in s`, `str.replace`,
    `str.lower` on ASCII letters and `str(int)` / `int(str)` on decimals. */
module Strings {

  // ---------------------------------------------------------------------
  // Whitespace splitting: str.split() with no argument
  // ---------------------------------------------------------------------

  /** The ASCII characters that `str.split()` and the `\s` class of `re`
      treat as whitespace: space, tab, line feed, vertical tab, form feed,
      carriage return, and the four separators U+001C to U+001F. */
  predicate IsSpace(c: char) {
    || c == ' ' || c == '\t' || c == '\n' || c == '\r' || c == '\U{000B}' || c == '\U{000C}'
    || c == '\U{001C}' || c == '\U{001D}' || c == '\U{001E}' || c == '\U{001F}'
  }

  predicate NoSpace(s: string) {
    forall i :: 0 <= i < |s| ==> !IsSpace(s[i])
  }

  /** Length of the leading run of non-space characters. */
  function WordLength(s: string): (n: nat)
    ensures n <= |s|
    ensures NoSpace(s[..n])
    ensures n < |s| ==> IsSpace(s[n])
  {
    if |s| == 0 || IsSpace(s[0]) then 0
    else
      var n := 1 + WordLength(s[1..]);
      assert s[..n] == [s[0]] + s[1..][..n - 1];
      n
  }

  /** `s.split()`: the maximal runs of non-space characters, in order. */
  function Words(s: string): (ws: seq<string>)
    ensures forall i :: 0 <= i < |ws| ==> |ws[i]| > 0 && NoSpace(ws[i])
    decreases |s|
  {
    if |s| == 0 then []
    else if IsSpace(s[0]) then Words(s[1..])
    else
      var n := WordLength(s);
      [s[..n]] + Words(s[n..])
  }

  lemma {:induction false} WordLengthOfWord(w: string, rest: string)
    requires NoSpace(w)
    requires |rest| == 0 || IsSpace(rest[0])
    ensures WordLength(w + rest) == |w|
    decreases |w|
  {
    if |w| > 0 {
      assert (w + rest)[1..] == w[1..] + rest;
      WordLengthOfWord(w[1..], rest);
    } else {
      assert w + rest == rest;
    }
  }

  /** `" ".join(ws).split() == ws` for non-empty words without spaces: the
      whitespace split inverts joining with single spaces. */
  lemma {:induction false} WordsOfJoin(ws: seq<string>)
    requires forall i :: 0 <= i < |ws| ==> |ws[i]| > 0 && NoSpace(ws[i])
    ensures Words(Join(ws, " ")) == ws
    decreases |ws|
  {
    if |ws| == 1 {
      var s := Join(ws, " ");
      WordLengthOfWord(ws[0], "");
      assert ws[0] + "" == ws[0];
      assert s[..|ws[0]|] == ws[0];
      assert s[|ws[0]|..] == "";
    } else if |ws| > 1 {
      var rest := Join(ws[1..], " ");
      var s := Join(ws, " ");
      assert s == ws[0] + (" " + rest);
      WordLengthOfWord(ws[0], " " + rest);
      assert s[..|ws[0]|] == ws[0];
      assert s[|ws[0]|..] == " " + rest;
      assert (" " + rest)[1..] == rest;
      WordsOfJoin(ws[1..]);
      assert ws == [ws[0]] + ws[1..];
    }
  }

  /** Peeling the first character off a string and putting it back in
      front of a concatenation. */
  lemma ConsAppend<T>(s: seq<T>, v: seq<T>)
    requires |s| > 0
    ensures [s[0]] + (s[1..] + v) == s + v
  {
    assert s == [s[0]] + s[1..];
  }

  /** The middle of a three-part concatenation. */
  lemma MiddleOf<T>(a: seq<T>, b: seq<T>, c: seq<T>)
    ensures (a + b + c)[|a|..|a| + |b|] == b
  {
    assert (a + b + c)[|a|..|a| + |b|] == (a + b)[|a|..];
  }

  /** The second and fourth of five concatenated parts. */
  lemma SecondAndFourthOf<T>(a: seq<T>, b: seq<T>, c: seq<T>, d: seq<T>, e: seq<T>)
    ensures (a + b + c + d + e)[|a|..|a| + |b|] == b
    ensures (a + b + c + d + e)[|a| + |b| + |c|..|a| + |b| + |c| + |d|] == d
  {
    MiddleOf(a, b, c + d + e);
    assert a + b + (c + d + e) == a + b + c + d + e;
    MiddleOf(a + b + c, d, e);
  }

  /** A sequence of at least two elements is its first element, its
      inside and its last element. */
  lemma SliceShift<T>(h: seq<T>, r: seq<T>, k: nat, n: nat)
    requires k + n <= |r|
    ensures (h + r)[|h| + k..|h| + k + n] == r[k..k + n]
  {
  }

  lemma PrefixOf<T>(h: seq<T>, r: seq<T>)
    ensures (h + r)[..|h|] == h
  {
  }

  lemma FirstInsideLast<T>(r: seq<T>)
    requires |r| >= 2
    ensures r == [r[0]] + r[1..|r| - 1] + [r[|r| - 1]]
  {
  }

  // ---------------------------------------------------------------------
  // Joining and splitting on a separator
  // ---------------------------------------------------------------------

  /** `sep.join(parts)`. */
  function Join(parts: seq<string>, sep: string): string {
    if |parts| == 0 then ""
    else if |parts| == 1 then parts[0]
    else parts[0] + sep + Join(parts[1..], sep)
  }

  /** Index of the first occurrence of `c`, or `|s|` when there is none. */
  function IndexOf(s: string, c: char): (i: nat)
    ensures i <= |s|
    ensures i < |s| ==> s[i] == c
    ensures c !in s[..i]
  {
    if |s| == 0 then 0
    else if s[0] == c then 0
    else
      var i := 1 + IndexOf(s[1..], c);
      assert s[..i] == [s[0]] + s[1..][..i - 1];
      i
  }

  /** The first occurrence is found: no earlier position holds `c`. */
  lemma {:induction false} IndexOfFirst(s: string, c: char, n: nat)
    requires n < |s| && s[n] == c
    requires forall i :: 0 <= i < n ==> s[i] != c
    ensures IndexOf(s, c) == n
    decreases n
  {
    if n > 0 {
      IndexOfFirst(s[1..], c, n - 1);
    }
  }

  /** `s.split(c)` for a one-character separator: never empty, and the
      pieces never contain `c`. */
  function Split(s: string, c: char): (parts: seq<string>)
    ensures |parts| >= 1
    ensures forall i :: 0 <= i < |parts| ==> c !in parts[i]
    decreases |s|
  {
    var i := IndexOf(s, c);
    if i == |s| then [s]
    else [s[..i]] + Split(s[i + 1..], c)
  }

  lemma {:induction false} SplitOfAbsent(s: string, c: char)
    requires c !in s
    ensures Split(s, c) == [s]
  {
    if IndexOf(s, c) < |s| {
      assert false;
    }
  }

  lemma {:induction false} SplitOfPrefixed(a: string, c: char, rest: string)
    requires c !in a
    ensures Split(a + [c] + rest, c) == [a] + Split(rest, c)
  {
    var s := a + [c] + rest;
    var i := IndexOf(s, c);
    assert s[|a|] == c;
    if i != |a| {
      assert false;
    }
    assert s[..i] == a;
    assert s[i + 1..] == rest;
  }

  /** Splitting a join on the separator gives the parts back, provided no
      part contains the separator. */
  lemma {:induction false} SplitJoin(parts: seq<string>, c: char)
    requires |parts| >= 1
    requires forall i :: 0 <= i < |parts| ==> c !in parts[i]
    ensures Split(Join(parts, [c]), c) == parts
    decreases |parts|
  {
    if |parts| == 1 {
      SplitOfAbsent(parts[0], c);
    } else {
      SplitOfPrefixed(parts[0], c, Join(parts[1..], [c]));
      SplitJoin(parts[1..], c);
      assert parts == [parts[0]] + parts[1..];
    }
  }

  // ---------------------------------------------------------------------
  // Substrings: Python's `x in s`
  // ---------------------------------------------------------------------

  predicate StartsWith(s: string, prefix: string) {
    |prefix| <= |s| && s[..|prefix|] == prefix
  }

  predicate EndsWith(s: string, suffix: string) {
    |suffix| <= |s| && s[|s| - |suffix|..] == suffix
  }

  /** `x in s`: some window of `s` equals `x` (the empty string is in every
      string). */
  predicate Contains(s: string, x: string)
    decreases |s|
  {
    StartsWith(s, x) || (|s| > 0 && Contains(s[1..], x))
  }

  lemma {:induction false} ContainsInfix(a: string, x: string, b: string)
    ensures Contains(a + x + b, x)
    decreases |a|
  {
    if |a| == 0 {
      assert a + x + b == x + b;
      assert (x + b)[..|x|] == x;
    } else {
      assert (a + x + b)[1..] == a[1..] + x + b;
      ContainsInfix(a[1..], x, b);
    }
  }

  lemma {:induction false} ContainsLeft(s: string, t: string, x: string)
    requires Contains(s, x)
    ensures Contains(s + t, x)
    decreases |s|
  {
    if StartsWith(s, x) {
      assert (s + t)[..|x|] == s[..|x|];
    } else {
      assert (s + t)[1..] == s[1..] + t;
      ContainsLeft(s[1..], t, x);
    }
  }

  lemma {:induction false} ContainsRight(s: string, t: string, x: string)
    requires Contains(t, x)
    ensures Contains(s + t, x)
    decreases |s|
  {
    if |s| == 0 {
      assert s + t == t;
    } else {
      assert (s + t)[1..] == s[1..] + t;
      ContainsRight(s[1..], t, x);
    }
  }

  /** Every part of a join is a substring of it. */
  lemma {:induction false} JoinContainsParts(parts: seq<string>, sep: string, k: nat)
    requires k < |parts|
    ensures Contains(Join(parts, sep), parts[k])
    decreases |parts|
  {
    if |parts| == 1 {
      ContainsInfix("", parts[0], "");
      assert "" + parts[0] + "" == parts[0];
    } else if k == 0 {
      ContainsInfix("", parts[0], sep + Join(parts[1..], sep));
      assert "" + parts[0] + (sep + Join(parts[1..], sep)) == Join(parts, sep);
    } else {
      JoinContainsParts(parts[1..], sep, k - 1);
      ContainsRight(parts[0] + sep, Join(parts[1..], sep), parts[k]);
      assert parts[0] + sep + Join(parts[1..], sep) == Join(parts, sep);
    }
  }

  /** A string is contained in itself. */
  lemma ContainsSelf(s: string)
    ensures Contains(s, s)
  {
    assert s[..|s|] == s;
  }

  /** Something contained in a substring is contained in the whole. */
  lemma {:induction false} ContainsTrans(s: string, y: string, x: string)
    requires Contains(s, y)
    requires Contains(y, x)
    ensures Contains(s, x)
    decreases |s|
  {
    if StartsWith(s, y) {
      ContainsPrefixOf(s, y, x);
    } else {
      ContainsTrans(s[1..], y, x);
    }
  }

  lemma {:induction false} ContainsPrefixOf(s: string, y: string, x: string)
    requires StartsWith(s, y)
    requires Contains(y, x)
    ensures Contains(s, x)
  {
    assert s == y + s[|y|..];
    ContainsLeft(y, s[|y|..], x);
  }

  // ---------------------------------------------------------------------
  // str.replace and str.lower
  // ---------------------------------------------------------------------

  /** `s.replace(pat, repl)`: every non-overlapping occurrence of `pat`,
      scanning from the left, is replaced by `repl`. */
  function Replace(s: string, pat: string, repl: string): (r: string)
    requires |pat| > 0
    ensures !Contains(s, pat) ==> r == s
    decreases |s|
  {
    if |s| == 0 then
      assert !StartsWith(s, pat);
      s
    else if StartsWith(s, pat) then repl + Replace(s[|pat|..], pat, repl)
    else [s[0]] + Replace(s[1..], pat, repl)
  }

  /** An occurrence of the pattern at the front is replaced. */
  lemma ReplaceFront(pat: string, s: string, repl: string)
    requires |pat| > 0
    ensures Replace(pat + s, pat, repl) == repl + Replace(s, pat, repl)
  {
    assert (pat + s)[..|pat|] == pat;
    assert (pat + s)[|pat|..] == s;
  }

  /** A prefix that does not hold the pattern's first character is kept
      as it is. */
  lemma {:induction false} ReplaceSkip(a: string, s: string, pat: string, repl: string)
    requires |pat| > 0 && pat[0] !in a
    ensures Replace(a + s, pat, repl) == a + Replace(s, pat, repl)
    decreases |a|
  {
    if |a| > 0 {
      assert (a + s)[0] == a[0] != pat[0];
      assert (a + s)[1..] == a[1..] + s;
      ReplaceSkip(a[1..], s, pat, repl);
      assert a == [a[0]] + a[1..];
    } else {
      assert a + s == s;
    }
  }

  lemma ReplaceAbsent(s: string, pat: string, repl: string)
    requires |pat| > 0 && pat[0] !in s
    ensures Replace(s, pat, repl) == s
  {
    ReplaceSkip(s, "", pat, repl);
    assert s + "" == s;
  }

  function LowerChar(c: char): char {
    if 'A' <= c <= 'Z' then (c as int - 'A' as int + 'a' as int) as char else c
  }

  /** `s.lower()` on ASCII letters; other characters are kept. */
  function Lower(s: string): (r: string)
    ensures |r| == |s|
    ensures forall i :: 0 <= i < |s| ==> r[i] == LowerChar(s[i])
  {
    seq(|s|, i requires 0 <= i < |s| => LowerChar(s[i]))
  }

  // ---------------------------------------------------------------------
  // Decimal integers: str(n) and int(s)
  // ---------------------------------------------------------------------

  predicate IsDigit(c: char) {
    '0' <= c <= '9'
  }

  predicate AllDigits(s: string) {
    forall i :: 0 <= i < |s| ==> IsDigit(s[i])
  }

  function DigitChar(d: nat): char
    requires d < 10
  {
    ('0' as int + d) as char
  }

  /** `str(n)` for a natural number: the shortest decimal spelling. */
  function NatToString(n: nat): (s: string)
    ensures |s| > 0 && AllDigits(s)
    ensures |s| > 1 ==> s[0] != '0'
    decreases n
  {
    if n < 10 then [DigitChar(n)]
    else NatToString(n / 10) + [DigitChar(n % 10)]
  }

  /** `str(i)` for any integer. */
  function IntToString(i: int): (s: string)
    ensures |s| > 0
    ensures i >= 0 <==> AllDigits(s)
  {
    if i >= 0 then NatToString(i)
    else
      var s := "-" + NatToString(-i);
      assert !IsDigit(s[0]);
      s
  }

  /** `int(s)` for a string of decimal digits. */
  function DigitsValue(s: string): nat
    requires AllDigits(s)
    decreases |s|
  {
    if |s| == 0 then 0
    else 10 * DigitsValue(s[..|s| - 1]) + (s[|s| - 1] as int - '0' as int)
  }

  /** Reading back the decimal spelling of `n` gives `n`. */
  lemma {:induction false} DigitsOfNat(n: nat)
    ensures DigitsValue(NatToString(n)) == n
    decreases n
  {
    var s := NatToString(n);
    if n >= 10 {
      DigitsOfNat(n / 10);
      assert s[..|s| - 1] == NatToString(n / 10);
    }
  }

  // ---------------------------------------------------------------------
  // Stripping one character: str.lstrip(c), str.rstrip(c), str.strip(c)
  // ---------------------------------------------------------------------

  /** `s.rstrip(c)` for one character. */
  function RStrip(s: string, c: char): (r: string)
    ensures StartsWith(s, r)
    ensures |r| == 0 || r[|r| - 1] != c
    decreases |s|
  {
    if |s| > 0 && s[|s| - 1] == c then RStrip(s[..|s| - 1], c) else s
  }

  lemma {:induction false} RStripRemovesOnly(s: string, c: char)
    ensures forall i :: |RStrip(s, c)| <= i < |s| ==> s[i] == c
    decreases |s|
  {
    if |s| > 0 && s[|s| - 1] == c {
      RStripRemovesOnly(s[..|s| - 1], c);
    }
  }

  /** `s.lstrip(c)` for one character. */
  function LStrip(s: string, c: char): (r: string)
    ensures EndsWith(s, r)
    ensures |r| == 0 || r[0] != c
    decreases |s|
  {
    if |s| > 0 && s[0] == c then
      var r := LStrip(s[1..], c);
      assert s[|s| - |r|..] == s[1..][|s| - 1 - |r|..];
      r
    else s
  }

  /** `s.strip(c)` for one character. */
  function Strip(s: string, c: char): (r: string)
    ensures |r| == 0 || (r[0] != c && r[|r| - 1] != c)
  {
    var l := LStrip(s, c);
    var r := RStrip(l, c);
    assert |r| > 0 ==> r[0] == l[0];
    r
  }

  /** Stripping a character off a text that is wrapped in it, once on each
      side, gives the text back when the text neither starts nor ends with
      that character. */
  lemma StripWrapped(t: string, c: char)
    requires |t| == 0 || (t[0] != c && t[|t| - 1] != c)
    ensures Strip([c] + t + [c], c) == t
  {
    var s := [c] + t + [c];
    assert s[1..] == t + [c];
    if |t| == 0 {
      assert LStrip(s, c) == LStrip([c], c) == LStrip([], c) == [];
      assert Strip(s, c) == RStrip([], c) == [];
    } else {
      assert LStrip(s[1..], c) == t + [c];
      assert LStrip(s, c) == t + [c];
      assert (t + [c])[..|t|] == t;
      assert RStrip(t + [c], c) == RStrip(t, c) == t;
    }
  }
}
