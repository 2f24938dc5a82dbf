/** Python's ordering of `str` values (lexicographic by code point) and
    `sorted` on a set of strings. */
module Sorting {

  /** `a < b` on Python strings: the first differing character decides,
      and a proper prefix comes first. */
  predicate Below(a: string, b: string)
    decreases |a|
  {
    |b| > 0 && (|a| == 0 || a[0] < b[0] || (a[0] == b[0] && Below(a[1..], b[1..])))
  }

  predicate AtMost(a: string, b: string) {
    a == b || Below(a, b)
  }

  lemma {:induction false} BelowIrreflexive(a: string)
    ensures !Below(a, a)
    decreases |a|
  {
    if |a| > 0 {
      BelowIrreflexive(a[1..]);
    }
  }

  lemma {:induction false} BelowTransitive(a: string, b: string, c: string)
    requires Below(a, b) && Below(b, c)
    ensures Below(a, c)
    decreases |a|
  {
    if |a| > 0 && a[0] == b[0] && b[0] == c[0] {
      BelowTransitive(a[1..], b[1..], c[1..]);
    }
  }

  /** Any two strings are comparable. */
  lemma {:induction false} BelowTotal(a: string, b: string)
    ensures a == b || Below(a, b) || Below(b, a)
    decreases |a|
  {
    if |a| > 0 && |b| > 0 && a[0] == b[0] {
      BelowTotal(a[1..], b[1..]);
      if a[1..] == b[1..] {
        assert a == [a[0]] + a[1..] && b == [b[0]] + b[1..];
      }
    }
  }

  lemma AtMostTransitive(a: string, b: string, c: string)
    requires AtMost(a, b) && AtMost(b, c)
    ensures AtMost(a, c)
  {
    if a != b && b != c {
      BelowTransitive(a, b, c);
    }
  }

  predicate Sorted(s: seq<string>) {
    forall i, j :: 0 <= i < j < |s| ==> AtMost(s[i], s[j])
  }

  /** The least string of a non-empty set. */
  lemma {:induction false} Least(s: set<string>) returns (m: string)
    requires s != {}
    ensures m in s && forall y :: y in s ==> AtMost(m, y)
    decreases |s|
  {
    var x :| x in s;
    if s == {x} {
      m := x;
    } else {
      var m' := Least(s - {x});
      BelowTotal(x, m');
      if Below(x, m') {
        m := x;
        forall y | y in s
          ensures AtMost(x, y)
        {
          if y != x {
            AtMostTransitive(x, m', y);
          }
        }
      } else {
        m := m';
      }
    }
  }

  lemma LeastExists(s: set<string>)
    requires s != {}
    ensures exists m :: m in s && forall y :: y in s ==> AtMost(m, y)
  {
    var m := Least(s);
  }

  lemma AtMostAntisymmetric(a: string, b: string)
    requires AtMost(a, b) && AtMost(b, a)
    ensures a == b
  {
    if a != b {
      BelowTransitive(a, b, a);
      BelowIrreflexive(a);
    }
  }

  /** `sorted(keys)` for a set of strings. */
  function SortedKeys(s: set<string>): (r: seq<string>)
    ensures Sorted(r)
    ensures |r| == |s|
    ensures forall k :: k in r <==> k in s
    decreases |s|
  {
    if s == {} then []
    else
      LeastExists(s);
      forall a, b | a in s && b in s && AtMost(a, b) && AtMost(b, a)
        ensures a == b
      {
        AtMostAntisymmetric(a, b);
      }
      var m :| m in s && forall y :: y in s ==> AtMost(m, y);
      var rest := SortedKeys(s - {m});
      SortedCons(m, rest);
      [m] + rest
  }

  lemma SortedCons(m: string, rest: seq<string>)
    requires Sorted(rest) && forall y :: y in rest ==> AtMost(m, y)
    ensures Sorted([m] + rest)
  {
    forall i, j | 0 <= i < j < |rest| + 1
      ensures AtMost(([m] + rest)[i], ([m] + rest)[j])
    {
      if i > 0 {
        assert AtMost(rest[i - 1], rest[j - 1]);
      } else {
        assert rest[j - 1] in rest;
      }
    }
  }
}
