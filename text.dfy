/** Python string behaviour the application relies on: `str.strip()`,
    the ordering of `str` values, and `sorted()` over a set of strings. */
module Text {

  /** Python's `str.isspace()` characters, which `str.strip()` removes. */
  predicate IsSpace(c: char) {
    ('\t' <= c <= '\r')                   // tab, line feed, vertical tab, form feed, carriage return
    || ('\U{1C}' <= c <= '\U{1F}')         // file, group, record and unit separators
    || c == ' ' || c == '\U{85}' || c == '\U{A0}' || c == '\U{1680}'
    || ('\U{2000}' <= c <= '\U{200A}')
    || c == '\U{2028}' || c == '\U{2029}' || c == '\U{202F}' || c == '\U{205F}' || c == '\U{3000}'
  }

  /** `s[lo..hi]` is all whitespace. */
  predicate AllSpace(s: string, lo: int, hi: int) {
    forall k :: lo <= k < hi && 0 <= k < |s| ==> IsSpace(s[k])
  }

  /** `r` is the slice of `s` starting at `i`, with only whitespace around it. */
  predicate SpaceAround(s: string, r: string, i: int) {
    0 <= i <= |s| - |r| && r == s[i..i + |r|] && AllSpace(s, 0, i) && AllSpace(s, i + |r|, |s|)
  }

  /** The scan from the left: the index of the first non-whitespace
      character of `s` at or after `i`, or `|s|` when there is none. */
  function SkipLeading(s: string, i: nat): (j: nat)
    requires i <= |s|
    ensures i <= j <= |s|
    ensures AllSpace(s, i, j)
    ensures j == |s| || !IsSpace(s[j])
    decreases |s| - i
  {
    if i < |s| && IsSpace(s[i]) then SkipLeading(s, i + 1) else i
  }

  /** The scan from the right: the end of `s[lo..hi]` once its trailing
      whitespace is dropped. */
  function SkipTrailing(s: string, lo: nat, hi: nat): (e: nat)
    requires lo <= hi <= |s|
    ensures lo <= e <= hi
    ensures AllSpace(s, e, hi)
    ensures e == lo || !IsSpace(s[e - 1])
    decreases hi - lo
  {
    if lo < hi && IsSpace(s[hi - 1]) then SkipTrailing(s, lo, hi - 1) else hi
  }

  /** Python's `s.strip()`: the slice of `s` between its leading and its
      trailing whitespace. */
  function Strip(s: string): (r: string)
    ensures exists i :: SpaceAround(s, r, i)
    ensures r == [] <==> AllSpace(s, 0, |s|)
    ensures r != [] ==> !IsSpace(r[0]) && !IsSpace(r[|r| - 1])
  {
    var i := SkipLeading(s, 0);
    var e := SkipTrailing(s, i, |s|);
    StripBounds(s, i, e);
    s[i..e]
  }

  /** What the two scans leave: the slice between the first and the last
      non-whitespace characters. */
  lemma StripBounds(s: string, i: int, e: int)
    requires 0 <= i <= e <= |s|
    requires AllSpace(s, 0, i) && (i == |s| || !IsSpace(s[i]))
    requires AllSpace(s, e, |s|) && (e == i || !IsSpace(s[e - 1]))
    ensures SpaceAround(s, s[i..e], i)
    ensures s[i..e] == [] <==> AllSpace(s, 0, |s|)
    ensures s[i..e] != [] ==> !IsSpace(s[i..e][0]) && !IsSpace(s[i..e][e - i - 1])
  {
    var r := s[i..e];
    if r == [] {
      assert e == i;
    } else {
      assert r[0] == s[i] && r[e - i - 1] == s[e - 1];
      assert !IsSpace(s[i]);
    }
  }

  /** `r` is `s` without some whitespace at either end, and has none left
      there. */
  ghost predicate Trimmed(s: string, r: string) {
    (exists i :: SpaceAround(s, r, i))
    && (r == [] || (!IsSpace(r[0]) && !IsSpace(r[|r| - 1])))
  }

  /** Python's `<` on `str`: the first differing code point decides, and a
      proper prefix comes first. */
  predicate LexLess(s: string, t: string)
    decreases |s|
  {
    if s == [] then t != []
    else if t == [] then false
    else if s[0] != t[0] then s[0] < t[0]
    else LexLess(s[1..], t[1..])
  }

  lemma {:induction false} LexLessIrreflexive(s: string)
    ensures !LexLess(s, s)
    decreases |s|
  {
    if s != [] { LexLessIrreflexive(s[1..]); }
  }

  lemma {:induction false} LexLessAsymmetric(s: string, t: string)
    requires LexLess(s, t)
    ensures !LexLess(t, s)
    decreases |s|
  {
    if s != [] && t != [] && s[0] == t[0] { LexLessAsymmetric(s[1..], t[1..]); }
  }

  lemma {:induction false} LexLessTransitive(a: string, b: string, c: string)
    requires LexLess(a, b) && LexLess(b, c)
    ensures LexLess(a, c)
    decreases |a|
  {
    if a != [] && a[0] == b[0] && b[0] == c[0] {
      LexLessTransitive(a[1..], b[1..], c[1..]);
    }
  }

  lemma {:induction false} LexLessTotal(s: string, t: string)
    ensures s == t || LexLess(s, t) || LexLess(t, s)
    decreases |s|
  {
    if s != [] && t != [] && s[0] == t[0] {
      LexLessTotal(s[1..], t[1..]);
      if s[1..] == t[1..] { assert s == [s[0]] + s[1..] && t == [t[0]] + t[1..]; }
    }
  }

  /** A common prefix does not change the order. */
  lemma {:induction false} LexLessCommonPrefix(p: string, u: string, v: string)
    requires LexLess(u, v)
    ensures LexLess(p + u, p + v)
    decreases |p|
  {
    if p != [] {
      var s, t := p + u, p + v;
      LexLessCommonPrefix(p[1..], u, v);
      assert s[1..] == p[1..] + u && t[1..] == p[1..] + v;
      assert s[0] == t[0];
    } else {
      assert p + u == u && p + v == v;
    }
  }

  /** Order between strings of equal length is decided inside them, whatever follows. */
  lemma {:induction false} LexLessExtend(s: string, t: string, u: string, v: string)
    requires |s| == |t| && LexLess(s, t)
    ensures LexLess(s + u, t + v)
    decreases |s|
  {
    if s[0] == t[0] {
      LexLessExtend(s[1..], t[1..], u, v);
      assert (s + u)[1..] == s[1..] + u && (t + v)[1..] == t[1..] + v;
    }
  }

  lemma HeadIn(b: seq<string>)
    ensures b != [] ==> b[0] in b
  {
  }

  predicate StrictlyAscending(xs: seq<string>) {
    forall i, j :: 0 <= i < j < |xs| ==> LexLess(xs[i], xs[j])
  }

  /** Two strictly ascending sequences with the same elements are equal:
      the ascending enumeration of a set is unique. */
  lemma {:induction false} AscendingUnique(a: seq<string>, b: seq<string>)
    requires StrictlyAscending(a) && StrictlyAscending(b)
    requires forall x :: x in a <==> x in b
    ensures a == b
    decreases |a|
  {
    HeadIn(b);
    if a != [] {
      assert a[0] in b;
      assert b != [];
      assert b[0] in a;
      var i :| 0 <= i < |a| && a[i] == b[0];
      var j :| 0 <= j < |b| && b[j] == a[0];
      if i != 0 {
        assert LexLess(a[0], b[0]);
        if j != 0 {
          assert LexLess(b[0], a[0]);
          LexLessAsymmetric(a[0], b[0]);
        }
        LexLessIrreflexive(a[0]);
      }
      assert a[0] == b[0];
      forall x ensures x in a[1..] <==> x in b[1..] {
        if x in a[1..] {
          var k :| 1 <= k < |a| && a[k] == x;
          assert LexLess(a[0], x);
          if x == b[0] { LexLessIrreflexive(a[0]); }
          assert x in b;
          var l :| 0 <= l < |b| && b[l] == x;
          assert l != 0;
          assert b[1..][l - 1] == x;
        }
        if x in b[1..] {
          var k :| 1 <= k < |b| && b[k] == x;
          assert LexLess(b[0], x);
          if x == a[0] { LexLessIrreflexive(b[0]); }
          assert x in a;
          var l :| 0 <= l < |a| && a[l] == x;
          assert l != 0;
          assert a[1..][l - 1] == x;
        }
      }
      AscendingUnique(a[1..], b[1..]);
      assert a == [a[0]] + a[1..] && b == [b[0]] + b[1..];
    }
  }

  /** The least string of a non-empty set, in Python's order. */
  predicate IsLeast(m: string, s: set<string>) {
    m in s && forall y :: y in s ==> y == m || LexLess(m, y)
  }

  lemma {:induction false} LeastExists(s: set<string>)
    requires s != {}
    ensures exists m :: IsLeast(m, s)
    decreases |s|
  {
    var x :| x in s;
    if s - {x} == {} {
      assert s == {x};
      assert IsLeast(x, s);
    } else {
      LeastExists(s - {x});
      var m :| IsLeast(m, s - {x});
      LexLessTotal(m, x);
      if LexLess(x, m) {
        forall y | y in s ensures y == x || LexLess(x, y) {
          if y != x && y != m { LexLessTransitive(x, m, y); }
        }
        assert IsLeast(x, s);
      } else {
        assert IsLeast(m, s);
      }
    }
  }

  lemma LeastUnique(s: set<string>)
    ensures forall a, b :: IsLeast(a, s) && IsLeast(b, s) ==> a == b
  {
    forall a, b | IsLeast(a, s) && IsLeast(b, s) ensures a == b {
      if a != b {
        assert LexLess(a, b) && LexLess(b, a);
        LexLessAsymmetric(a, b);
      }
    }
  }

  /** Python's `sorted()` applied to a set of strings: its elements in
      ascending order, each once. */
  function SortedSet(s: set<string>): (r: seq<string>)
    ensures StrictlyAscending(r)
    ensures forall x :: x in r <==> x in s
    ensures |r| == |s|
    decreases |s|
  {
    if s == {} then []
    else
      LeastExists(s);
      LeastUnique(s);
      var m :| IsLeast(m, s);
      var rest := SortedSet(s - {m});
      assert forall k :: 0 <= k < |rest| ==> rest[k] in rest && LexLess(m, rest[k]);
      [m] + rest
  }
}
