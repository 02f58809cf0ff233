/**
  Numbered markers (`:1`, `:2`, ...): python/hs2client/dbapi.py replaces the largest number
  first, everywhere, then the next smaller one.  The reference is a single pass that takes
  the longest number it can at every colon.
*/
module Numbered {
  import opened PyString
  import opened Decimal

  /** `:` and the decimal number of a parameter */
  function Marker(k: nat): (m: string)
    ensures |m| > 1 && m[0] == ':' && m[1..] == Digits(k)
  {
    ":" + Digits(k)
  }

  function Descend(op: string, ps: seq<string>, k: nat): string
    requires k <= |ps|
    decreases k
  {
    if k == 0 then op else Descend(Replace(op, Marker(k), ps[k - 1]), ps, k - 1)
  }

  // ----- The reference

  /** The text names one of the parameters `1..n`. */
  predicate IsName(w: string, n: nat) {
    IsNumeral(w) && Value(w) <= n
  }

  /** The length of the longest name that `s[..limit]` starts with, or zero. */
  function NameLength(s: string, n: nat, limit: nat): (r: nat)
    requires limit <= |s|
    ensures r <= limit && (r > 0 ==> IsName(s[..r], n))
  {
    if limit == 0 then 0 else if IsName(s[..limit], n) then limit else NameLength(s, n, limit - 1)
  }

  lemma {:induction false} NameIsLongest(s: string, n: nat, limit: nat)
    requires limit <= |s|
    ensures forall j :: NameLength(s, n, limit) < j <= limit ==> !IsName(s[..j], n)
  {
    if limit > 0 && !IsName(s[..limit], n) { NameIsLongest(s, n, limit - 1); }
  }

  /** One pass from left to right that replaces the names of parameters greater than `k`. */
  function Pass(s: string, ps: seq<string>, k: nat): string
    decreases |s|
  {
    if s == [] then [] else
    var t := s[1..];
    var r := if s[0] == ':' then NameLength(t, |ps|, |t|) else 0;
    if r > 0 && Value(t[..r]) > k
    then DigitsValue(t[..r]); ps[Value(t[..r]) - 1] + Pass(t[r..], ps, k)
    else [s[0]] + Pass(t, ps, k)
  }

  // ----- Steps of the pass and of a replacement

  /** The pass at any other character. */
  lemma PassAtOther(s: string, c: char, t: string, ps: seq<string>, k: nat)
    requires s == [c] + t
    requires c == ':' ==> var r := NameLength(t, |ps|, |t|); r == 0 || Value(t[..r]) <= k
    ensures Pass(s, ps, k) == [c] + Pass(t, ps, k)
  {
    assert s[1..] == t;
  }

  lemma {:induction false} PassCopiesDigits(w: string, t: string, ps: seq<string>, k: nat)
    requires AllDigits(w) && w <= t
    ensures Pass(t, ps, k) == w + Pass(t[|w|..], ps, k)
    decreases |w|
  {
    if w == [] {
      assert t[0..] == t;
    } else {
      var c, w', t' := w[0], w[1..], t[1..];
      assert IsDigit(c) && t == [c] + t' && w == [c] + w';
      PassCopiesDigits(w', t', ps, k);
      PassAtOther(t, c, t', ps, k);
      assert t'[|w'|..] == t[|w|..];
      assert [c] + (w' + Pass(t[|w|..], ps, k)) == w + Pass(t[|w|..], ps, k);
    }
  }

  lemma DigitsWithin(w: string, run: string, p: string)
    requires AllDigits(w) && w <= run + p && (p != [] ==> !IsDigit(p[0]))
    ensures |w| <= |run| && w == run[..|w|]
  {
    var x := run + p;
    assert forall i :: 0 <= i < |w| ==> w[i] == x[i] && IsDigit(x[i]);
    assert p != [] ==> x[|run|] == p[0];
    assert w == (run + p)[..|w|];
  }

  /** A character that cannot begin the pattern is copied. */
  lemma ReplaceCopies(c: char, x: string, s: string, m: string, q: string)
    requires m != [] && m[0] != c && s == [c] + x
    ensures Replace(s, m, q) == [c] + Replace(x, m, q)
  {
    assert s[0] == c && s[1..] == x;
  }

  lemma {:induction false} ReplaceSkips(p: string, x: string, m: string, q: string)
    requires m != [] && m[0] !in p
    ensures Replace(p + x, m, q) == p + Replace(x, m, q)
    decreases |p|
  {
    if p == [] {
      assert p + x == x;
    } else {
      var c, p' := p[0], p[1..];
      assert p == [c] + p' && c in p;
      assert m[0] !in p';
      ReplaceSkips(p', x, m, q);
      ReplaceCopies(c, p' + x, p + x, m, q);
      assert [c] + (p' + Replace(x, m, q)) == p + Replace(x, m, q);
    }
  }

  /** If a number that is a parameter's stands behind the colon, the longest name is at least that. */
  lemma LongestName(t: string, n: nat, k: nat)
    requires 1 <= k <= n && Digits(k) <= t
    ensures var r := NameLength(t, n, |t|); r > 0 && Value(t[..r]) >= k
  {
    var d, r := Digits(k), NameLength(t, n, |t|);
    NameIsLongest(t, n, |t|);
    ValueDigits(k);
    assert t[..|d|] == d;
    assert IsName(t[..|d|], n);
    assert t[..|d|] <= t[..r];
    ValuePrefix(d, t[..r]);
  }

  lemma PrefixTail(c: char, d: string, y: string)
    requires [c] + d <= [c] + y
    ensures d <= y
  {
    var x := [c] + y;
    assert d == ([c] + d)[1..] == x[..|d| + 1][1..] == x[1..][..|d|];
    assert x[1..] == y;
  }

  lemma ReplaceHead(m: string, x: string, q: string)
    requires m != []
    ensures Replace(m + x, m, q) == q + Replace(x, m, q)
  {
    assert (m + x)[|m|..] == x;
  }

  lemma ReplaceMiss(c: char, x: string, m: string, q: string)
    requires m != [] && !(m <= [c] + x)
    ensures Replace([c] + x, m, q) == [c] + Replace(x, m, q)
  {
    assert ([c] + x)[1..] == x;
  }

  /** The pass at a colon with a name above `k` puts the parameter in. */
  lemma PassReplaces(s: string, t: string, ps: seq<string>, k: nat, r: nat, j: nat)
    requires s == [':'] + t && r == NameLength(t, |ps|, |t|) > 0 && j == Value(t[..r]) > k
    ensures 1 <= j <= |ps| && Pass(s, ps, k) == ps[j - 1] + Pass(t[r..], ps, k)
  {
    assert j > 0 by { DigitsValue(t[..r]); }
    assert s != [] && s[0] == ':' && s[1..] == t;
  }

  /** The pass at a colon with a name that is not above `k` copies the whole marker. */
  lemma PassKeepsMarker(s: string, t: string, ps: seq<string>, k: nat, r: nat, j: nat)
    requires s == [':'] + t && r == NameLength(t, |ps|, |t|) > 0 && j == Value(t[..r]) <= k
    ensures 1 <= j <= |ps| && Pass(s, ps, k) == Marker(j) + Pass(t[r..], ps, k)
  {
    var d, x := t[..r], Pass(t[r..], ps, k);
    assert d == Digits(j) && 1 <= j <= |ps| by { DigitsValue(d); }
    assert Pass(t, ps, k) == d + x by { PassCopiesDigits(d, t, ps, k); }
    assert Pass(s, ps, k) == [':'] + (d + x) by { PassAtOther(s, ':', t, ps, k); }
    MarkerFirst(j, d, x);
  }

  lemma MarkerFirst(j: nat, d: string, x: string)
    requires d == Digits(j)
    ensures [':'] + (d + x) == Marker(j) + x
  {
  }

  lemma {:induction false} PassAboveAll(s: string, ps: seq<string>)
    ensures Pass(s, ps, |ps|) == s
    decreases |s|
  {
    if s != [] { PassAboveAll(s[1..], ps); }
  }

  // ----- Reading a marker

  lemma {:induction false} DescendWithoutColon(s: string, ps: seq<string>, k: nat)
    requires k <= |ps| && ':' !in s
    ensures Descend(s, ps, k) == s
    decreases k
  {
    if k > 0 {
      ReplaceSkips(s, "", Marker(k), ps[k - 1]);
      assert s + "" == s;
      DescendWithoutColon(s, ps, k - 1);
    }
  }

  lemma {:induction false} PassCopiesPlain(g: string, t: string, ps: seq<string>, k: nat)
    requires ':' !in g
    ensures Pass(g + t, ps, k) == g + Pass(t, ps, k)
    decreases |g|
  {
    if g == [] {
      assert g + t == t;
    } else {
      var c, g' := g[0], g[1..];
      assert g == [c] + g' && c in g;
      assert ':' !in g';
      PassCopiesPlain(g', t, ps, k);
      PassAtOther(g + t, c, g' + t, ps, k);
      assert [c] + (g' + Pass(t, ps, k)) == g + Pass(t, ps, k);
    }
  }

  lemma NameOfMarker(i: nat, t: string, n: nat)
    requires 1 <= i <= n && (t != [] ==> !IsDigit(t[0]))
    ensures var u := Digits(i) + t; NameLength(u, n, |u|) == |Digits(i)|
  {
    var d, u := Digits(i), Digits(i) + t;
    ValueDigits(i);
    assert IsName(u[..|d|], n) by { assert u[..|d|] == d; }
    forall j | |d| < j <= |u| ensures !IsName(u[..j], n) {
      assert u[..j][|d|] == t[0];
    }
    NameIsLongest(u, n, |u|);
  }

  /** A marker that no digit follows is read as its own number. */
  lemma PassReadsMarker(i: nat, t: string, ps: seq<string>, k: nat)
    requires 1 <= i <= |ps| && k < i && (t != [] ==> !IsDigit(t[0]))
    ensures Pass(Marker(i) + t, ps, k) == ps[i - 1] + Pass(t, ps, k)
  {
    var u, n := Digits(i) + t, |Digits(i)|;
    assert NameLength(u, |ps|, |u|) == n by { NameOfMarker(i, t, |ps|); }
    assert u[..n] == Digits(i) && u[n..] == t;
    assert Value(u[..n]) == i by { ValueDigits(i); }
    PassReplaces([':'] + u, u, ps, k, n, i);
    assert Marker(i) + t == [':'] + u;
  }
}
