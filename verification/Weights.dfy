/**
  Why a replacement in a finished statement cannot be undone by later ones: markers hold no
  quotes or letters but `s`, and most parameters do.
*/
module Weights {
  import opened PyString
  import opened Decimal
  import opened Markers
  import opened Numbered

  /** A character of `%s` or of a numbered marker. */
  predicate InMarker(c: char) {
    c == '%' || c == 's' || c == ':' || IsDigit(c)
  }

  /** The number of characters that no marker holds or, otherwise, of those that a marker begins with. */
  function Count(s: string, solid: bool): nat {
    if s == [] then 0 else (if Counted(s[0], solid) then 1 else 0) + Count(s[1..], solid)
  }

  predicate Counted(c: char, solid: bool) {
    if solid then !InMarker(c) else c == '%' || c == ':'
  }

  lemma {:induction false} CountConcat(u: string, v: string, solid: bool)
    ensures Count(u + v, solid) == Count(u, solid) + Count(v, solid)
  {
    if u == [] {
      assert u + v == v;
    } else {
      assert (u + v)[1..] == u[1..] + v;
      CountConcat(u[1..], v, solid);
    }
  }

  lemma {:induction false} CountDigits(w: string, solid: bool)
    requires AllDigits(w)
    ensures Count(w, solid) == 0
  {
    if w != [] { CountDigits(w[1..], solid); }
  }

  lemma {:induction false} CountHas(s: string, c: char, solid: bool)
    requires c in s && Counted(c, solid)
    ensures Count(s, solid) > 0
  {
    if s[0] != c { CountHas(s[1..], c, solid); }
  }

  /** A marker of the second or third pass: it has no solid character, and one that markers begin with. */
  predicate IsLight(m: string) {
    m != [] && Count(m, true) == 0 && Count(m, false) == 1
  }

  lemma MarkersAreLight(k: nat)
    ensures IsLight(Marker(k)) && IsLight("%s")
  {
    CountDigits(Digits(k), true);
    CountDigits(Digits(k), false);
    assert "%s"[1..] == "s" && "s"[1..] == "";
  }

  /** The parameter holds a solid character, or nothing that a marker begins with. */
  predicate Keeps(p: string) {
    Count(p, true) > 0 || Count(p, false) == 0
  }

  predicate AllKeep(ps: seq<string>) {
    forall i :: 0 <= i < |ps| ==> Keeps(ps[i])
  }

  /** There are more solid characters, or as many and fewer that markers begin with. */
  predicate Moved(x: string, y: string) {
    Count(x, true) < Count(y, true) || (Count(x, true) == Count(y, true) && Count(y, false) < Count(x, false))
  }

  predicate MovedOrSame(x: string, y: string) {
    x == y || Moved(x, y)
  }

  lemma MovedConcat(u: string, u': string, x: string, y: string)
    requires MovedOrSame(u, u') && MovedOrSame(x, y)
    ensures MovedOrSame(u + x, u' + y)
    ensures Moved(u, u') || Moved(x, y) ==> Moved(u + x, u' + y)
  {
    CountConcat(u, x, true);
    CountConcat(u', y, true);
    CountConcat(u, x, false);
    CountConcat(u', y, false);
  }

  lemma ParameterMoves(m: string, p: string)
    requires IsLight(m) && Keeps(p)
    ensures Moved(m, p)
  {
  }

  // ----- The second pass

  lemma ReplaceFirstMoves(s: string, m: string, p: string)
    requires IsLight(m) && Keeps(p) && Find(s, m) >= 0
    ensures Moved(s, ReplaceFirst(s, m, p))
  {
    var f := Find(s, m);
    FindIsFirst(s, m);
    CutAt(s, m, f);
    var u, v := s[..f], s[f + |m|..];
    ParameterMoves(m, p);
    MovedConcat(u, u, m, p);
    MovedConcat(u + m, u + p, v, v);
  }

  lemma {:induction false} RewriteMoves(m: string, s: string, ps: seq<string>, k: nat)
    requires IsLight(m) && AllKeep(ps) && k <= |ps| && Rewrite(m, s, ps, k).Bound?
    ensures MovedOrSame(s, Rewrite(m, s, ps, k).text)
    ensures Find(s, m) >= 0 ==> Moved(s, Rewrite(m, s, ps, k).text)
    decreases |ps| - k
  {
    if Find(s, m) >= 0 {
      var t := ReplaceFirst(s, m, ps[k]);
      RewriteOnce(m, s, ps, k, t);
      ReplaceFirstMoves(s, m, ps[k]);
      RewriteMoves(m, t, ps, k + 1);
    }
  }

  // ----- The third pass

  lemma {:induction false} ReplaceMoves(s: string, m: string, p: string)
    requires IsLight(m) && Keeps(p)
    ensures MovedOrSame(s, Replace(s, m, p))
    ensures Find(s, m) >= 0 ==> Moved(s, Replace(s, m, p))
    decreases |s|
  {
    if s != [] {
      if m <= s {
        var v := s[|m|..];
        assert s == m + v;
        ReplaceMoves(v, m, p);
        ParameterMoves(m, p);
        MovedConcat(m, p, v, Replace(v, m, p));
      } else {
        ReplaceMoves(s[1..], m, p);
        assert s == [s[0]] + s[1..];
        MovedConcat([s[0]], [s[0]], s[1..], Replace(s[1..], m, p));
      }
    }
  }

  lemma {:induction false} ReplaceAbsent(s: string, m: string, p: string)
    requires m != [] && Find(s, m) < 0
    ensures Replace(s, m, p) == s
    decreases |s|
  {
    if s != [] { ReplaceAbsent(s[1..], m, p); }
  }

  /** None of the markers up to `k` is in the text. */
  predicate NoNumber(s: string, k: nat) {
    forall j :: 1 <= j <= k ==> Find(s, Marker(j)) < 0
  }

  lemma {:induction false} DescendMoves(s: string, ps: seq<string>, k: nat)
    requires AllKeep(ps) && k <= |ps|
    ensures MovedOrSame(s, Descend(s, ps, k))
    ensures Descend(s, ps, k) == s ==> NoNumber(s, k)
    decreases k
  {
    if k > 0 {
      var m, p := Marker(k), ps[k - 1];
      MarkersAreLight(k);
      ReplaceMoves(s, m, p);
      DescendMoves(Replace(s, m, p), ps, k - 1);
      if Find(s, m) < 0 { ReplaceAbsent(s, m, p); }
    }
  }

  lemma {:induction false} DescendAbsent(s: string, ps: seq<string>, k: nat)
    requires k <= |ps| && NoNumber(s, k)
    ensures Descend(s, ps, k) == s
    decreases k
  {
    if k > 0 {
      ReplaceAbsent(s, Marker(k), ps[k - 1]);
      DescendAbsent(s, ps, k - 1);
    }
  }
}
