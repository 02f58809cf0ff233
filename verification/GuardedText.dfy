/**
  Numbered markers with parameters that begin with a quote or another character that is no
  digit, and may hold colons: the exact condition on the result of the whole loop.
*/
module GuardedText {
  import opened PyString
  import opened Decimal
  import opened Numbered
  import opened Rounds
  import opened Weights

  /** The literal of a text or a missing value: no digit in front, and a character that no marker holds. */
  predicate Guarded(p: string) {
    p != [] && !IsDigit(p[0]) && Count(p, true) > 0
  }

  predicate AllGuarded(ps: seq<string>) {
    forall i :: 0 <= i < |ps| ==> Guarded(ps[i])
  }

  // ----- Inserted texts show no new digits behind a colon

  lemma {:induction false} DigitsOfReplace(w: string, x: string, m: string, q: string)
    requires AllDigits(w) && m != [] && Guarded(q) && w <= Replace(x, m, q)
    ensures w <= x
    decreases |x|
  {
    if w != [] {
      assert w[0] == Replace(x, m, q)[0];
      assert !(m <= x);
      var v := w[1..];
      assert v <= Replace(x[1..], m, q) by { PrefixTail(x[0], v, Replace(x[1..], m, q)); }
      DigitsOfReplace(v, x[1..], m, q);
      assert w == [x[0]] + v && x == [x[0]] + x[1..];
    }
  }

  lemma {:induction false} DigitsOfPass(w: string, s: string, ps: seq<string>, k: nat)
    requires AllDigits(w) && AllGuarded(ps) && 1 <= k <= |ps| && w <= Pass(s, ps, k)
    ensures w <= s
    decreases |s|
  {
    if w != [] && s != [] {
      var f := FirstStep(s, |ps|, k);
      StepsAre(s, ps, k);
      var x := Pass(f.rest, ps, k);
      assert w[0] == Pass(s, ps, k)[0] && IsDigit(w[0]);
      assert f.Copied?;
      var v := w[1..];
      assert w == [f.c] + v;
      PrefixTail(f.c, v, x);
      DigitsOfPass(v, f.rest, ps, k);
    }
  }

  // ----- Solid characters, including those that names stand for

  /** What a colon is worth: the solid characters of the parameter up to `k` that the text behind it names. */
  function NameYield(t: string, ps: seq<string>, k: nat): nat
    requires k <= |ps|
  {
    var r := NameLength(t, k, |t|);
    if r > 0 then DigitsValue(t[..r]); Count(ps[Value(t[..r]) - 1], true) else 0
  }

  function Yield(x: string, ps: seq<string>, k: nat): nat
    requires k <= |ps|
  {
    if x == [] then 0 else
    var here := if x[0] == ':' then NameYield(x[1..], ps, k) else Count([x[0]], true);
    here + Yield(x[1..], ps, k)
  }

  lemma YieldCons(c: char, x: string, ps: seq<string>, k: nat)
    requires k <= |ps|
    ensures Yield([c] + x, ps, k) == (if c == ':' then NameYield(x, ps, k) else Count([c], true)) + Yield(x, ps, k)
  {
    assert ([c] + x)[1..] == x;
  }

  lemma {:induction false} YieldDigits(w: string, x: string, ps: seq<string>, k: nat)
    requires k <= |ps| && AllDigits(w)
    ensures Yield(w + x, ps, k) == Yield(x, ps, k)
  {
    if w == [] {
      assert w + x == x;
    } else {
      YieldDigits(w[1..], x, ps, k);
      assert w + x == [w[0]] + (w[1..] + x);
      CountDigits([w[0]], true);
      YieldCons(w[0], w[1..] + x, ps, k);
    }
  }

  lemma {:induction false} YieldNone(x: string, ps: seq<string>)
    ensures Yield(x, ps, 0) == Count(x, true)
  {
    if x != [] {
      var t := x[1..];
      YieldNone(t, ps);
      assert x == [x[0]] + t;
      CountConcat([x[0]], t, true);
      var r := NameLength(t, 0, |t|);
      if r > 0 { DigitsValue(t[..r]); }
    }
  }

  lemma {:induction false} YieldConcat(u: string, x: string, ps: seq<string>, k: nat)
    requires k <= |ps|
    ensures Yield(u + x, ps, k) >= Count(u, true) + Yield(x, ps, k)
  {
    if u == [] {
      assert u + x == x;
    } else {
      var c, v := u[0], u[1..];
      YieldConcat(v, x, ps, k);
      assert u + x == [c] + (v + x) && u == [c] + v;
      YieldCons(c, v + x, ps, k);
      CountConcat([c], v, true);
    }
  }

  /** The number `k` behind a colon is the longest name up to `k`. */
  lemma NameYieldOf(t: string, ps: seq<string>, k: nat)
    requires 1 <= k <= |ps| && Digits(k) <= t
    ensures NameYield(t, ps, k) == Count(ps[k - 1], true)
  {
    LongestName(t, k, k);
  }

  lemma YieldMarker(k: nat, x: string, ps: seq<string>)
    requires 1 <= k <= |ps|
    ensures Yield(Marker(k) + x, ps, k) == Count(ps[k - 1], true) + Yield(x, ps, k)
  {
    var d := Digits(k);
    assert Marker(k) + x == [':'] + (d + x) && d <= d + x;
    YieldCons(':', d + x, ps, k);
    NameYieldOf(d + x, ps, k);
    YieldDigits(d, x, ps, k);
  }

  /** Every occurrence of marker `k` that begins in `u` is worth something. */
  lemma {:induction false} YieldBehind(u: string, x: string, ps: seq<string>, k: nat)
    requires 1 <= k <= |ps| && Guarded(ps[k - 1])
    ensures var m := Marker(k);
            Yield(u + x, ps, k) - Occurrences(u + x, m) >= Count(u, true) + Yield(x, ps, k) - Occurrences(x, m)
  {
    var m := Marker(k);
    if u == [] {
      assert u + x == x;
    } else {
      var c, v := u[0], u[1..];
      var y := v + x;
      YieldBehind(v, x, ps, k);
      assert u + x == [c] + y && u == [c] + v && ([c] + y)[1..] == y;
      YieldCons(c, y, ps, k);
      CountConcat([c], v, true);
      OccurrencesCons(c, y, m);
      MarkerPrefix(k, [c] + y);
      if m <= [c] + y { NameYieldOf(y, ps, k); }
    }
  }

  // ----- A round loses nothing

  /** Two texts with the same digits in front have the same longest name, if that is not above either bound. */
  lemma SameName(x: string, n: nat, r: nat, y: string, n': nat, r': nat)
    requires n' <= n && r == NameLength(x, n, |x|) > 0 && Value(x[..r]) <= n' && x[..r] <= y
    requires r' == NameLength(y, n', |y|) && y[..r'] <= x
    ensures r' == r && y[..r] == x[..r]
  {
    assert y[..r] == x[..r];
    assert r' >= r by { NameIsLongest(y, n', |y|); }
    assert x[..r'] == y[..r'];
    assert r >= r' by { NameIsLongest(x, n, |x|); }
  }

  lemma SameNameYield(x: string, n: nat, y: string, n': nat, ps: seq<string>, r: nat, r': nat)
    requires n' <= n <= |ps| && r == NameLength(x, n, |x|) > 0 && Value(x[..r]) <= n' && x[..r] <= y
    requires r' == NameLength(y, n', |y|) && y[..r'] <= x
    ensures NameYield(y, ps, n') == NameYield(x, ps, n)
  {
    SameName(x, n, r, y, n', r');
  }

  /** A name that is not the one of the round is not above `k - 1`. */
  lemma NameBelow(x: string, k: nat, r: nat)
    requires k >= 1 && r == NameLength(x, k, |x|) > 0 && !(Digits(k) <= x)
    ensures Value(x[..r]) <= k - 1
  {
    var w := x[..r];
    assert w <= x && Digits(Value(w)) == w by { DigitsValue(w); }
  }

  lemma NameYieldStays(x: string, ps: seq<string>, k: nat, y: string, r: nat, r': nat)
    requires 1 <= k <= |ps| && AllGuarded(ps) && !(Digits(k) <= x) && y == Replace(x, Marker(k), ps[k - 1])
    requires r == NameLength(x, k, |x|) && r' == NameLength(y, k - 1, |y|)
    ensures NameYield(y, ps, k - 1) >= NameYield(x, ps, k)
  {
    if r > 0 {
      var w := x[..r];
      assert Value(w) <= k - 1 by { NameBelow(x, k, r); }
      assert w <= y by {
        ReplaceSkips(w, x[r..], Marker(k), ps[k - 1]);
        assert x == w + x[r..];
      }
      assert y[..r'] <= x by { DigitsOfReplace(y[..r'], x, Marker(k), ps[k - 1]); }
      SameNameYield(x, k, y, k - 1, ps, r, r');
    }
  }

  lemma {:induction false} RoundYield(x: string, ps: seq<string>, k: nat)
    requires 1 <= k <= |ps| && AllGuarded(ps)
    ensures Yield(Replace(x, Marker(k), ps[k - 1]), ps, k - 1) >= Yield(x, ps, k)
    decreases |x|
  {
    var m, q := Marker(k), ps[k - 1];
    if x != [] {
      if m <= x {
        var x' := x[|m|..];
        assert x == m + x';
        RoundYield(x', ps, k);
        ReplaceHead(m, x', q);
        YieldMarker(k, x', ps);
        YieldConcat(q, Replace(x', m, q), ps, k - 1);
      } else {
        var c, x' := x[0], x[1..];
        assert x == [c] + x';
        RoundYield(x', ps, k);
        ReplaceMiss(c, x', m, q);
        YieldCons(c, x', ps, k);
        YieldCons(c, Replace(x', m, q), ps, k - 1);
        MarkerPrefix(k, x);
        if c == ':' {
          var y := Replace(x', m, q);
          NameYieldStays(x', ps, k, y, NameLength(x', k, |x'|), NameLength(y, k - 1, |y|));
        }
      }
    }
  }

  lemma {:induction false} DescendYield(x: string, ps: seq<string>, k: nat)
    requires k <= |ps| && AllGuarded(ps)
    ensures Count(Descend(x, ps, k), true) >= Yield(x, ps, k)
    decreases k
  {
    if k == 0 {
      YieldNone(x, ps);
    } else {
      RoundYield(x, ps, k);
      DescendYield(Replace(x, Marker(k), ps[k - 1]), ps, k - 1);
    }
  }

  // ----- What the pass is worth

  lemma YieldAtName(s: string, t: string, ps: seq<string>, r: nat, j: nat, rest: string)
    requires s == [':'] + t && r == NameLength(t, |ps|, |t|) > 0 && j == Value(t[..r]) && rest == t[r..]
    ensures 1 <= j <= |ps|
    ensures Yield(s, ps, |ps|) == Count(ps[j - 1], true) + Yield(rest, ps, |ps|)
  {
    var d, n := t[..r], |ps|;
    assert 1 <= j <= n by { DigitsValue(d); }
    assert NameYield(t, ps, n) == Count(ps[j - 1], true);
    assert Yield(t, ps, n) == Yield(rest, ps, n) by {
      YieldDigits(d, rest, ps, n);
      assert t == d + rest;
    }
    assert Yield(s, ps, n) == NameYield(t, ps, n) + Yield(t, ps, n) by { YieldCons(':', t, ps, n); }
  }

  lemma {:induction false} PassZeroYield(s: string, ps: seq<string>)
    ensures Count(Pass(s, ps, 0), true) == Yield(s, ps, |ps|)
    decreases |s|
  {
    if s != [] {
      var c, t := s[0], s[1..];
      var r := if c == ':' then NameLength(t, |ps|, |t|) else 0;
      assert s == [c] + t;
      if r > 0 {
        PassZeroYield(t[r..], ps);
        YieldAtName(s, t, ps, r, Value(t[..r]), t[r..]);
        PassReplaces(s, t, ps, 0, r, Value(t[..r]));
        CountConcat(ps[Value(t[..r]) - 1], Pass(t[r..], ps, 0), true);
      } else {
        PassZeroYield(t, ps);
        YieldCons(c, t, ps, |ps|);
        PassAtOther(s, c, t, ps, 0);
        CountConcat([c], Pass(t, ps, 0), true);
      }
    }
  }

  /** What a step of the pass is worth. */
  function Worth(f: Step, ps: seq<string>, k: nat): nat
    requires 1 <= k <= |ps|
  {
    match f
    case Inserted(j, _) => if 1 <= j <= |ps| then Count(ps[j - 1], true) else 0
    case Here(_) => Count(ps[k - 1], true)
    case Copied(c, _) => if c == ':' then NameYield(f.rest, ps, |ps|) else Count([c], true)
  }

  /** A copied colon names a smaller parameter or none. */
  predicate CopiesLess(f: Step, n: nat, k: nat) {
    f.Copied? && f.c == ':' ==> var r := NameLength(f.rest, n, |f.rest|); r == 0 || Value(f.rest[..r]) < k
  }

  lemma YieldStepName(s: string, t: string, ps: seq<string>, k: nat, r: nat, j: nat, rest: string)
    requires 1 <= k <= |ps| && s == [':'] + t && r == NameLength(t, |ps|, |t|) > 0 && j == Value(t[..r]) >= k && rest == t[r..]
    ensures var f := if j > k then Inserted(j, rest) else Here(rest);
            Yield(s, ps, |ps|) == Yield(rest, ps, |ps|) + Worth(f, ps, k)
  {
    YieldAtName(s, t, ps, r, j, rest);
  }

  lemma YieldStep(s: string, ps: seq<string>, k: nat, f: Step)
    requires s != [] && 1 <= k <= |ps| && f == FirstStep(s, |ps|, k)
    ensures CopiesLess(f, |ps|, k) && Yield(s, ps, |ps|) == Yield(f.rest, ps, |ps|) + Worth(f, ps, k)
  {
    var c, t := s[0], s[1..];
    var r := if c == ':' then NameLength(t, |ps|, |t|) else 0;
    assert s == [c] + t;
    if r > 0 && Value(t[..r]) >= k {
      assert f == if Value(t[..r]) > k then Inserted(Value(t[..r]), t[r..]) else Here(t[r..]);
      YieldStepName(s, t, ps, k, r, Value(t[..r]), t[r..]);
    } else {
      assert f == Copied(c, t);
      YieldCons(c, t, ps, |ps|);
    }
  }

  /** Behind a colon that names a smaller parameter, or none, the pass does not show the number `k`. */
  lemma PassReadsNothing(t: string, ps: seq<string>, k: nat, y: string)
    requires 1 <= k <= |ps| && AllGuarded(ps) && y == Pass(t, ps, k)
    requires var r := NameLength(t, |ps|, |t|); r == 0 || Value(t[..r]) < k
    ensures !(Digits(k) <= y)
  {
    if Digits(k) <= y {
      DigitsOfPass(Digits(k), t, ps, k);
      LongestName(t, |ps|, k);
    }
  }

  /** It shows the same name. */
  lemma PassKeepsName(t: string, ps: seq<string>, k: nat, y: string, r: nat, r': nat)
    requires 1 <= k <= |ps| && AllGuarded(ps) && y == Pass(t, ps, k)
    requires r == NameLength(t, |ps|, |t|) && r' == NameLength(y, k, |y|) && (r == 0 || Value(t[..r]) < k)
    ensures NameYield(y, ps, k) >= NameYield(t, ps, |ps|)
  {
    if r > 0 {
      assert t[..r] <= y by { PassCopiesDigits(t[..r], t, ps, k); }
      assert y[..r'] <= t by { DigitsOfPass(y[..r'], t, ps, k); }
      SameNameYield(t, |ps|, y, k, ps, r, r');
    }
  }

  /** Before round `k` every occurrence of its marker that the statement does not have is worth something more. */
  lemma {:induction false} PassYield(s: string, ps: seq<string>, k: nat)
    requires 1 <= k <= |ps| && AllGuarded(ps)
    ensures Gains(s, Pass(s, ps, k), ps, k)
    decreases |s|
  {
    if s != [] {
      var f := FirstStep(s, |ps|, k);
      PassYield(f.rest, ps, k);
      StepsAre(s, ps, k);
      YieldStep(s, ps, k, f);
      PassYieldStep(f, s, ps, k, Pass(f.rest, ps, k));
    }
  }

  ghost predicate Gains(s: string, x: string, ps: seq<string>, k: nat)
    requires k <= |ps|
  {
    Yield(x, ps, k) - Occurrences(x, Marker(k)) >= Yield(s, ps, |ps|) - Named(s, |ps|, k)
  }

  lemma PassYieldStep(f: Step, s: string, ps: seq<string>, k: nat, x: string)
    requires 1 <= k <= |ps| && AllGuarded(ps) && Steps(f, s, ps, k) && CopiesLess(f, |ps|, k)
    requires Yield(s, ps, |ps|) == Yield(f.rest, ps, |ps|) + Worth(f, ps, k)
    requires x == Pass(f.rest, ps, k) && Gains(f.rest, x, ps, k)
    ensures Gains(s, Pass(s, ps, k), ps, k)
  {
    if f.Inserted? {
      YieldBehind(ps[f.j - 1], x, ps, k);
    } else if f.Here? {
      YieldMarker(k, x, ps);
      OccurrencesMarker(k, x);
    } else {
      CopiedYield(f.c, f.rest, ps, k, x);
    }
  }

  lemma CopiedYield(c: char, t: string, ps: seq<string>, k: nat, x: string)
    requires 1 <= k <= |ps| && AllGuarded(ps) && x == Pass(t, ps, k)
    requires c == ':' ==> var r := NameLength(t, |ps|, |t|); r == 0 || Value(t[..r]) < k
    ensures Occurrences([c] + x, Marker(k)) == Occurrences(x, Marker(k))
    ensures Yield([c] + x, ps, k) >=
              Yield(x, ps, k) + if c == ':' then NameYield(t, ps, |ps|) else Count([c], true)
  {
    YieldCons(c, x, ps, k);
    OccurrencesCons(c, x, Marker(k));
    MarkerPrefix(k, [c] + x);
    assert ([c] + x)[1..] == x;
    if c == ':' {
      PassReadsNothing(t, ps, k, x);
      PassKeepsName(t, ps, k, x, NameLength(t, |ps|, |t|), NameLength(x, k, |x|));
    }
  }

  // ----- The exact condition

  lemma DisturbedGains(s: string, ps: seq<string>, k: nat)
    requires 1 <= k <= |ps| && AllGuarded(ps) && !Undisturbed(s, ps, k)
    requires forall i :: k < i <= |ps| ==> Undisturbed(s, ps, i)
    ensures Count(Descend(s, ps, |ps|), true) > Count(Pass(s, ps, 0), true)
  {
    DescendFrom(s, ps, k);
    DescendYield(Pass(s, ps, k), ps, k);
    PassYield(s, ps, k);
    PassZeroYield(s, ps);
    NamesOccur(s, ps, k);
  }

  lemma {:induction false} GuardedFrom(s: string, ps: seq<string>, k: nat)
    requires k <= |ps| && AllGuarded(ps) && Descend(s, ps, |ps|) == Pass(s, ps, 0)
    requires forall i :: k < i <= |ps| ==> Undisturbed(s, ps, i)
    ensures forall i :: 1 <= i <= |ps| ==> Undisturbed(s, ps, i)
    decreases k
  {
    if k > 0 {
      if !Undisturbed(s, ps, k) { DisturbedGains(s, ps, k); }
      GuardedFrom(s, ps, k - 1);
    }
  }

  /**
    For texts and missing values, with colons or without, and for any number of them: the
    loop is the single pass if and only if in every round the marker occurs only where the
    statement has it.
  */
  lemma GuardedExact(s: string, ps: seq<string>)
    requires AllGuarded(ps)
    ensures Descend(s, ps, |ps|) == Pass(s, ps, 0) <==> forall k :: 1 <= k <= |ps| ==> Undisturbed(s, ps, k)
  {
    if Descend(s, ps, |ps|) == Pass(s, ps, 0) { GuardedFrom(s, ps, |ps|); }
    if forall k :: 1 <= k <= |ps| ==> Undisturbed(s, ps, k) { DescendFrom(s, ps, 0); }
  }
}
