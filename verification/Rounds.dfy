/**
  When a round of the descending loop over numbered markers does exactly what the single
  pass does: for any statement and any parameters, by counting occurrences of the marker.
*/
module Rounds {
  import opened PyString
  import opened Decimal
  import opened Numbered

  // ----- Occurrences of a marker

  /** Where no occurrence begins nothing is replaced. */
  lemma {:induction false} ReplaceBehind(u: string, x: string, m: string, q: string)
    requires m != [] && Occurrences(u + x, m) == Occurrences(x, m)
    ensures Replace(u + x, m, q) == u + Replace(x, m, q)
  {
    if u == [] {
      assert u + x == x;
    } else {
      var y := u[1..] + x;
      assert u + x == [u[0]] + y;
      OccurrencesCons(u[0], y, m);
      OccurrencesBehind(u[1..], x, m);
      ReplaceBehind(u[1..], x, m, q);
      ReplaceMiss(u[0], y, m, q);
      assert [u[0]] + (u[1..] + Replace(x, m, q)) == u + Replace(x, m, q);
    }
  }

  /** A text without colons holds no beginning of a marker. */
  lemma {:induction false} OccurrencesPlain(u: string, x: string, k: nat)
    requires ':' !in u
    ensures Occurrences(u + x, Marker(k)) == Occurrences(x, Marker(k))
  {
    if u == [] {
      assert u + x == x;
    } else {
      var y := u[1..] + x;
      OccurrencesPlain(u[1..], x, k);
      assert u + x == [u[0]] + y && u[0] in u;
      assert !(Marker(k) <= [u[0]] + y) by { assert ([u[0]] + y)[0] != Marker(k)[0]; }
      OccurrencesCons(u[0], y, Marker(k));
    }
  }

  lemma OccurrencesMarker(k: nat, x: string)
    ensures Occurrences(Marker(k) + x, Marker(k)) == 1 + Occurrences(x, Marker(k))
  {
    var d, m := Digits(k), Marker(k);
    assert m + x == [':'] + (d + x);
    assert m <= m + x;
    OccurrencesCons(':', d + x, m);
    OccurrencesPlain(d, x, k);
  }

  // ----- The colons of the statement that name a parameter

  predicate Names(t: string, n: nat, k: nat) {
    var r := NameLength(t, n, |t|);
    r > 0 && Value(t[..r]) == k
  }

  /** The number of colons of the statement at which the longest name is that of parameter `k`. */
  function Named(s: string, n: nat, k: nat): nat {
    if s == [] then 0 else (if s[0] == ':' && Names(s[1..], n, k) then 1 else 0) + Named(s[1..], n, k)
  }

  lemma {:induction false} NamedPlain(u: string, x: string, n: nat, k: nat)
    requires ':' !in u
    ensures Named(u + x, n, k) == Named(x, n, k)
  {
    if u == [] {
      assert u + x == x;
    } else {
      NamedPlain(u[1..], x, n, k);
      assert (u + x)[1..] == u[1..] + x && u[0] in u;
    }
  }

  // ----- One step of the pass

  /** What the pass does first: put parameter `j` in, leave the marker of this round, or copy a character. */
  datatype Step = Inserted(j: nat, rest: string) | Here(rest: string) | Copied(c: char, rest: string)

  function FirstStep(s: string, n: nat, k: nat): (f: Step)
    requires s != []
    ensures |f.rest| < |s|
  {
    var t := s[1..];
    var r := if s[0] == ':' then NameLength(t, n, |t|) else 0;
    if r == 0 || Value(t[..r]) < k then Copied(s[0], t)
    else if Value(t[..r]) > k then Inserted(Value(t[..r]), t[r..])
    else Here(t[r..])
  }

  /** The pass above `k`, the pass above `k - 1` and the number of names, by the first step. */
  ghost predicate Steps(f: Step, s: string, ps: seq<string>, k: nat)
    requires 1 <= k <= |ps|
  {
    var x, y := Pass(f.rest, ps, k), Pass(f.rest, ps, k - 1);
    var named := Named(f.rest, |ps|, k);
    match f
    case Inserted(j, _) =>
      && k < j <= |ps| && Named(s, |ps|, k) == named
      && Pass(s, ps, k) == ps[j - 1] + x && Pass(s, ps, k - 1) == ps[j - 1] + y
    case Here(_) =>
      && Named(s, |ps|, k) == 1 + named
      && Pass(s, ps, k) == Marker(k) + x && Pass(s, ps, k - 1) == ps[k - 1] + y
    case Copied(c, _) =>
      && s == [c] + f.rest && Named(s, |ps|, k) == named
      && Pass(s, ps, k) == [c] + x && Pass(s, ps, k - 1) == [c] + y
  }

  lemma NamedBehindName(s: string, t: string, n: nat, k: nat, r: nat, j: nat, rest: string)
    requires s == [':'] + t && r == NameLength(t, n, |t|) > 0 && Value(t[..r]) == j && rest == t[r..]
    ensures Named(s, n, k) == (if j == k then 1 else 0) + Named(rest, n, k)
  {
    var d := t[..r];
    assert s[1..] == t && t == d + rest;
    assert ':' !in d;
    NamedPlain(d, rest, n, k);
  }

  lemma StepInserted(s: string, t: string, ps: seq<string>, k: nat, r: nat, j: nat)
    requires 1 <= k <= |ps| && s == [':'] + t && r == NameLength(t, |ps|, |t|) > 0 && Value(t[..r]) == j > k
    ensures Steps(Inserted(j, t[r..]), s, ps, k)
  {
    NamedBehindName(s, t, |ps|, k, r, j, t[r..]);
    DigitsValue(t[..r]);
    PassInserts(s, t, ps, k - 1, r, j, ps[j - 1], t[r..]);
    PassInserts(s, t, ps, k, r, j, ps[j - 1], t[r..]);
    InsertedSteps(s, ps, k, j, ps[j - 1], t[r..]);
  }

  lemma PassInserts(s: string, t: string, ps: seq<string>, k: nat, r: nat, j: nat, p: string, rest: string)
    requires s == [':'] + t && r == NameLength(t, |ps|, |t|) > 0 && k < j <= |ps| && Value(t[..r]) == j
    requires p == ps[j - 1] && rest == t[r..]
    ensures Pass(s, ps, k) == p + Pass(rest, ps, k)
  {
    PassReplaces(s, t, ps, k, r, j);
  }

  lemma InsertedSteps(s: string, ps: seq<string>, k: nat, j: nat, p: string, rest: string)
    requires 1 <= k < j <= |ps| && Named(s, |ps|, k) == Named(rest, |ps|, k) && p == ps[j - 1]
    requires Pass(s, ps, k) == p + Pass(rest, ps, k)
    requires Pass(s, ps, k - 1) == p + Pass(rest, ps, k - 1)
    ensures Steps(Inserted(j, rest), s, ps, k)
  {
  }

  lemma StepHere(s: string, t: string, ps: seq<string>, k: nat, r: nat)
    requires 1 <= k <= |ps| && s == [':'] + t && r == NameLength(t, |ps|, |t|) > 0 && Value(t[..r]) == k
    ensures Steps(Here(t[r..]), s, ps, k)
  {
    NamedBehindName(s, t, |ps|, k, r, k, t[r..]);
    PassInserts(s, t, ps, k - 1, r, k, ps[k - 1], t[r..]);
    PassKeepsMarker(s, t, ps, k, r, k);
    HereSteps(s, ps, k, ps[k - 1], t[r..]);
  }

  lemma HereSteps(s: string, ps: seq<string>, k: nat, p: string, rest: string)
    requires 1 <= k <= |ps| && p == ps[k - 1] && Named(s, |ps|, k) == 1 + Named(rest, |ps|, k)
    requires Pass(s, ps, k) == Marker(k) + Pass(rest, ps, k)
    requires Pass(s, ps, k - 1) == p + Pass(rest, ps, k - 1)
    ensures Steps(Here(rest), s, ps, k)
  {
  }

  lemma StepsAre(s: string, ps: seq<string>, k: nat)
    requires s != [] && 1 <= k <= |ps|
    ensures Steps(FirstStep(s, |ps|, k), s, ps, k)
  {
    var c, t := s[0], s[1..];
    var r := if c == ':' then NameLength(t, |ps|, |t|) else 0;
    assert s == [c] + t;
    if r == 0 || Value(t[..r]) < k {
      PassAtOther(s, c, t, ps, k);
      PassAtOther(s, c, t, ps, k - 1);
    } else if Value(t[..r]) > k {
      StepInserted(s, t, ps, k, r, Value(t[..r]));
    } else {
      StepHere(s, t, ps, k, r);
    }
  }

  // ----- A round that meets only the names of the statement

  /**
    Before round `k` of a loop that has done as the pass so far, its marker occurs only where
    the statement names parameter `k`.
  */
  predicate Undisturbed(s: string, ps: seq<string>, k: nat)
    requires 1 <= k <= |ps|
  {
    Occurrences(Pass(s, ps, k), Marker(k)) == Named(s, |ps|, k)
  }

  /** A step adds no fewer occurrences than names. */
  lemma OccurrencesStep(f: Step, s: string, ps: seq<string>, k: nat, x: string)
    requires 1 <= k <= |ps| && Steps(f, s, ps, k) && x == Pass(f.rest, ps, k)
    ensures Occurrences(Pass(s, ps, k), Marker(k)) - Named(s, |ps|, k)
         >= Occurrences(x, Marker(k)) - Named(f.rest, |ps|, k)
  {
    if f.Here? {
      OccurrencesMarker(k, x);
    } else {
      var u := if f.Inserted? then ps[f.j - 1] else [f.c];
      assert Pass(s, ps, k) == u + x && Named(s, |ps|, k) == Named(f.rest, |ps|, k);
      OccurrencesBehind(u, x, Marker(k));
    }
  }

  /** Every name of the statement is an occurrence. */
  lemma {:induction false} NamesOccur(s: string, ps: seq<string>, k: nat)
    requires 1 <= k <= |ps|
    ensures Occurrences(Pass(s, ps, k), Marker(k)) >= Named(s, |ps|, k)
    decreases |s|
  {
    if s != [] {
      var f := FirstStep(s, |ps|, k);
      StepsAre(s, ps, k);
      NamesOccur(f.rest, ps, k);
      OccurrencesStep(f, s, ps, k, Pass(f.rest, ps, k));
    }
  }

  /** Then the round turns the pass above `k` into the pass above `k - 1`. */
  lemma {:induction false} Round(s: string, ps: seq<string>, k: nat)
    requires 1 <= k <= |ps| && Undisturbed(s, ps, k)
    ensures Replace(Pass(s, ps, k), Marker(k), ps[k - 1]) == Pass(s, ps, k - 1)
    decreases |s|
  {
    if s != [] {
      var f := FirstStep(s, |ps|, k);
      StepsAre(s, ps, k);
      NamesOccur(f.rest, ps, k);
      OccurrencesStep(f, s, ps, k, Pass(f.rest, ps, k));
      Round(f.rest, ps, k);
      RoundFirst(f, s, ps, k);
    }
  }

  lemma RoundFirst(f: Step, s: string, ps: seq<string>, k: nat)
    requires 1 <= k <= |ps| && Steps(f, s, ps, k) && Undisturbed(s, ps, k) && Undisturbed(f.rest, ps, k)
    requires Replace(Pass(f.rest, ps, k), Marker(k), ps[k - 1]) == Pass(f.rest, ps, k - 1)
    ensures Replace(Pass(s, ps, k), Marker(k), ps[k - 1]) == Pass(s, ps, k - 1)
  {
    var x, m, q := Pass(f.rest, ps, k), Marker(k), ps[k - 1];
    match f
    case Inserted(j, _) => ReplaceBehind(ps[j - 1], x, m, q);
    case Here(_) => ReplaceHead(m, x, q);
    case Copied(c, _) => ReplaceBehind([c], x, m, q);
  }

  // ----- A round that meets anything else

  lemma {:induction false} ReplaceLength(x: string, k: nat, q: string)
    ensures var m := Marker(k); |Replace(x, m, q)| == |x| + Occurrences(x, m) * (|q| - |m|)
    decreases |x|
  {
    var m := Marker(k);
    if x != [] {
      if m <= x {
        var x' := x[|m|..];
        assert x == m + x';
        ReplaceLength(x', k, q);
        ReplaceHead(m, x', q);
        OccurrencesMarker(k, x');
        OneMore(Occurrences(x', m), |q| - |m|);
      } else {
        var c, x' := x[0], x[1..];
        assert x == [c] + x';
        ReplaceLength(x', k, q);
        ReplaceMiss(c, x', m, q);
        OccurrencesCons(c, x', m);
      }
    }
  }

  lemma OneMore(a: int, d: int)
    ensures (1 + a) * d == a * d + d
  {
  }

  lemma {:induction false} PassLength(s: string, ps: seq<string>, k: nat)
    requires 1 <= k <= |ps|
    ensures |Pass(s, ps, k - 1)| == |Pass(s, ps, k)| + Named(s, |ps|, k) * (|ps[k - 1]| - |Marker(k)|)
    decreases |s|
  {
    if s != [] {
      var f := FirstStep(s, |ps|, k);
      StepsAre(s, ps, k);
      PassLength(f.rest, ps, k);
      var named, d := Named(f.rest, |ps|, k), |ps[k - 1]| - |Marker(k)|;
      assert |Pass(f.rest, ps, k - 1)| == |Pass(f.rest, ps, k)| + named * d;
      assert f.Here? ==> Named(s, |ps|, k) * d == named * d + d by { OneMore(named, d); }
      assert !f.Here? ==> Named(s, |ps|, k) * d == named * d;
    }
  }

  /** Digits that the pass above `k` begins with are not changed by the round. */
  lemma {:induction false} DigitsStay(w: string, s: string, ps: seq<string>, k: nat)
    requires 1 <= k <= |ps| && ':' !in w && w <= Pass(s, ps, k)
    ensures w <= Pass(s, ps, k - 1)
    decreases |s|, 0
  {
    if s != [] && w != [] {
      var f := FirstStep(s, |ps|, k);
      StepsAre(s, ps, k);
      assert w[0] == Pass(s, ps, k)[0] != ':';
      assert !f.Here?;
      DigitsStayBehind(w, if f.Inserted? then ps[f.j - 1] else [f.c], f.rest, ps, k);
    }
  }

  lemma {:induction false} DigitsStayBehind(w: string, u: string, s: string, ps: seq<string>, k: nat)
    requires 1 <= k <= |ps| && ':' !in w && w <= u + Pass(s, ps, k)
    ensures w <= u + Pass(s, ps, k - 1)
    decreases |s|, 1
  {
    var x, y := Pass(s, ps, k), Pass(s, ps, k - 1);
    if |w| <= |u| {
      assert w == u[..|w|];
    } else {
      var v := w[|u|..];
      assert w == u + v && v <= x by { assert (u + x)[..|u|] == u && (u + x)[|u|..] == x; }
      DigitsStay(v, s, ps, k);
    }
  }

  lemma MarkerPrefix(k: nat, z: string)
    ensures Marker(k) <= z <==> z != [] && z[0] == ':' && Digits(k) <= z[1..]
  {
    if z != [] {
      assert z == [z[0]] + z[1..];
      if z[0] == ':' && Digits(k) <= z[1..] { assert z[1..] == Digits(k) + z[1..][|Digits(k)|..]; }
      if Marker(k) <= z { PrefixTail(':', Digits(k), z[1..]); }
    }
  }

  /** A smaller number in front is not the number `k`. */
  lemma SmallerInFront(i: nat, x: string, k: nat)
    requires 1 <= i < k && (x != [] ==> !IsDigit(x[0]))
    ensures Occurrences(Marker(i) + x, Marker(k)) == Occurrences(x, Marker(k))
  {
    var d, w := Digits(i), Digits(k);
    assert Marker(i) + x == [':'] + (d + x) && ([':'] + (d + x))[1..] == d + x;
    OccurrencesCons(':', d + x, Marker(k));
    MarkerPrefix(k, [':'] + (d + x));
    if w <= d + x {
      DigitsWithin(w, d, x);
      ValuePrefix(w, d);
      ValueDigits(i);
      ValueDigits(k);
    }
    OccurrencesPlain(d, x, k);
  }

  /** An occurrence that begins in `u` is replaced, although the pass keeps it. */
  lemma {:induction false} KeptAndReplaced(u: string, s: string, ps: seq<string>, k: nat, q: string)
    requires 1 <= k <= |ps| && |q| == |Marker(k)|
    requires Occurrences(u + Pass(s, ps, k), Marker(k)) > Occurrences(Pass(s, ps, k), Marker(k))
    requires Replace(u + Pass(s, ps, k), Marker(k), q) == u + Pass(s, ps, k - 1)
    ensures q == Marker(k)
    decreases |u|
  {
    var x, y, m := Pass(s, ps, k), Pass(s, ps, k - 1), Marker(k);
    if u == [] {
      AddsNothing(u, x);
    } else if m <= u + x {
      assert m <= u + y by { KeptMarker(u, s, ps, k); }
      HeadIs(u + x, m, q, u + y);
    } else {
      KeptBehind(u[0], u[1..], u, x, y, m, q);
      KeptAndReplaced(u[1..], s, ps, k, q);
    }
  }

  lemma KeptBehind(c: char, v: string, u: string, x: string, y: string, m: string, q: string)
    requires u == [c] + v && m != [] && !(m <= u + x) && Replace(u + x, m, q) == u + y
    ensures Occurrences(v + x, m) == Occurrences(u + x, m) && Replace(v + x, m, q) == v + y
  {
    assert u + x == [c] + (v + x) && u + y == [c] + (v + y);
    ReplaceMiss(c, v + x, m, q);
    Cancel([c], Replace(v + x, m, q), v + y);
    OccurrencesCons(c, v + x, m);
  }

  lemma KeptMarker(u: string, s: string, ps: seq<string>, k: nat)
    requires 1 <= k <= |ps| && u != [] && Marker(k) <= u + Pass(s, ps, k)
    ensures Marker(k) <= u + Pass(s, ps, k - 1)
  {
    var x, y := Pass(s, ps, k), Pass(s, ps, k - 1);
    MarkerPrefix(k, u + x);
    MarkerPrefix(k, u + y);
    assert (u + x)[1..] == u[1..] + x && (u + y)[1..] == u[1..] + y;
    DigitsStayBehind(Digits(k), u[1..], s, ps, k);
  }

  lemma HeadIs(x: string, m: string, q: string, z: string)
    requires m != [] && m <= x && m <= z && |q| == |m| && Replace(x, m, q) == z
    ensures q == m
  {
    assert x == m + x[|m|..];
    ReplaceHead(m, x[|m|..], q);
    assert q == z[..|q|] == m;
  }

  lemma Cancel(u: string, x: string, y: string)
    requires u + x == u + y
    ensures x == y
  {
    assert x == (u + x)[|u|..] && y == (u + y)[|u|..];
  }

  /** Against a parameter as long as the marker, the texts differ where the extra occurrence was. */
  lemma {:induction false} RoundForcesSameLength(s: string, ps: seq<string>, k: nat)
    requires 1 <= k <= |ps| && |ps[k - 1]| == |Marker(k)| && ps[k - 1] != Marker(k)
    requires Replace(Pass(s, ps, k), Marker(k), ps[k - 1]) == Pass(s, ps, k - 1)
    ensures Undisturbed(s, ps, k)
    decreases |s|
  {
    if s != [] {
      var f := FirstStep(s, |ps|, k);
      var x, y, m, q := Pass(f.rest, ps, k), Pass(f.rest, ps, k - 1), Marker(k), ps[k - 1];
      StepsAre(s, ps, k);
      if f.Here? {
        ReplaceHead(m, x, q);
        Cancel(q, Replace(x, m, q), y);
        RoundForcesSameLength(f.rest, ps, k);
        OccurrencesMarker(k, x);
      } else {
        var u := if f.Inserted? then ps[f.j - 1] else [f.c];
        assert Occurrences(u + x, m) == Occurrences(x, m) by { NoneInside(u, f.rest, ps, k); }
        ReplaceBehind(u, x, m, q);
        Cancel(u, Replace(x, m, q), y);
        RoundForcesSameLength(f.rest, ps, k);
      }
    }
  }

  lemma NoneInside(u: string, s: string, ps: seq<string>, k: nat)
    requires 1 <= k <= |ps| && |ps[k - 1]| == |Marker(k)| && ps[k - 1] != Marker(k)
    requires Replace(u + Pass(s, ps, k), Marker(k), ps[k - 1]) == u + Pass(s, ps, k - 1)
    ensures Occurrences(u + Pass(s, ps, k), Marker(k)) == Occurrences(Pass(s, ps, k), Marker(k))
  {
    OccurrencesBehind(u, Pass(s, ps, k), Marker(k));
    if Occurrences(u + Pass(s, ps, k), Marker(k)) > Occurrences(Pass(s, ps, k), Marker(k)) {
      KeptAndReplaced(u, s, ps, k, ps[k - 1]);
    }
  }

  /** Against any other parameter, the lengths differ. */
  lemma RoundForcesOtherLength(s: string, ps: seq<string>, k: nat)
    requires 1 <= k <= |ps| && |ps[k - 1]| != |Marker(k)|
    requires Replace(Pass(s, ps, k), Marker(k), ps[k - 1]) == Pass(s, ps, k - 1)
    ensures Undisturbed(s, ps, k)
  {
    ReplaceLength(Pass(s, ps, k), k, ps[k - 1]);
    PassLength(s, ps, k);
    SameProduct(Occurrences(Pass(s, ps, k), Marker(k)), Named(s, |ps|, k), |ps[k - 1]| - |Marker(k)|);
  }

  lemma SameProduct(a: int, b: int, d: int)
    requires d != 0 && a * d == b * d
    ensures a == b
  {
    assert (a - b) * d == 0;
  }

  /** A parameter that is its own marker changes nothing. */
  lemma {:induction false} OwnMarker(x: string, m: string)
    requires m != []
    ensures Replace(x, m, m) == x
    decreases |x|
  {
    if x != [] {
      if m <= x {
        OwnMarker(x[|m|..], m);
        assert x == m + x[|m|..];
      } else {
        OwnMarker(x[1..], m);
      }
    }
  }

  lemma {:induction false} PassOwnMarker(s: string, ps: seq<string>, k: nat)
    requires 1 <= k <= |ps| && ps[k - 1] == Marker(k)
    ensures Pass(s, ps, k - 1) == Pass(s, ps, k)
    decreases |s|
  {
    if s != [] {
      StepsAre(s, ps, k);
      PassOwnMarker(FirstStep(s, |ps|, k).rest, ps, k);
    }
  }

  /**
    For any statement and any parameters, exactly when a round is the step of the pass: its
    marker occurs only where the statement has it, or it is replaced by itself.
  */
  lemma RoundExact(s: string, ps: seq<string>, k: nat)
    requires 1 <= k <= |ps|
    ensures Replace(Pass(s, ps, k), Marker(k), ps[k - 1]) == Pass(s, ps, k - 1) <==>
              Undisturbed(s, ps, k) || ps[k - 1] == Marker(k)
  {
    if Undisturbed(s, ps, k) {
      Round(s, ps, k);
    } else if ps[k - 1] == Marker(k) {
      OwnMarker(Pass(s, ps, k), Marker(k));
      PassOwnMarker(s, ps, k);
    } else if Replace(Pass(s, ps, k), Marker(k), ps[k - 1]) == Pass(s, ps, k - 1) {
      if |ps[k - 1]| == |Marker(k)| { RoundForcesSameLength(s, ps, k); } else { RoundForcesOtherLength(s, ps, k); }
    }
  }

  // ----- All rounds

  /** The text before round `k` is the pass above `k`, for every round down to `k`. */
  lemma {:induction false} DescendFrom(s: string, ps: seq<string>, k: nat)
    requires k <= |ps| && forall i :: k < i <= |ps| ==> Undisturbed(s, ps, i)
    ensures Descend(s, ps, |ps|) == Descend(Pass(s, ps, k), ps, k)
    decreases |ps| - k
  {
    if k == |ps| {
      PassAboveAll(s, ps);
    } else {
      DescendFrom(s, ps, k + 1);
      Round(s, ps, k + 1);
    }
  }
}
