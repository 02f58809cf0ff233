/**
  Numbered markers with parameters that hold no colons: the loop is the single pass unless
  inserted text follows a colon of the statement and reads as a number.
*/
module Colons {
  import opened PyString
  import opened Decimal
  import opened Numbered
  import opened Rounds

  predicate NoColon(ps: seq<string>) {
    forall i :: 0 <= i < |ps| ==> ':' !in ps[i]
  }

  /** The same without the first parameter, which is inserted last and never searched. */
  predicate NoColonLater(ps: seq<string>) {
    forall i :: 1 <= i < |ps| ==> ':' !in ps[i]
  }

  // ----- Colons behind which a number appears

  /** In round `k` the text behind a colon, which was `t`, begins with the number `k`. */
  predicate Reads(t: string, ps: seq<string>, k: nat) {
    Digits(k) <= Pass(t, ps, k)
  }

  /** The text behind a colon names no parameter. */
  predicate Nameless(t: string, n: nat) {
    NameLength(t, n, |t|) == 0
  }

  /** It names a parameter below `k`. */
  predicate NamesLess(t: string, n: nat, k: nat) {
    !Nameless(t, n) && Value(t[..NameLength(t, n, |t|)]) < k
  }

  predicate Quiet(t: string, ps: seq<string>, k: nat) {
    Nameless(t, |ps|) || NamesLess(t, |ps|, k) ==> !Reads(t, ps, k)
  }

  /** No colon that names a smaller parameter, or none, is followed by the number `k` in round `k`. */
  predicate Calm(s: string, ps: seq<string>, k: nat) {
    forall i :: 0 <= i < |s| && s[i] == ':' ==> Quiet(s[i + 1..], ps, k)
  }

  lemma {:induction false} CalmCons(c: char, t: string, ps: seq<string>, k: nat)
    ensures Calm([c] + t, ps, k) <==> (c == ':' ==> Quiet(t, ps, k)) && Calm(t, ps, k)
  {
    var s := [c] + t;
    assert s[1..] == t && s[0] == c;
    if Calm(s, ps, k) {
      forall i | 0 <= i < |t| && t[i] == ':' ensures Quiet(t[i + 1..], ps, k) {
        assert s[i + 1] == t[i] && s[i + 2..] == t[i + 1..];
      }
    }
    if (c == ':' ==> Quiet(t, ps, k)) && Calm(t, ps, k) {
      forall i | 0 <= i < |s| && s[i] == ':' ensures Quiet(s[i + 1..], ps, k) {
        assert i > 0 ==> s[i] == t[i - 1] && s[i + 1..] == t[i..];
      }
    }
  }

  lemma {:induction false} CalmPlain(u: string, x: string, ps: seq<string>, k: nat)
    requires ':' !in u
    ensures Calm(u + x, ps, k) <==> Calm(x, ps, k)
  {
    if u == [] {
      assert u + x == x;
    } else {
      CalmPlain(u[1..], x, ps, k);
      assert u + x == [u[0]] + (u[1..] + x) && u[0] in u;
      CalmCons(u[0], u[1..] + x, ps, k);
    }
  }

  lemma CalmAtName(s: string, t: string, ps: seq<string>, k: nat, r: nat)
    requires s == [':'] + t && r == NameLength(t, |ps|, |t|) > 0 && Value(t[..r]) >= k
    ensures Calm(s, ps, k) <==> Calm(t[r..], ps, k)
  {
    CalmCons(':', t, ps, k);
    assert t == t[..r] + t[r..] && ':' !in t[..r];
    CalmPlain(t[..r], t[r..], ps, k);
  }

  lemma CalmStep(s: string, ps: seq<string>, k: nat)
    requires s != []
    ensures var f := FirstStep(s, |ps|, k);
            Calm(s, ps, k) <==> (f.Copied? && f.c == ':' ==> !Reads(f.rest, ps, k)) && Calm(f.rest, ps, k)
  {
    var c, t := s[0], s[1..];
    var r := if c == ':' then NameLength(t, |ps|, |t|) else 0;
    assert s == [c] + t;
    if r == 0 || Value(t[..r]) < k { CalmCons(c, t, ps, k); } else { CalmAtName(s, t, ps, k, r); }
  }

  lemma OccurrencesAtColon(c: char, x: string, k: nat)
    ensures Occurrences([c] + x, Marker(k)) == (if c == ':' && Digits(k) <= x then 1 else 0) + Occurrences(x, Marker(k))
  {
    OccurrencesCons(c, x, Marker(k));
    MarkerPrefix(k, [c] + x);
    assert ([c] + x)[1..] == x;
  }

  /** For colon-free later parameters this is the exact condition of the round. */
  lemma {:induction false} CalmIffUndisturbed(s: string, ps: seq<string>, k: nat)
    requires 1 <= k <= |ps| && NoColonLater(ps)
    ensures Calm(s, ps, k) <==> Undisturbed(s, ps, k)
    decreases |s|
  {
    if s != [] {
      var f := FirstStep(s, |ps|, k);
      StepsAre(s, ps, k);
      CalmIffUndisturbed(f.rest, ps, k);
      NamesOccur(f.rest, ps, k);
      CalmStep(s, ps, k);
      UndisturbedStep(f, s, ps, k, Pass(f.rest, ps, k));
    }
  }

  lemma UndisturbedStep(f: Step, s: string, ps: seq<string>, k: nat, x: string)
    requires 1 <= k <= |ps| && NoColonLater(ps) && Steps(f, s, ps, k) && x == Pass(f.rest, ps, k)
    requires Occurrences(x, Marker(k)) >= Named(f.rest, |ps|, k)
    ensures Undisturbed(s, ps, k) <==> (f.Copied? && f.c == ':' ==> !Reads(f.rest, ps, k)) && Undisturbed(f.rest, ps, k)
  {
    if f.Inserted? {
      OccurrencesPlain(ps[f.j - 1], x, k);
    } else if f.Here? {
      OccurrencesMarker(k, x);
    } else {
      OccurrencesAtColon(f.c, x, k);
    }
  }

  // ----- Counting colons

  function Colons(x: string): nat {
    if x == [] then 0 else (if x[0] == ':' then 1 else 0) + Colons(x[1..])
  }

  /** The number of colons that name none of the parameters up to `n`. */
  function Loose(x: string, n: nat): nat {
    if x == [] then 0 else (if x[0] == ':' && Nameless(x[1..], n) then 1 else 0) + Loose(x[1..], n)
  }

  lemma LooseCons(c: char, x: string, n: nat)
    ensures Loose([c] + x, n) == (if c == ':' && Nameless(x, n) then 1 else 0) + Loose(x, n)
  {
    assert ([c] + x)[1..] == x;
  }

  lemma {:induction false} LoosePlain(u: string, x: string, n: nat)
    requires ':' !in u
    ensures Loose(u + x, n) == Loose(x, n)
  {
    if u == [] {
      assert u + x == x;
    } else {
      LoosePlain(u[1..], x, n);
      assert (u + x)[1..] == u[1..] + x && u[0] in u;
    }
  }

  lemma {:induction false} ColonsPlain(u: string, x: string)
    requires ':' !in u
    ensures Colons(u + x) == Colons(x)
  {
    if u == [] {
      assert u + x == x;
    } else {
      ColonsPlain(u[1..], x);
      assert (u + x)[1..] == u[1..] + x && u[0] in u;
    }
  }

  /** A number from 1 to `n` behind the colon is a name. */
  lemma HasName(t: string, n: nat, j: nat)
    requires 1 <= j <= n && Digits(j) <= t
    ensures !Nameless(t, n)
  {
    LongestName(t, n, j);
  }

  lemma LooseMarker(j: nat, x: string, n: nat)
    requires 1 <= j <= n
    ensures Loose(Marker(j) + x, n) == Loose(x, n)
  {
    var t := Digits(j) + x;
    assert Marker(j) + x == [':'] + t && Digits(j) <= t;
    HasName(t, n, j);
    LooseCons(':', t, n);
    LoosePlain(Digits(j), x, n);
  }

  lemma {:induction false} AllLoose(x: string)
    ensures Loose(x, 0) == Colons(x)
  {
    if x != [] {
      var t := x[1..];
      AllLoose(t);
      var r := NameLength(t, 0, |t|);
      if r > 0 { DigitsValue(t[..r]); }
    }
  }

  // ----- A round never makes colons loose

  lemma {:induction false} DigitsStayInReplace(w: string, x: string, k: nat, q: string)
    requires ':' !in w && w <= x
    ensures w <= Replace(x, Marker(k), q)
    decreases |x|
  {
    if w != [] {
      var v := x[|w|..];
      assert x == w + v;
      ReplaceSkips(w, v, Marker(k), q);
    }
  }

  lemma LooseHead(x: string, k: nat, q: string)
    requires k >= 1 && !(Marker(k) <= [':'] + x)
    ensures Nameless(Replace(x, Marker(k), q), k - 1) ==> Nameless(x, k)
  {
    var r := NameLength(x, k, |x|);
    if r > 0 {
      var w := x[..r];
      DigitsValue(w);
      var j := Value(w);
      assert j != k by { MarkerPrefix(k, [':'] + x); assert ([':'] + x)[1..] == x; }
      DigitsStayInReplace(w, x, k, q);
      HasName(Replace(x, Marker(k), q), k - 1, j);
    }
  }

  lemma {:induction false} RoundLoose(x: string, k: nat, q: string)
    requires k >= 1 && ':' !in q
    ensures Loose(Replace(x, Marker(k), q), k - 1) <= Loose(x, k)
    decreases |x|
  {
    var m := Marker(k);
    if x != [] {
      if m <= x {
        var x' := x[|m|..];
        assert x == m + x';
        RoundLoose(x', k, q);
        ReplaceHead(m, x', q);
        LoosePlain(q, Replace(x', m, q), k - 1);
        LooseMarker(k, x', k);
      } else {
        var c, x' := x[0], x[1..];
        assert x == [c] + x';
        RoundLoose(x', k, q);
        ReplaceMiss(c, x', m, q);
        LooseCons(c, x', k);
        LooseCons(c, Replace(x', m, q), k - 1);
        if c == ':' { LooseHead(x', k, q); }
      }
    }
  }

  /** The loop keeps at most the colons that name nothing when it starts. */
  lemma {:induction false} DescendLoose(x: string, ps: seq<string>, k: nat)
    requires k <= |ps| && NoColon(ps)
    ensures Colons(Descend(x, ps, k)) <= Loose(x, k)
    decreases k
  {
    if k == 0 {
      AllLoose(x);
    } else {
      RoundLoose(x, k, ps[k - 1]);
      DescendLoose(Replace(x, Marker(k), ps[k - 1]), ps, k - 1);
    }
  }

  // ----- The pass keeps them all

  /** The number of colons that name nothing and are followed by the number `k` in round `k`. */
  function Caught(s: string, ps: seq<string>, k: nat): nat {
    if s == [] then 0
    else (if s[0] == ':' && Nameless(s[1..], |ps|) && Reads(s[1..], ps, k) then 1 else 0) + Caught(s[1..], ps, k)
  }

  lemma {:induction false} CaughtPlain(u: string, x: string, ps: seq<string>, k: nat)
    requires ':' !in u
    ensures Caught(u + x, ps, k) == Caught(x, ps, k)
  {
    if u == [] {
      assert u + x == x;
    } else {
      CaughtPlain(u[1..], x, ps, k);
      assert (u + x)[1..] == u[1..] + x && u[0] in u;
    }
  }

  lemma AtNameSame(s: string, t: string, ps: seq<string>, k: nat, r: nat)
    requires s == [':'] + t && r == NameLength(t, |ps|, |t|) > 0
    ensures Loose(s, |ps|) == Loose(t[r..], |ps|) && Caught(s, ps, k) == Caught(t[r..], ps, k)
  {
    assert s[1..] == t && t == t[..r] + t[r..] && ':' !in t[..r];
    LoosePlain(t[..r], t[r..], |ps|);
    CaughtPlain(t[..r], t[r..], ps, k);
  }

  /** Both counts by the first step of the pass. */
  lemma CountStep(s: string, ps: seq<string>, k: nat)
    requires s != []
    ensures var f := FirstStep(s, |ps|, k);
            if f.Copied? then
              var loose := f.c == ':' && Nameless(f.rest, |ps|);
              && Loose(s, |ps|) == (if loose then 1 else 0) + Loose(f.rest, |ps|)
              && Caught(s, ps, k) == (if loose && Reads(f.rest, ps, k) then 1 else 0) + Caught(f.rest, ps, k)
              && (f.c == ':' ==> loose || NamesLess(f.rest, |ps|, k))
            else
              Loose(s, |ps|) == Loose(f.rest, |ps|) && Caught(s, ps, k) == Caught(f.rest, ps, k)
  {
    var c, t := s[0], s[1..];
    var r := if c == ':' then NameLength(t, |ps|, |t|) else 0;
    assert s == [c] + t;
    if r > 0 && Value(t[..r]) >= k { AtNameSame(s, t, ps, k, r); }
  }

  lemma NameStays(t: string, ps: seq<string>, k: nat)
    requires NamesLess(t, |ps|, k)
    ensures !Nameless(Pass(t, ps, k), k)
  {
    var r := NameLength(t, |ps|, |t|);
    var w := t[..r];
    DigitsValue(w);
    PassCopiesDigits(w, t, ps, k);
    HasName(Pass(t, ps, k), k, Value(w));
  }

  /** Before round `k` the caught colons are no longer loose. */
  lemma {:induction false} PassLoose(s: string, ps: seq<string>, k: nat)
    requires 1 <= k <= |ps| && NoColonLater(ps)
    ensures Loose(Pass(s, ps, k), k) + Caught(s, ps, k) <= Loose(s, |ps|)
    decreases |s|
  {
    if s != [] {
      var f := FirstStep(s, |ps|, k);
      StepsAre(s, ps, k);
      PassLoose(f.rest, ps, k);
      CountStep(s, ps, k);
      PassLooseStep(f, s, ps, k, Pass(f.rest, ps, k));
    }
  }

  lemma PassLooseStep(f: Step, s: string, ps: seq<string>, k: nat, x: string)
    requires 1 <= k <= |ps| && NoColonLater(ps) && Steps(f, s, ps, k) && x == Pass(f.rest, ps, k)
    ensures Loose(Pass(s, ps, k), k) == Loose(x, k) + (if f.Copied? && f.c == ':' && Nameless(x, k) then 1 else 0)
    ensures Reads(f.rest, ps, k) ==> !Nameless(x, k)
    ensures NamesLess(f.rest, |ps|, k) ==> !Nameless(x, k)
  {
    if Reads(f.rest, ps, k) { HasName(x, k, k); }
    if NamesLess(f.rest, |ps|, k) { NameStays(f.rest, ps, k); }
    match f
    case Inserted(j, _) => LoosePlain(ps[j - 1], x, k);
    case Here(_) => LooseMarker(k, x, k);
    case Copied(c, _) => LooseCons(c, x, k);
  }

  lemma NeverNamesNothing(t: string, n: nat)
    ensures !NamesLess(t, n, 1)
  {
    var r := NameLength(t, n, |t|);
    if r > 0 { DigitsValue(t[..r]); }
  }

  lemma {:induction false} PassColons(s: string, ps: seq<string>)
    requires NoColon(ps)
    ensures Colons(Pass(s, ps, 0)) == Loose(s, |ps|)
    decreases |s|
  {
    if |ps| == 0 {
      PassAboveAll(s, ps);
      AllLoose(s);
    } else if s != [] {
      var f := FirstStep(s, |ps|, 1);
      var y := Pass(f.rest, ps, 0);
      StepsAre(s, ps, 1);
      PassColons(f.rest, ps);
      CountStep(s, ps, 1);
      NeverNamesNothing(f.rest, |ps|);
      PassColonsStep(f, s, ps, y);
    }
  }

  lemma PassColonsStep(f: Step, s: string, ps: seq<string>, y: string)
    requires 1 <= |ps| && NoColon(ps) && Steps(f, s, ps, 1) && y == Pass(f.rest, ps, 0)
    ensures Colons(Pass(s, ps, 0)) == Colons(y) + (if f.Copied? && f.c == ':' then 1 else 0)
  {
    match f
    case Inserted(j, _) => ColonsPlain(ps[j - 1], y);
    case Here(_) => ColonsPlain(ps[0], y);
    case Copied(c, _) => assert ([c] + y)[1..] == y;
  }

  // ----- The exact condition

  /** Up to round `k` no colon of the statement has been followed by the number of the round by accident. */
  ghost predicate CalmAbove(s: string, ps: seq<string>, k: nat) {
    forall i :: k < i <= |ps| ==> Calm(s, ps, i)
  }

  lemma BeforeRound(s: string, ps: seq<string>, k: nat)
    requires k <= |ps| && NoColonLater(ps) && CalmAbove(s, ps, k)
    ensures Descend(s, ps, |ps|) == Descend(Pass(s, ps, k), ps, k)
  {
    forall i | k < i <= |ps| ensures Undisturbed(s, ps, i) { CalmIffUndisturbed(s, ps, i); }
    DescendFrom(s, ps, k);
  }

  /** A colon without a name that is caught in the first disturbed round is missing in the end. */
  lemma CaughtIsLost(s: string, ps: seq<string>, k: nat)
    requires 1 <= k <= |ps| && NoColon(ps) && CalmAbove(s, ps, k) && Caught(s, ps, k) > 0
    ensures Colons(Descend(s, ps, |ps|)) < Colons(Pass(s, ps, 0))
  {
    BeforeRound(s, ps, k);
    DescendLoose(Pass(s, ps, k), ps, k);
    PassLoose(s, ps, k);
    PassColons(s, ps);
  }

  /** In round `k` no colon with a name below `k` is followed by the number `k`. */
  predicate NamesCalm(s: string, ps: seq<string>, k: nat) {
    forall i :: 0 <= i < |s| && s[i] == ':' && NamesLess(s[i + 1..], |ps|, k) ==> !Reads(s[i + 1..], ps, k)
  }

  /** In round `k` no colon without a name is followed by the number `k`. */
  predicate OthersCalm(s: string, ps: seq<string>, k: nat) {
    forall i :: 0 <= i < |s| && s[i] == ':' && Nameless(s[i + 1..], |ps|) ==> !Reads(s[i + 1..], ps, k)
  }

  lemma CalmIsBoth(s: string, ps: seq<string>, k: nat)
    ensures Calm(s, ps, k) <==> NamesCalm(s, ps, k) && OthersCalm(s, ps, k)
  {
    if NamesCalm(s, ps, k) && OthersCalm(s, ps, k) {
      forall i | 0 <= i < |s| && s[i] == ':' ensures Quiet(s[i + 1..], ps, k) { }
    }
  }

  lemma {:induction false} NoneCaught(s: string, ps: seq<string>, k: nat)
    requires Caught(s, ps, k) == 0
    ensures OthersCalm(s, ps, k)
  {
    if s != [] {
      var t := s[1..];
      NoneCaught(t, ps, k);
      forall i | 0 <= i < |s| && s[i] == ':' && Nameless(s[i + 1..], |ps|) ensures !Reads(s[i + 1..], ps, k) {
        assert i > 0 ==> s[i] == t[i - 1] && s[i + 1..] == t[i..];
      }
    }
  }

  ghost predicate NamesStand(s: string, ps: seq<string>) {
    forall k :: 1 <= k <= |ps| ==> NamesCalm(s, ps, k)
  }

  ghost predicate OthersStand(s: string, ps: seq<string>) {
    forall k :: 1 <= k <= |ps| ==> OthersCalm(s, ps, k)
  }

  lemma {:induction false} ExactFrom(s: string, ps: seq<string>, k: nat)
    requires k <= |ps| && NoColon(ps) && NamesStand(s, ps) && CalmAbove(s, ps, k)
    ensures Descend(s, ps, |ps|) == Pass(s, ps, 0) ==> OthersStand(s, ps)
    decreases k
  {
    if k == 0 {
      forall i | 1 <= i <= |ps| ensures OthersCalm(s, ps, i) { CalmIsBoth(s, ps, i); }
    } else if Caught(s, ps, k) > 0 {
      CaughtIsLost(s, ps, k);
    } else {
      assert Calm(s, ps, k) by {
        NoneCaught(s, ps, k);
        CalmIsBoth(s, ps, k);
      }
      ExactFrom(s, ps, k - 1);
    }
  }

  /**
    For parameters without colons, and as long as no name of the statement is extended by
    inserted digits: the loop is the single pass if and only if no colon without a name is
    ever followed by the number of the round.
  */
  lemma DescendExact(s: string, ps: seq<string>)
    requires NoColon(ps) && NamesStand(s, ps)
    ensures Descend(s, ps, |ps|) == Pass(s, ps, 0) <==> OthersStand(s, ps)
  {
    ExactFrom(s, ps, |ps|);
    if OthersStand(s, ps) {
      forall i | 1 <= i <= |ps| ensures Calm(s, ps, i) { CalmIsBoth(s, ps, i); }
      BeforeRound(s, ps, 0);
    }
  }

  // ----- Up to ten parameters names always stand

  lemma ShortName(t: string, ps: seq<string>, k: nat)
    requires 1 <= k <= |ps| <= 10 && NamesLess(t, |ps|, k)
    ensures !Reads(t, ps, k)
  {
    var r := NameLength(t, |ps|, |t|);
    var w := t[..r];
    if Reads(t, ps, k) {
      assert Digits(k) <= t by {
        if k == |ps| { PassAboveAll(t, ps); } else { FirstDigit(w, t, ps, k); }
      }
      LongestName(t, |ps|, k);
    }
  }

  lemma FirstDigit(w: string, t: string, ps: seq<string>, k: nat)
    requires 1 <= k < 10 && w != [] && AllDigits(w) && w <= t && Reads(t, ps, k)
    ensures Digits(k) <= t
  {
    PassCopiesDigits(w, t, ps, k);
    assert |Digits(k)| == 1;
    assert Digits(k)[0] == Pass(t, ps, k)[0] == w[0] == t[0];
  }

  lemma FewNamesStand(s: string, ps: seq<string>)
    requires |ps| <= 10
    ensures NamesStand(s, ps)
  {
    forall k | 1 <= k <= |ps| ensures NamesCalm(s, ps, k) {
      forall i | 0 <= i < |s| && s[i] == ':' && NamesLess(s[i + 1..], |ps|, k) ensures !Reads(s[i + 1..], ps, k) {
        ShortName(s[i + 1..], ps, k);
      }
    }
  }
}
