/**
  Statements with numbered markers on which inserted digits extend a number, with more than
  ten parameters, and one on which two such accidents make up for a third.
*/
module NumberedCases {
  import opened PyString
  import opened Decimal
  import opened Numbered
  import opened Rounds
  import opened Colons

  // ----- Rounds on texts made of markers

  /** The text does not continue a number in front of it. */
  predicate Ends(v: string) {
    v != [] ==> !IsDigit(v[0])
  }

  lemma ReplaceAtMarker(n: nat, v: string, k: nat, q: string)
    requires 1 <= n <= k && Ends(v)
    ensures Replace(Marker(n) + v, Marker(k), q) == (if n == k then q else Marker(n)) + Replace(v, Marker(k), q)
  {
    if n == k {
      ReplaceHead(Marker(k), v, q);
    } else {
      SmallerInFront(n, v, k);
      ReplaceBehind(Marker(n), v, Marker(k), q);
    }
  }

  lemma ReplaceAtColon(v: string, k: nat, q: string)
    requires v != [] && v[0] == ':'
    ensures Replace([':'] + v, Marker(k), q) == [':'] + Replace(v, Marker(k), q)
  {
    assert ([':'] + v)[1..] == v && IsDigit(Digits(k)[0]);
    MarkerPrefix(k, [':'] + v);
    ReplaceMiss(':', v, Marker(k), q);
  }

  lemma ReplacePlain(w: string, k: nat, q: string)
    requires ':' !in w
    ensures Replace(w, Marker(k), q) == w
  {
    ReplaceSkips(w, "", Marker(k), q);
    assert w + "" == w;
  }

  lemma ReplaceLast(n: nat, k: nat, q: string)
    requires 1 <= n <= k
    ensures Replace(Marker(n), Marker(k), q) == if n == k then q else Marker(n)
  {
    ReplaceAtMarker(n, "", k, q);
    assert Marker(n) + "" == Marker(n) && q + "" == q;
  }

  /** A number and an inserted digit read as a larger number. */
  lemma Grows(k: nat, q: string, v: string)
    requires k >= 1 && q == [DigitChar(0)]
    ensures Marker(k) + (q + v) == Marker(10 * k) + v
  {
    assert Digits(10 * k) == Digits(k) + q;
  }

  lemma DescendOnce(x: string, ps: seq<string>, k: nat, y: string)
    requires 1 <= k <= |ps| && Replace(x, Marker(k), ps[k - 1]) == y
    ensures Descend(x, ps, k) == Descend(y, ps, k - 1)
  {
  }

  lemma PassLast(i: nat, ps: seq<string>, k: nat)
    requires 1 <= i <= |ps| && k < i
    ensures Pass(Marker(i), ps, k) == ps[i - 1]
  {
    PassReadsMarker(i, "", ps, k);
    assert Marker(i) + "" == Marker(i);
  }

  /**
    In `:1:11` with an eleventh parameter `0` the loop reads `:10`, and gives the tenth
    parameter where the pass gives the first and the eleventh: agreement is an accident.
  */
  lemma ElevenExtends(ps: seq<string>, s: string, q: string)
    requires |ps| == 11 && ps[10] == q == [DigitChar(0)] && ':' !in ps[9] && s == Marker(1) + Marker(11)
    ensures Descend(s, ps, 11) == ps[9] && Pass(s, ps, 0) == ps[0] + q
  {
    ReplaceLast(11, 11, q);
    ReplaceAtMarker(1, Marker(11), 11, q);
    Grows(1, q, "");
    assert q + "" == q && Marker(10) + "" == Marker(10);
    DescendOnce(s, ps, 11, Marker(10));
    ReplaceLast(10, 10, ps[9]);
    DescendOnce(Marker(10), ps, 10, ps[9]);
    DescendWithoutColon(ps[9], ps, 9);
    PassLast(11, ps, 0);
    PassReadsMarker(1, Marker(11), ps, 0);
  }

  /** `:` and `:1` in front of a text that the rounds from `k` down to `low + 1` leave alone. */
  lemma {:induction false} IdleRounds(v: string, ps: seq<string>, k: nat, low: nat)
    requires 1 <= low <= k <= |ps| && Ends(v)
    requires forall j :: low < j <= k ==> Replace(v, Marker(j), ps[j - 1]) == v
    ensures var x := [':'] + (Marker(1) + v); Descend(x, ps, k) == Descend(x, ps, low)
    decreases k
  {
    if low < k {
      ReplaceAtMarker(1, v, k, ps[k - 1]);
      ReplaceAtColon(Marker(1) + v, k, ps[k - 1]);
      DescendOnce([':'] + (Marker(1) + v), ps, k, [':'] + (Marker(1) + v));
      IdleRounds(v, ps, k - 1, low);
    }
  }

  // ----- The statement `::2:21:1:1:21`

  lemma Round21(b: string, q: string)
    requires b == Marker(1) + (Marker(1) + Marker(21)) && q == [DigitChar(0)]
    ensures Replace([':'] + (Marker(2) + (Marker(21) + b)), Marker(21), q) ==
              [':'] + (Marker(20) + (Marker(1) + Marker(10)))
  {
    ReplaceLast(21, 21, q);
    ReplaceAtMarker(1, Marker(21), 21, q);
    ReplaceAtMarker(1, Marker(1) + Marker(21), 21, q);
    ReplaceAtMarker(21, b, 21, q);
    ReplaceAtMarker(2, Marker(21) + b, 21, q);
    ReplaceAtColon(Marker(2) + (Marker(21) + b), 21, q);
    Grows(1, q, "");
    assert q + "" == q && Marker(10) + "" == Marker(10);
    Grows(2, q, Marker(1) + Marker(10));
  }

  lemma Round20(v: string)
    requires v == Marker(1) + Marker(10)
    ensures Replace([':'] + (Marker(20) + v), Marker(20), "") == [':'] + v
  {
    ReplaceLast(10, 20, "");
    ReplaceAtMarker(1, Marker(10), 20, "");
    ReplaceAtMarker(20, v, 20, "");
    ReplaceAtColon(Marker(20) + v, 20, "");
    assert "" + v == v;
  }

  lemma Round10(w: string)
    ensures Replace([':'] + (Marker(1) + Marker(10)), Marker(10), w) == [':'] + (Marker(1) + w)
  {
    ReplaceLast(10, 10, w);
    ReplaceAtMarker(1, Marker(10), 10, w);
    ReplaceAtColon(Marker(1) + Marker(10), 10, w);
  }

  lemma Round1(w: string, q: string)
    requires ':' !in w && Ends(w)
    ensures Replace([':'] + (Marker(1) + w), Marker(1), q) == [':'] + (q + w)
  {
    ReplacePlain(w, 1, q);
    ReplaceAtMarker(1, w, 1, q);
    ReplaceAtColon(Marker(1) + w, 1, q);
  }

  lemma FirstRounds(s: string, b: string, ps: seq<string>, v: string)
    requires |ps| == 21 && ps[19] == [] && ps[20] == [DigitChar(0)] && v == Marker(1) + Marker(10)
    requires b == Marker(1) + (Marker(1) + Marker(21)) && s == [':'] + (Marker(2) + (Marker(21) + b))
    ensures Descend(s, ps, 21) == Descend([':'] + v, ps, 19)
  {
    Round21(b, ps[20]);
    DescendOnce(s, ps, 21, [':'] + (Marker(20) + v));
    Round20(v);
    DescendOnce([':'] + (Marker(20) + v), ps, 20, [':'] + v);
  }

  lemma MiddleRounds(ps: seq<string>, v: string, w: string)
    requires |ps| == 21 && ps[9] == w && v == Marker(1) + Marker(10)
    ensures Descend([':'] + v, ps, 19) == Descend([':'] + (Marker(1) + w), ps, 9)
  {
    forall j | 10 < j <= 19 ensures Replace(Marker(10), Marker(j), ps[j - 1]) == Marker(10) {
      ReplaceLast(10, j, ps[j - 1]);
    }
    IdleRounds(Marker(10), ps, 19, 10);
    Round10(w);
    DescendOnce([':'] + v, ps, 10, [':'] + (Marker(1) + w));
  }

  lemma LastRounds(ps: seq<string>, w: string)
    requires |ps| == 21 && ':' !in w && Ends(w)
    ensures Descend([':'] + (Marker(1) + w), ps, 9) == [':'] + (ps[0] + w)
  {
    forall j | 1 < j <= 9 ensures Replace(w, Marker(j), ps[j - 1]) == w { ReplacePlain(w, j, ps[j - 1]); }
    IdleRounds(w, ps, 9, 1);
    Round1(w, ps[0]);
    DescendOnce([':'] + (Marker(1) + w), ps, 1, [':'] + (ps[0] + w));
  }

  lemma Passed(t: string, c: string, b: string, ps: seq<string>)
    requires |ps| == 21 && b == Marker(1) + (Marker(1) + Marker(21)) && c == Marker(21) + b && t == Marker(2) + c
    ensures Pass(t, ps, 0) == ps[1] + (ps[20] + (ps[0] + (ps[0] + ps[20])))
    ensures Pass(t, ps, 1) == ps[1] + Pass(c, ps, 1)
  {
    PassLast(21, ps, 0);
    PassReadsMarker(1, Marker(21), ps, 0);
    PassReadsMarker(1, Marker(1) + Marker(21), ps, 0);
    PassReadsMarker(21, b, ps, 0);
    PassReadsMarker(2, c, ps, 0);
    PassReadsMarker(2, c, ps, 1);
  }

  lemma {:induction false} NoNameThere(t: string, n: nat, limit: nat)
    requires limit <= |t| && Ends(t)
    ensures NameLength(t, n, limit) == 0
  {
    if limit > 0 {
      assert t[..limit][0] == t[0];
      NoNameThere(t, n, limit - 1);
    }
  }

  lemma FirstColon(s: string, t: string, ps: seq<string>)
    requires s == [':'] + t && t != [] && t[0] == ':' && Reads(t, ps, 1)
    ensures Pass(s, ps, 0) == [':'] + Pass(t, ps, 0) && !OthersCalm(s, ps, 1)
  {
    NoNameThere(t, |ps|, |t|);
    PassAtOther(s, ':', t, ps, 0);
    assert s[0] == ':' && s[0 + 1..] == t;
  }

  lemma Cancel(ps: seq<string>, s: string, t: string, c: string, b: string, y: string)
    requires |ps| == 21 && ps[19] == [] && ps[20] == [DigitChar(0)] && ':' !in ps[9] && Ends(ps[9]) && Digits(1) <= ps[1]
    requires y == ps[0] + ps[9] == ps[1] + (ps[20] + (ps[0] + (ps[0] + ps[20])))
    requires b == Marker(1) + (Marker(1) + Marker(21)) && c == Marker(21) + b && t == Marker(2) + c && s == [':'] + t
    ensures Descend(s, ps, 21) == Pass(s, ps, 0) && !OthersCalm(s, ps, 1)
  {
    assert Descend(s, ps, 21) == [':'] + y by {
      FirstRounds(s, b, ps, Marker(1) + Marker(10));
      MiddleRounds(ps, Marker(1) + Marker(10), ps[9]);
      LastRounds(ps, ps[9]);
    }
    Passed(t, c, b, ps);
    FirstColon(s, t, ps);
  }

  /**
    The condition on names in `DescendExact` cannot be dropped for large numbers of
    parameters: here the results agree, but the first colon, which names nothing, is followed
    by `1` in round 1 of a loop that does as the pass.
  */
  lemma TwentyOneCancel(ps: seq<string>, s: string)
    requires |ps| == 21 && ps[0] == "1" && ps[1] == "1a" && ps[9] == "a0110" && ps[19] == "" && ps[20] == "0"
    requires s == [':'] + (Marker(2) + (Marker(21) + (Marker(1) + (Marker(1) + Marker(21)))))
    ensures Descend(s, ps, 21) == Pass(s, ps, 0) && !OthersCalm(s, ps, 1)
  {
    var b := Marker(1) + (Marker(1) + Marker(21));
    var c := Marker(21) + b;
    Cancel(ps, s, Marker(2) + c, c, b, ps[0] + ps[9]);
  }
}
