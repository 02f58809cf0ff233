/** One statement in the question mark, the format and the numeric style. */
module Styles {
  import opened PyString
  import opened Decimal
  import opened Markers
  import opened Numbered
  import opened Rounds
  import opened Weights
  import opened GuardedText
  import opened Binding

  /** The statement with numbered markers, `:i` in the first gap, and so on. */
  function JoinNumbered(gs: seq<string>, i: nat): string
    requires gs != []
  {
    if |gs| == 1 then gs[0] else gs[0] + Marker(i) + JoinNumbered(gs[1..], i + 1)
  }

  /** Between two numbered markers there is text, and it does not continue the number in front of it. */
  predicate KeepsNumbers(gs: seq<string>) {
    forall i :: 1 <= i < |gs| ==> if gs[i] == [] then i == |gs| - 1 else !IsDigit(gs[i][0])
  }

  // ----- Sealed texts

  lemma SealedConcat(m: string, u: string, v: string)
    requires IsMarker(m) && Sealed(m, u) && Sealed(m, v)
    ensures Sealed(m, u + v)
  {
    forall i | 0 <= i < |u + v| ensures !MayBegin(m, u + v, i) {
      if i < |u| { assert !MayBegin(m, u, i); } else { assert !MayBegin(m, v, i - |u|); }
    }
  }

  lemma SealedFind(m: string, d: string)
    requires IsMarker(m) && Sealed(m, d)
    ensures Find(d, m) < 0
  {
    SealedIsClear(m, d, "");
    assert d + "" == d;
    NoOccurrence(d, m);
  }

  lemma {:induction false} SealedJoin(m: string, gs: seq<string>, sep: string)
    requires IsMarker(m) && gs != [] && Sealed(m, sep)
    requires forall i :: 0 <= i < |gs| ==> Sealed(m, gs[i])
    ensures Sealed(m, Join(gs, sep))
  {
    if |gs| > 1 {
      SealedJoin(m, gs[1..], sep);
      SealedConcat(m, gs[0], sep);
      SealedConcat(m, gs[0] + sep, Join(gs[1..], sep));
    }
  }

  lemma {:induction false} SealedJoinNumbered(m: string, gs: seq<string>, i: nat)
    requires m == "?" || m == "%s"
    requires gs != [] && forall k :: 0 <= k < |gs| ==> Sealed(m, gs[k])
    ensures Sealed(m, JoinNumbered(gs, i))
    decreases |gs|
  {
    if |gs| > 1 {
      SealedJoinNumbered(m, gs[1..], i + 1);
      assert forall k :: 0 < k < |Marker(i)| ==> Marker(i)[k] == Digits(i)[k - 1];
      assert Sealed(m, Marker(i));
      SealedConcat(m, gs[0], Marker(i));
      SealedConcat(m, gs[0] + Marker(i), JoinNumbered(gs[1..], i + 1));
    }
  }

  lemma SplitFirst(m: string, g: string, t: string)
    requires IsMarker(m) && Sealed(m, g)
    ensures Split(g + m + t, m) == [g] + Split(t, m)
  {
    var rest := m + t;
    var s := g + rest;
    assert g + m + t == s && m <= rest;
    assert Find(s, m) == |g| by {
      SealedIsClear(m, g, rest);
      FindBehind(g, rest, m);
    }
    assert s[|g| + |m|..] == t && s[..|g|] == g;
  }

  /** Joining sealed texts by the marker and splitting at it gives the texts back. */
  lemma {:induction false} SplitOfJoin(m: string, gs: seq<string>)
    requires IsMarker(m) && gs != [] && forall i :: 0 <= i < |gs| ==> Sealed(m, gs[i])
    ensures Split(Join(gs, m), m) == gs
  {
    if |gs| == 1 {
      SealedFind(m, gs[0]);
    } else {
      SplitOfJoin(m, gs[1..]);
      SplitFirst(m, gs[0], Join(gs[1..], m));
      assert gs == [gs[0]] + gs[1..];
    }
  }

  // ----- The numeric style

  predicate NoColons(gs: seq<string>) {
    forall i :: 0 <= i < |gs| ==> ':' !in gs[i]
  }

  /** What follows a marker in a numbered statement does not continue its number. */
  lemma RestBegins(gs: seq<string>, i: nat)
    requires |gs| > 1 && KeepsNumbers(gs)
    ensures KeepsNumbers(gs[1..])
    ensures var t := JoinNumbered(gs[1..], i); t != [] ==> !IsDigit(t[0])
  {
    assert gs[1..][0] == gs[1];
  }

  /** Above `k`, the pass over the markers from `i > k` on is the statement with its parameters. */
  lemma {:induction false} PassOfJoin(gs: seq<string>, ps: seq<string>, i: nat, k: nat)
    requires gs != [] && k < i && |gs| - 1 == |ps| - i + 1 && NoColons(gs) && KeepsNumbers(gs)
    ensures Pass(JoinNumbered(gs, i), ps, k) == Interleave(gs, ps[i - 1..])
    decreases |gs|
  {
    if |gs| == 1 {
      PassCopiesPlain(gs[0], "", ps, k);
      assert gs[0] + "" == gs[0];
    } else {
      var t := JoinNumbered(gs[1..], i + 1);
      RestBegins(gs, i + 1);
      PassOfJoin(gs[1..], ps, i + 1, k);
      assert JoinNumbered(gs, i) == gs[0] + (Marker(i) + t);
      PassCopiesPlain(gs[0], Marker(i) + t, ps, k);
      PassReadsMarker(i, t, ps, k);
      assert ps[i - 1..][1..] == ps[i..];
    }
  }

  /** A marker at the front and text behind it that does not continue its number. */
  lemma MarkerInFront(i: nat, t: string, ps: seq<string>, k: nat)
    requires 1 <= i <= k <= |ps| && (t != [] ==> !IsDigit(t[0]))
    ensures var s := Marker(i) + t;
            && Pass(s, ps, k) == Marker(i) + Pass(t, ps, k)
            && Named(s, |ps|, k) == (if i == k then 1 else 0) + Named(t, |ps|, k)
  {
    var u, d := Digits(i) + t, Digits(i);
    assert NameLength(u, |ps|, |u|) == |d| by { NameOfMarker(i, t, |ps|); }
    assert u[..|d|] == d && u[|d|..] == t && Value(d) == i by { ValueDigits(i); }
    assert Marker(i) + t == [':'] + u;
    PassKeepsMarker([':'] + u, u, ps, k, |d|, i);
    NamedBehindName([':'] + u, u, |ps|, k, |d|, i, t);
  }

  lemma PassBegins(t: string, ps: seq<string>, k: nat)
    requires t != [] ==> t[0] != ':' && !IsDigit(t[0])
    ensures var x := Pass(t, ps, k); x != [] ==> !IsDigit(x[0])
  {
  }

  lemma TextInFront(g: string, t: string, ps: seq<string>, k: nat)
    requires 1 <= k <= |ps| && ':' !in g && Undisturbed(t, ps, k)
    ensures Undisturbed(g + t, ps, k)
  {
    PassCopiesPlain(g, t, ps, k);
    NamedPlain(g, t, |ps|, k);
    OccurrencesPlain(g, Pass(t, ps, k), k);
  }

  lemma UndisturbedMarker(i: nat, t: string, ps: seq<string>, k: nat)
    requires 1 <= i <= k <= |ps| && (t != [] ==> t[0] != ':' && !IsDigit(t[0])) && Undisturbed(t, ps, k)
    ensures Undisturbed(Marker(i) + t, ps, k)
  {
    var x := Pass(t, ps, k);
    MarkerInFront(i, t, ps, k);
    if i == k {
      Rounds.OccurrencesMarker(k, x);
    } else {
      PassBegins(t, ps, k);
      SmallerInFront(i, x, k);
    }
  }

  /** If the finished statement holds no number `k`, round `k` meets only the marker of the statement. */
  lemma {:induction false} JoinUndisturbed(gs: seq<string>, ps: seq<string>, i: nat, k: nat)
    requires gs != [] && 1 <= i && |gs| - 1 == |ps| - i + 1 && NoColons(gs) && KeepsNumbers(gs) && 1 <= k <= |ps|
    requires Occurrences(Interleave(gs, ps[i - 1..]), Marker(k)) == 0
    ensures Undisturbed(JoinNumbered(gs, i), ps, k)
    decreases |gs|
  {
    if k < i {
      PassOfJoin(gs, ps, i, k);
      NamesOccur(JoinNumbered(gs, i), ps, k);
    } else {
      var t, y := JoinNumbered(gs[1..], i + 1), Interleave(gs[1..], ps[i..]);
      assert ps[i - 1..][1..] == ps[i..] && ps[i - 1..][0] == ps[i - 1];
      assert Occurrences(y, Marker(k)) == 0 by { OccurrencesBehind(gs[0] + ps[i - 1], y, Marker(k)); }
      RestBegins(gs, i + 1);
      JoinUndisturbed(gs[1..], ps, i + 1, k);
      assert t != [] ==> t[0] == gs[1][0];
      UndisturbedMarker(i, t, ps, k);
      TextInFront(gs[0], Marker(i) + t, ps, k);
      assert JoinNumbered(gs, i) == gs[0] + (Marker(i) + t);
    }
  }

  lemma NumericJoin(gs: seq<string>, ps: seq<string>)
    requires |gs| == |ps| + 1 && NoColons(gs) && KeepsNumbers(gs) && NoNumber(Interleave(gs, ps), |ps|)
    ensures Descend(JoinNumbered(gs, 1), ps, |ps|) == Interleave(gs, ps)
  {
    var op, x := JoinNumbered(gs, 1), Interleave(gs, ps);
    assert ps[0..] == ps;
    forall k | 1 <= k <= |ps| ensures Undisturbed(op, ps, k) {
      NoOccurrence(x, Marker(k));
      JoinUndisturbed(gs, ps, 1, k);
    }
    DescendFrom(op, ps, 0);
    PassOfJoin(gs, ps, 1, 0);
  }

  // ----- The result

  /** The texts of a statement hold no question mark, no `%s` and no part of one at their ends. */
  predicate PlainTexts(gs: seq<string>) {
    forall i :: 0 <= i < |gs| ==> Sealed("?", gs[i]) && Sealed("%s", gs[i])
  }

  /**
    Whatever the parameters are: if the finished statement holds no marker of any kind, the
    three styles give just that statement.
  */
  lemma StylesAgree(gs: seq<string>, ps: seq<string>)
    requires |gs| == |ps| + 1 && PlainTexts(gs)
    requires var x := Interleave(gs, ps); Find(x, "?") < 0 && Settled(x, |ps|)
    ensures Bind(Join(gs, "?"), ps) == Bound(Interleave(gs, ps))
    ensures Bind(Join(gs, "%s"), ps) == Bound(Interleave(gs, ps))
    ensures NoColons(gs) && KeepsNumbers(gs) ==> Bind(JoinNumbered(gs, 1), ps) == Bound(Interleave(gs, ps))
  {
    SplitOfJoin("?", gs);
    QuestionStyle(Join(gs, "?"), ps);

    SealedJoin("?", gs, "%s");
    SealedFind("?", Join(gs, "%s"));
    SplitOfJoin("%s", gs);
    FormatStyle(Join(gs, "%s"), ps);

    if NoColons(gs) && KeepsNumbers(gs) {
      var op := JoinNumbered(gs, 1);
      SealedJoinNumbered("?", gs, 1);
      SealedFind("?", op);
      SealedJoinNumbered("%s", gs, 1);
      SealedFind("%s", op);
      NumericStyle(op, ps);
      NumericJoin(gs, ps);
    }
  }

  /**
    For texts and missing values, with colons or without: a numbered statement becomes the
    single pass if and only if in every round the marker occurs only where the statement has it.
  */
  lemma NumericStyleExact(op: string, vs: seq<Parameter>)
    requires Find(op, "?") < 0 && Find(op, "%s") < 0 && forall i :: 0 <= i < |vs| ==> !vs[i].Other?
    ensures var ls := Literals(vs);
            Bind(op, ls) == Bound(Pass(op, ls, 0)) <==> forall k :: 1 <= k <= |ls| ==> Undisturbed(op, ls, k)
  {
    var ls := Literals(vs);
    LiteralsAre(vs);
    forall i | 0 <= i < |ls| ensures Guarded(ls[i]) { LiteralKeeps(vs[i], 0); }
    NumericStyle(op, ls);
    GuardedExact(op, ls);
  }
}
