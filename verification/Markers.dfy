/**
  Positional markers (`?` and `%s`): python/hs2client/dbapi.py rewrites the statement from
  its beginning once per parameter, so text that was just inserted is searched again.
*/
module Markers {
  import opened PyString

  datatype Result = Bound(text: string) | ProgrammingError(uses: nat, supplied: nat)

  /** The rewriting loop, from the moment `k` parameters have been used. */
  function Rewrite(m: string, op: string, ps: seq<string>, k: nat): Result
    requires m != [] && k <= |ps|
    decreases |ps| - k
  {
    if Find(op, m) < 0 then
      if k != 0 && k != |ps| then ProgrammingError(k + 1, |ps|) else Bound(op)
    else if k == |ps| then ProgrammingError(k + 1, |ps|)
    else Rewrite(m, ReplaceFirst(op, m, ps[k]), ps, k + 1)
  }

  /** The statement after `k` rewriting steps. */
  function After(m: string, op: string, ps: seq<string>, k: nat): string
    requires m != [] && k <= |ps|
  {
    if k == 0 then op else ReplaceFirst(After(m, op, ps, k - 1), m, ps[k - 1])
  }

  /** The text results from one replacement, of a marker that is there, for each of the parameters. */
  ghost predicate AllInserted(m: string, op: string, ps: seq<string>, text: string)
    requires m != []
  {
    text == After(m, op, ps, |ps|) && forall k :: 0 <= k < |ps| ==> MarkerLeft(m, op, ps, k)
  }

  ghost predicate MarkerLeft(m: string, op: string, ps: seq<string>, k: nat)
    requires m != [] && k <= |ps|
  {
    Find(After(m, op, ps, k), m) >= 0
  }

  /** The loop has come to `op` with `k` parameters, each of which replaced a marker. */
  ghost predicate Reaches(m: string, operation: string, ps: seq<string>, op: string, k: nat)
    requires m != []
  {
    && k <= |ps| && op == After(m, operation, ps, k)
    && Rewrite(m, operation, ps, 0) == Rewrite(m, op, ps, k)
    && forall j :: 0 <= j < k ==> MarkerLeft(m, operation, ps, j)
  }

  lemma ReachesNext(m: string, operation: string, ps: seq<string>, op: string, k: nat, next: string)
    requires m != [] && k < |ps| && Reaches(m, operation, ps, op, k) && Find(op, m) >= 0
    requires next == ReplaceFirst(op, m, ps[k])
    ensures Reaches(m, operation, ps, next, k + 1)
  {
    RewriteOnce(m, op, ps, k, next);
    assert MarkerLeft(m, operation, ps, k);
  }

  lemma ReachesEnd(m: string, operation: string, ps: seq<string>, op: string, k: nat)
    requires m != [] && Reaches(m, operation, ps, op, k) && (Find(op, m) < 0 || k == |ps|)
    ensures Rewrite(m, operation, ps, 0) ==
              if Find(op, m) >= 0 || (k != 0 && k != |ps|) then ProgrammingError(k + 1, |ps|) else Bound(op)
    ensures Find(op, m) < 0 && k == 0 ==> op == operation
    ensures k == |ps| ==> AllInserted(m, operation, ps, op)
  {
  }

  /** A statement that is returned has no marker left, and none or all of the parameters went into it. */
  method ReplaceMarkers(marker: string, operation: string, parameters: seq<string>) returns (r: Result)
    requires marker != []
    ensures r == Rewrite(marker, operation, parameters, 0)
    ensures r.Bound? ==>
              && Find(r.text, marker) < 0
              && ((Find(operation, marker) < 0 && r.text == operation) || AllInserted(marker, operation, parameters, r.text))
    ensures r.ProgrammingError? ==>
              && r.supplied == |parameters| && 1 <= r.uses <= |parameters| + 1
              && (forall k :: 0 <= k < r.uses - 1 ==> MarkerLeft(marker, operation, parameters, k))
              && (MarkerLeft(marker, operation, parameters, r.uses - 1) <==> r.uses - 1 == |parameters|)
              && (r.uses - 1 != |parameters| ==> r.uses > 1)
  {
    var op := operation;
    var markerIndex := 0;
    while Find(op, marker) > -1
      invariant Reaches(marker, operation, parameters, op, markerIndex)
      decreases |parameters| - markerIndex
    {
      if markerIndex < |parameters| {
        ReachesNext(marker, operation, parameters, op, markerIndex, ReplaceFirst(op, marker, parameters[markerIndex]));
        op := ReplaceFirst(op, marker, parameters[markerIndex]);
        markerIndex := markerIndex + 1;
      } else {
        ReachesEnd(marker, operation, parameters, op, markerIndex);
        return ProgrammingError(markerIndex + 1, |parameters|);
      }
    }
    ReachesEnd(marker, operation, parameters, op, markerIndex);
    if markerIndex != 0 && markerIndex != |parameters| {
      return ProgrammingError(markerIndex + 1, |parameters|);
    }
    return Bound(op);
  }

  // ----- Parameters that cannot take part in a marker

  /** The two markers in use are one character, or two different ones. */
  predicate IsMarker(m: string) {
    |m| == 1 || (|m| == 2 && m[0] != m[1])
  }

  /** A marker begins at `i`, or would if the right character followed the text. */
  predicate MayBegin(m: string, d: string, i: nat)
    requires IsMarker(m) && i < |d|
  {
    d[i] == m[0] && (|m| == 1 || i + 1 == |d| || d[i + 1] == m[1])
  }

  /** No marker begins in `d`, whatever follows it. */
  predicate Sealed(m: string, d: string)
    requires IsMarker(m)
  {
    forall i :: 0 <= i < |d| ==> !MayBegin(m, d, i)
  }

  /** A parameter text that cannot form a marker, neither alone nor with the text around it. */
  predicate Inert(m: string, p: string)
    requires IsMarker(m)
  {
    Sealed(m, p) && (|m| == 2 ==> p != [] && p[0] != m[1])
  }

  /** A sealed text holds no beginning of a marker. */
  lemma {:induction false} SealedIsClear(m: string, d: string, rest: string)
    requires IsMarker(m) && Sealed(m, d)
    ensures Occurrences(d + rest, m) == Occurrences(rest, m)
  {
    if d == [] {
      assert d + rest == rest;
    } else {
      var e := d[1..];
      assert Sealed(m, e) by {
        forall i | 0 <= i < |e| ensures !MayBegin(m, e, i) { assert !MayBegin(m, d, i + 1); }
      }
      SealedIsClear(m, e, rest);
      assert d + rest == [d[0]] + (e + rest);
      OccurrencesCons(d[0], e + rest, m);
      assert !MayBegin(m, d, 0);
    }
  }

  // ----- Counting markers

  /** Markers do not overlap. */
  lemma OccurrencesMarker(m: string, v: string)
    requires IsMarker(m)
    ensures Occurrences(m + v, m) == 1 + Occurrences(v, m)
  {
    OccurrencesCons(m[0], m[1..] + v, m);
    assert m + v == [m[0]] + (m[1..] + v);
    if |m| == 1 {
      assert m[1..] + v == v;
    } else {
      assert m[1..] == [m[1]] && ([m[1]] + v)[0] == m[1];
      OccurrencesCons(m[1], v, m);
    }
  }

  lemma OccurrencesAtFind(m: string, s: string, f: nat)
    requires IsMarker(m) && Find(s, m) == f
    ensures f + |m| <= |s| && Occurrences(s, m) == 1 + Occurrences(s[f + |m|..], m)
    ensures s[f..] == m + s[f + |m|..]
  {
    FindIsFirst(s, m);
    NoneBeforeFind(s, m);
    assert s[f..] == m + s[f + |m|..];
    OccurrencesMarker(m, s[f + |m|..]);
  }

  lemma {:induction false} SplitCounts(m: string, s: string)
    requires IsMarker(m)
    ensures |Split(s, m)| - 1 == Occurrences(s, m)
    decreases |s|
  {
    var f := Find(s, m);
    if f < 0 {
      NoOccurrence(s, m);
    } else {
      OccurrencesAtFind(m, s, f);
      SplitCounts(m, s[f + |m|..]);
    }
  }

  /** A step takes one marker out, and may bring others in. */
  lemma ReplaceFirstCount(m: string, s: string, p: string)
    requires IsMarker(m) && Find(s, m) >= 0
    ensures Occurrences(ReplaceFirst(s, m, p), m) >= Occurrences(s, m) - 1
  {
    var f := Find(s, m);
    OccurrencesAtFind(m, s, f);
    OccurrencesBehind(s[..f] + p, s[f + |m|..], m);
  }

  lemma RewriteOnce(m: string, s: string, ps: seq<string>, k: nat, t: string)
    requires m != [] && k < |ps| && Find(s, m) >= 0 && t == ReplaceFirst(s, m, ps[k])
    ensures Rewrite(m, s, ps, k) == Rewrite(m, t, ps, k + 1)
  {
  }

  /** With more markers than parameters left the loop fails, whatever the parameters are. */
  lemma {:induction false} TooManyMarkers(m: string, s: string, ps: seq<string>, k: nat)
    requires IsMarker(m) && k <= |ps| && Occurrences(s, m) > |ps| - k
    ensures Rewrite(m, s, ps, k).ProgrammingError?
    decreases |ps| - k
  {
    NoOccurrence(s, m);
    if k < |ps| {
      var t := ReplaceFirst(s, m, ps[k]);
      ReplaceFirstCount(m, s, ps[k]);
      TooManyMarkers(m, t, ps, k + 1);
      RewriteOnce(m, s, ps, k, t);
    }
  }

  // ----- The loop against the substitution of the markers that the statement has

  lemma ReplaceFirstAt(m: string, s: string, p: string, f: nat)
    requires m != [] && Find(s, m) == f && f + |m| <= |s|
    ensures ReplaceFirst(s, m, p) == s[..f] + p + s[f + |m|..]
  {
  }

  /** One step on a text in whose part `d` no marker begins. */
  lemma RewriteStep(m: string, d: string, rest: string, s: string, ps: seq<string>, k: nat, f: nat, t: string)
    requires m != [] && k < |ps| && Find(rest, m) == f && f + |m| <= |rest| && s == d + rest
    requires Occurrences(s, m) == Occurrences(rest, m)
    requires t == (d + rest[..f] + ps[k]) + rest[f + |m|..]
    ensures Rewrite(m, s, ps, k) == Rewrite(m, t, ps, k + 1)
  {
    assert Find(s, m) == |d| + f by { FindBehind(d, rest, m); }
    assert t == ReplaceFirst(s, m, ps[k]) by {
      ReplaceFirstAt(m, s, ps[k], |d| + f);
      ReplaceBehind(d, rest, f, |m|, ps[k]);
    }
    RewriteOnce(m, s, ps, k, t);
  }

  lemma ReplaceBehind(d: string, rest: string, f: nat, n: nat, p: string)
    requires f + n <= |rest|
    ensures var s := d + rest;
            s[..|d| + f] + p + s[|d| + f + n..] == (d + rest[..f] + p) + rest[f + n..]
  {
    var s := d + rest;
    assert s[..|d| + f] == d + rest[..f] && s[|d| + f + n..] == rest[f + n..];
  }

  /** A marker that begins in `d` is still there if what follows begins with the same character. */
  lemma {:induction false} BegunStays(m: string, d: string, rest: string, y: string)
    requires IsMarker(m) && Occurrences(d + rest, m) > Occurrences(rest, m)
    requires |m| == 2 && rest != [] && rest[0] == m[1] ==> y != [] && y[0] == m[1]
    ensures Find(d + y, m) >= 0
  {
    if d == [] {
      AddsNothing(d, rest);
    } else {
      var e := d[1..];
      assert d + rest == [d[0]] + (e + rest) && d + y == [d[0]] + (e + y) && (d + y)[1..] == e + y;
      OccurrencesCons(d[0], e + rest, m);
      if m <= d + rest { FirstStays(m, d, rest, y); } else { BegunStays(m, e, rest, y); }
    }
  }

  lemma FirstStays(m: string, d: string, rest: string, y: string)
    requires IsMarker(m) && d != [] && m <= d + rest
    requires |m| == 2 && rest != [] && rest[0] == m[1] ==> y != [] && y[0] == m[1]
    ensures m <= d + y
  {
    var s, t := d + rest, d + y;
    assert s[0] == m[0] == t[0];
    if |m| == 2 { assert s[1] == m[1] == t[1]; }
  }

  /** The first character of the substitution, if a marker could end with it. */
  lemma SubstitutionStarts(m: string, rest: string, qs: seq<string>)
    requires IsMarker(m) && |m| == 2 && |Split(rest, m)| == |qs| + 1 && rest != [] && rest[0] == m[1]
    ensures var y := Interleave(Split(rest, m), qs); y != [] && y[0] == m[1]
  {
    var f := Find(rest, m);
    if f >= 0 { FindIsFirst(rest, m); }
    assert f != 0;
    assert Split(rest, m)[0] != [] && Split(rest, m)[0][0] == rest[0];
  }

  /** What the loop does when the markers have run out. */
  function Finished(text: string, used: nat, supplied: nat): Result {
    if used != 0 && used != supplied then ProgrammingError(used + 1, supplied) else Bound(text)
  }

  /** The parameters in the gaps of the rest, behind `d`. */
  function Substitution(m: string, d: string, rest: string, qs: seq<string>): string
    requires m != [] && |Split(rest, m)| == |qs| + 1
  {
    d + Interleave(Split(rest, m), qs)
  }

  lemma SubstitutionNext(m: string, d: string, rest: string, qs: seq<string>, f: nat)
    requires m != [] && Find(rest, m) == f && f + |m| <= |rest| && |Split(rest, m)| == |qs| + 1
    ensures qs != [] && |Split(rest[f + |m|..], m)| == |qs|
    ensures Substitution(m, d, rest, qs) == Substitution(m, d + rest[..f] + qs[0], rest[f + |m|..], qs[1..])
  {
    var gs := Split(rest[f + |m|..], m);
    assert Split(rest, m) == [rest[..f]] + gs && ([rest[..f]] + gs)[1..] == gs;
    var z := Interleave(gs, qs[1..]);
    assert d + (rest[..f] + qs[0] + z) == (d + rest[..f] + qs[0]) + z;
  }

  /** The result of rewriting a text in whose part `d` no marker begins, and whose rest has `c` of them. */
  ghost predicate Substituted(r: Result, x: string, m: string, c: nat, k: nat, n: nat)
    requires m != []
  {
    && (Find(x, m) < 0 ==> r == Finished(x, k + c, n))
    && (Find(x, m) >= 0 && k + c == n ==> r.ProgrammingError?)
  }

  lemma {:induction false} RewriteFrom(m: string, d: string, rest: string, s: string, ps: seq<string>, k: nat, c: nat,
                                       x: string)
    requires IsMarker(m) && k + c <= |ps| && c == |Split(rest, m)| - 1
    requires s == d + rest && x == Substitution(m, d, rest, ps[k..k + c])
    requires Occurrences(s, m) == Occurrences(rest, m)
    ensures Substituted(Rewrite(m, s, ps, k), x, m, c, k, |ps|)
    decreases c, 0
  {
    if c == 0 {
      RewriteOver(m, d, rest, s, ps, k);
    } else {
      var f := Find(rest, m);
      var e, rest' := d + rest[..f] + ps[k], rest[f + |m|..];
      StepAndSubstitution(m, d, rest, s, ps, k, c, f, e, rest', e + rest');
      RewriteNext(m, e, rest', e + rest', ps, k + 1, c - 1, x);
      SubstitutedShift(Rewrite(m, e + rest', ps, k + 1), x, m, c, k, |ps|);
    }
  }

  lemma SubstitutedShift(r: Result, x: string, m: string, c: nat, k: nat, n: nat)
    requires m != [] && c > 0 && Substituted(r, x, m, c - 1, k + 1, n)
    ensures Substituted(r, x, m, c, k, n)
  {
  }

  lemma {:induction false} RewriteNext(m: string, d: string, rest: string, s: string, ps: seq<string>, k: nat, c: nat,
                                       x: string)
    requires IsMarker(m) && k + c <= |ps| && c == |Split(rest, m)| - 1
    requires s == d + rest && x == Substitution(m, d, rest, ps[k..k + c])
    ensures Substituted(Rewrite(m, s, ps, k), x, m, c, k, |ps|)
    decreases c, 1
  {
    OccurrencesBehind(d, rest, m);
    if Occurrences(s, m) == Occurrences(rest, m) {
      RewriteFrom(m, d, rest, s, ps, k, c, x);
    } else {
      RewriteDisturbed(m, d, rest, ps, k, c);
    }
  }

  lemma RewriteOver(m: string, d: string, rest: string, s: string, ps: seq<string>, k: nat)
    requires m != [] && k <= |ps| && Find(rest, m) < 0 && s == d + rest && Occurrences(s, m) == Occurrences(rest, m)
    ensures Substitution(m, d, rest, []) == s && Find(s, m) < 0
    ensures Rewrite(m, s, ps, k) == Finished(s, k, |ps|)
  {
    FindBehind(d, rest, m);
  }

  /** One step leaves the result and the substitution that it should be as they are. */
  lemma StepAndSubstitution(m: string, d: string, rest: string, s: string, ps: seq<string>, k: nat, c: nat, f: nat,
                            e: string, rest': string, t: string)
    requires m != [] && k + c <= |ps| && c == |Split(rest, m)| - 1 && Find(rest, m) == f && f + |m| <= |rest|
    requires s == d + rest && Occurrences(s, m) == Occurrences(rest, m)
    requires c > 0 && e == d + rest[..f] + ps[k] && rest' == rest[f + |m|..] && t == e + rest'
    ensures |Split(rest', m)| == c
    ensures Rewrite(m, s, ps, k) == Rewrite(m, t, ps, k + 1)
    ensures Substitution(m, d, rest, ps[k..k + c]) == Substitution(m, e, rest', ps[k + 1..k + c])
  {
    var qs := ps[k..k + c];
    assert qs[0] == ps[k] && qs[1..] == ps[k + 1..k + c];
    SubstitutionNext(m, d, rest, qs, f);
    RewriteStep(m, d, rest, s, ps, k, f, t);
  }

  /** A marker begins in the part that should be settled. */
  lemma RewriteDisturbed(m: string, d: string, rest: string, ps: seq<string>, k: nat, c: nat)
    requires IsMarker(m) && k + c <= |ps| && c == |Split(rest, m)| - 1
    requires Occurrences(d + rest, m) > Occurrences(rest, m)
    ensures Find(Substitution(m, d, rest, ps[k..k + c]), m) >= 0
    ensures k + c == |ps| ==> Rewrite(m, d + rest, ps, k).ProgrammingError?
  {
    var y := Interleave(Split(rest, m), ps[k..k + c]);
    if |m| == 2 && rest != [] && rest[0] == m[1] { SubstitutionStarts(m, rest, ps[k..k + c]); }
    BegunStays(m, d, rest, y);
    SplitCounts(m, rest);
    if k + c == |ps| { TooManyMarkers(m, d + rest, ps, k); }
  }

  /**
    Exactly what the loop returns, for any parameters.  With more markers than parameters it
    fails.  With as many, it returns the statement with the parameters in its gaps if that
    text holds no marker, and fails otherwise.  With fewer, and if the text with the first
    parameters in the gaps holds no marker, it fails unless there was no marker at all.
  */
  lemma PositionalMarkers(m: string, op: string, ps: seq<string>)
    requires IsMarker(m)
    ensures var gs, r := Split(op, m), Rewrite(m, op, ps, 0);
            var c := |gs| - 1;
            if c > |ps| then r.ProgrammingError?
            else
              var x := Interleave(gs, ps[..c]);
              && (Find(x, m) < 0 ==> r == Finished(x, c, |ps|))
              && (c == |ps| && Find(x, m) >= 0 ==> r.ProgrammingError?)
  {
    var c := |Split(op, m)| - 1;
    AddsNothing("", op);
    if c > |ps| {
      SplitCounts(m, op);
      TooManyMarkers(m, op, ps, 0);
    } else {
      RewriteFrom(m, "", op, op, ps, 0, c, Substitution(m, "", op, ps[0..c]));
      AddsNothing("", Interleave(Split(op, m), ps[0..c]));
      assert ps[0..c] == ps[..c];
    }
  }

  // ----- Question marks inside parameters

  /** The number of question marks in a text. */
  function Marks(s: string): nat {
    if s == [] then 0 else (if s[0] == '?' then 1 else 0) + Marks(s[1..])
  }

  /** The number of question marks in the first `k` parameters. */
  function MarksIn(ps: seq<string>, k: nat): nat
    requires k <= |ps|
  {
    if k == 0 then 0 else MarksIn(ps, k - 1) + Marks(ps[k - 1])
  }

  lemma {:induction false} MarksConcat(u: string, v: string)
    ensures Marks(u + v) == Marks(u) + Marks(v)
  {
    if u == [] {
      assert u + v == v;
    } else {
      assert (u + v)[1..] == u[1..] + v;
      MarksConcat(u[1..], v);
    }
  }

  lemma {:induction false} NoMarks(s: string)
    ensures Marks(s) == 0 <==> Find(s, "?") < 0
  {
    if s != [] {
      NoMarks(s[1..]);
      assert "?" <= s <==> s[0] == '?';
    }
  }

  /** One step takes out one question mark and puts in those of the parameter. */
  lemma MarksConserved(op: string, p: string)
    requires Find(op, "?") >= 0
    ensures Marks(ReplaceFirst(op, "?", p)) == Marks(op) - 1 + Marks(p)
  {
    var f := Find(op, "?");
    FindIsFirst(op, "?");
    CutAt(op, "?", f);
    MarksConcat(op[..f] + "?", op[f + 1..]);
    MarksConcat(op[..f], "?");
    assert "?"[1..] == "";
    MarksConcat(op[..f] + p, op[f + 1..]);
    MarksConcat(op[..f], p);
  }

  /** Question marks that are left after `k` steps, if the loop gets that far. */
  function Left(c: nat, ps: seq<string>, k: nat): int
    requires k <= |ps|
  {
    c + MarksIn(ps, k) - k
  }

  /** The markers run out at the last parameter and not before. */
  ghost predicate RunsOutLast(c: nat, ps: seq<string>, k: nat)
    requires k <= |ps|
  {
    Left(c, ps, |ps|) == 0 && forall j :: k <= j < |ps| ==> Left(c, ps, j) > 0
  }

  lemma {:induction false} RewriteMarks(c: nat, op: string, ps: seq<string>, k: nat)
    requires k <= |ps| && Marks(op) == Left(c, ps, k)
    ensures Rewrite("?", op, ps, k).Bound? <==> (k == 0 && Left(c, ps, 0) == 0) || RunsOutLast(c, ps, k)
    decreases |ps| - k
  {
    assert Left(c, ps, k) == 0 <==> Find(op, "?") < 0 by { NoMarks(op); }
    if Left(c, ps, k) > 0 && k < |ps| {
      var t := ReplaceFirst(op, "?", ps[k]);
      assert Marks(t) == Left(c, ps, k + 1) by { MarksConserved(op, ps[k]); }
      RewriteMarks(c, t, ps, k + 1);
      assert Rewrite("?", op, ps, k) == Rewrite("?", t, ps, k + 1) by { RewriteOnce("?", op, ps, k, t); }
      assert RunsOutLast(c, ps, k) <==> RunsOutLast(c, ps, k + 1);
    } else {
      assert RunsOutLast(c, ps, k) <==> k == |ps| && Left(c, ps, k) == 0;
    }
  }

  /**
    Exactly when the loop accepts, for any parameters: the marker count is zero, or the
    markers, including those that parameters bring in, run out at the last parameter and
    not before.
  */
  lemma QuestionMarksExact(op: string, ps: seq<string>)
    ensures Rewrite("?", op, ps, 0).Bound? <==>
              Marks(op) == 0 || RunsOutLast(Marks(op), ps, 0)
  {
    RewriteMarks(Marks(op), op, ps, 0);
  }

  lemma {:induction false} MarksInZero(ps: seq<string>, k: nat)
    requires k <= |ps|
    ensures MarksIn(ps, k) == 0 <==> forall i :: 0 <= i < k ==> Marks(ps[i]) == 0
  {
    if k > 0 { MarksInZero(ps, k - 1); }
  }

  lemma {:induction false} InertIffNoMarks(p: string)
    ensures Inert("?", p) <==> Marks(p) == 0
  {
    if p != [] {
      InertIffNoMarks(p[1..]);
      assert !MayBegin("?", p, 0) <==> p[0] != '?';
      assert forall i :: 0 < i < |p| ==> (MayBegin("?", p, i) <==> MayBegin("?", p[1..], i - 1));
      assert forall i :: 0 <= i < |p[1..]| ==> (MayBegin("?", p[1..], i) <==> MayBegin("?", p, i + 1));
    }
  }

  /** With as many markers as parameters, acceptance means that no parameter holds a question mark. */
  lemma MatchingCount(op: string, ps: seq<string>)
    requires Marks(op) == |ps| > 0
    ensures Rewrite("?", op, ps, 0).Bound? <==> forall i :: 0 <= i < |ps| ==> Inert("?", ps[i])
  {
    QuestionMarksExact(op, ps);
    MarksInZero(ps, |ps|);
    forall i | 0 <= i < |ps| ensures Inert("?", ps[i]) <==> Marks(ps[i]) == 0 { InertIffNoMarks(ps[i]); }
  }
}
