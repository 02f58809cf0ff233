/** The Python string operations that parameter binding is built from: `find`, `replace` and `split`. */
module PyString {

  /** `m` occurs in `s` at index `j`. */
  predicate At(s: string, m: string, j: nat) {
    j <= |s| && m <= s[j..]
  }

  /** `s.find(m)` */
  function Find(s: string, m: string): (r: int)
    requires m != []
    ensures -1 <= r && (r >= 0 ==> r + |m| <= |s|)
  {
    if m <= s then 0
    else if s == [] then -1
    else
      var r := Find(s[1..], m);
      if r < 0 then -1 else r + 1
  }

  /** The search finds the first occurrence, and fails only if there is none. */
  lemma {:induction false} FindIsFirst(s: string, m: string)
    requires m != []
    ensures Find(s, m) >= 0 ==> At(s, m, Find(s, m))
    ensures forall j :: 0 <= j && (Find(s, m) < 0 || j < Find(s, m)) ==> !At(s, m, j)
    decreases |s|
  {
    assert s[0..] == s;
    if s != [] && !(m <= s) {
      FindIsFirst(s[1..], m);
      AtTail(s, m);
    }
  }

  lemma AtTail(s: string, m: string)
    requires s != []
    ensures forall j :: 0 < j ==> (At(s, m, j) <==> At(s[1..], m, j - 1))
  {
    forall j | 0 < j <= |s| ensures s[j..] == s[1..][j - 1..] { }
  }

  /** `s.replace(m, p)`: every occurrence, from the left, without overlap */
  function Replace(s: string, m: string, p: string): string
    requires m != []
    decreases |s|
  {
    if s == [] then []
    else if m <= s then p + Replace(s[|m|..], m, p)
    else [s[0]] + Replace(s[1..], m, p)
  }

  /** `s.replace(m, p, 1)`: the first occurrence only */
  function ReplaceFirst(s: string, m: string, p: string): string
    requires m != []
  {
    var f := Find(s, m);
    if f < 0 then s else s[..f] + p + s[f + |m|..]
  }

  /** `s.split(m)` */
  function Split(s: string, m: string): (gs: seq<string>)
    requires m != []
    ensures |gs| >= 1
    decreases |s|
  {
    var f := Find(s, m);
    if f < 0 then [s] else [s[..f]] + Split(s[f + |m|..], m)
  }

  /** The texts with one replacement in each gap. */
  function Interleave(gs: seq<string>, ps: seq<string>): string
    requires |gs| == |ps| + 1
    decreases |ps|
  {
    if ps == [] then gs[0] else gs[0] + ps[0] + Interleave(gs[1..], ps[1..])
  }

  /** The texts with the same separator in every gap. */
  function Join(gs: seq<string>, m: string): string
    requires gs != []
  {
    if |gs| == 1 then gs[0] else gs[0] + m + Join(gs[1..], m)
  }

  lemma CutAt(s: string, m: string, f: nat)
    requires At(s, m, f)
    ensures f + |m| <= |s| && s == s[..f] + m + s[f + |m|..]
  {
    assert s[f..][..|m|] == s[f..f + |m|];
  }

  lemma JoinCons(g: string, gs: seq<string>, m: string)
    requires gs != []
    ensures Join([g] + gs, m) == g + m + Join(gs, m)
  {
    assert ([g] + gs)[1..] == gs;
  }

  lemma {:induction false} JoinSnoc(gs: seq<string>, g: string, m: string)
    requires gs != []
    ensures Join(gs + [g], m) == Join(gs, m) + m + g
    decreases |gs|
  {
    if |gs| == 1 {
      JoinCons(gs[0], [g], m);
      assert gs + [g] == [gs[0]] + [g];
    } else {
      JoinSnoc(gs[1..], g, m);
      JoinCons(gs[0], gs[1..] + [g], m);
      assert gs + [g] == [gs[0]] + (gs[1..] + [g]);
    }
  }

  /** Splitting loses nothing. */
  lemma {:induction false} SplitJoin(s: string, m: string)
    requires m != []
    ensures Join(Split(s, m), m) == s
    decreases |s|
  {
    var f := Find(s, m);
    if f >= 0 {
      SplitJoin(s[f + |m|..], m);
      JoinCons(s[..f], Split(s[f + |m|..], m), m);
      FindIsFirst(s, m);
      CutAt(s, m, f);
    }
  }

  // ----- Occurrences of a pattern

  /** The number of places at which `m` begins in `x`. */
  function Occurrences(x: string, m: string): nat {
    if x == [] then 0 else (if m <= x then 1 else 0) + Occurrences(x[1..], m)
  }

  lemma OccurrencesCons(c: char, x: string, m: string)
    ensures Occurrences([c] + x, m) == (if m <= [c] + x then 1 else 0) + Occurrences(x, m)
  {
    assert ([c] + x)[1..] == x;
  }

  lemma {:induction false} OccurrencesBehind(u: string, x: string, m: string)
    ensures Occurrences(u + x, m) >= Occurrences(x, m)
  {
    if u == [] {
      assert u + x == x;
    } else {
      OccurrencesBehind(u[1..], x, m);
      assert u + x == [u[0]] + (u[1..] + x);
      OccurrencesCons(u[0], u[1..] + x, m);
    }
  }

  lemma AddsNothing(u: string, x: string)
    requires u == []
    ensures u + x == x
  {
  }

  /** A search fails exactly if there is no occurrence. */
  lemma {:induction false} NoOccurrence(s: string, m: string)
    requires m != []
    ensures Occurrences(s, m) == 0 <==> Find(s, m) < 0
  {
    if s != [] { NoOccurrence(s[1..], m); }
  }

  /** Behind a text in which no occurrence begins the search goes on as if the rest stood alone. */
  lemma {:induction false} FindBehind(u: string, x: string, m: string)
    requires m != [] && Occurrences(u + x, m) == Occurrences(x, m)
    ensures var f := Find(x, m); Find(u + x, m) == if f < 0 then -1 else |u| + f
  {
    if u == [] {
      assert u + x == x;
    } else {
      var y := u[1..] + x;
      assert u + x == [u[0]] + y && ([u[0]] + y)[1..] == y;
      OccurrencesCons(u[0], y, m);
      OccurrencesBehind(u[1..], x, m);
      FindBehind(u[1..], x, m);
    }
  }

  /** No occurrence begins before the first one. */
  lemma {:induction false} NoneBeforeFind(s: string, m: string)
    requires m != [] && Find(s, m) >= 0
    ensures Occurrences(s, m) == Occurrences(s[Find(s, m)..], m)
    decreases |s|
  {
    if !(m <= s) {
      NoneBeforeFind(s[1..], m);
      assert s[Find(s, m)..] == s[1..][Find(s[1..], m)..];
    }
  }
}
