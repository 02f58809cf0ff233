/**
  Binding a list of parameters: literals, then question marks, then `%s`, then numbers, each
  pass over the output of the one before (python/hs2client/dbapi.py), and exactly when the
  later passes leave a finished statement alone.
*/
module Binding {
  import opened Options
  import opened PyString
  import opened Decimal
  import opened Markers
  import opened Numbered
  import opened Weights
  import opened NumberedLoop
  import Escape

  /** A parameter: missing, a text, or anything else with the text that `str` gives it. */
  datatype Parameter = Null | Text(s: string) | Other(str: string)

  function Literal(v: Parameter): string {
    match v
    case Null => "NULL"
    case Text(s) => "'" + Escape.Escape(s) + "'"
    case Other(t) => t
  }

  function Literals(vs: seq<Parameter>): (ls: seq<string>)
    ensures |ls| == |vs|
  {
    if vs == [] then [] else Literals(vs[..|vs| - 1]) + [Literal(vs[|vs| - 1])]
  }

  function Bind(op: string, ps: seq<string>): Result {
    match Rewrite("?", op, ps, 0)
    case ProgrammingError(u, s) => ProgrammingError(u, s)
    case Bound(t) =>
      match Rewrite("%s", t, ps, 0)
      case ProgrammingError(u, s) => ProgrammingError(u, s)
      case Bound(x) => Bound(Descend(x, ps, |ps|))
  }

  method ReplaceNumericMarkers(operation: string, parameters: seq<string>) returns (r: Result)
    ensures r == Bind(operation, parameters)
  {
    r := ReplaceMarkers("?", operation, parameters);
    if r.ProgrammingError? { return; }
    r := ReplaceMarkers("%s", r.text, parameters);
    if r.ProgrammingError? { return; }
    var op := ReplaceNumbered(r.text, parameters);
    return Bound(op);
  }

  /**
    A literal as a reader of the statement takes it: for a text, a quote, then characters that
    stand for the text and end exactly at the last quote, whatever follows in the statement.
  */
  ghost predicate ReadsAs(l: string, v: Parameter) {
    match v
    case Null => l == "NULL"
    case Text(s) =>
      && |l| >= 2 && l[0] == l[|l| - 1] == '\''
      && Escape.Unescape(l[1..|l| - 1]) == s
      && forall after: string :: Escape.LiteralEnd(l[1..] + after) == Some(|l| - 2)
    case Other(t) => l == t
  }

  ghost predicate AllReadAs(ls: seq<string>, values: seq<Parameter>) {
    |ls| == |values| && forall i :: 0 <= i < |ls| ==> ReadsAs(ls[i], values[i])
  }

  lemma TextReads(s: string, l: string)
    requires l == "'" + Escape.Escape(s) + "'"
    ensures ReadsAs(l, Text(s))
  {
    var e := Escape.Escape(s);
    assert l[1..|l| - 1] == e && l[1..] == e + "'";
    Escape.RoundTrip(s);
    forall after: string ensures Escape.LiteralEnd(l[1..] + after) == Some(|l| - 2) {
      Escape.LiteralEndsAtAddedQuote(s, after);
      assert l[1..] + after == e + "'" + after;
    }
  }

  lemma {:induction false} LiteralsRead(vs: seq<Parameter>)
    ensures AllReadAs(Literals(vs), vs)
  {
    LiteralsAre(vs);
    forall i | 0 <= i < |vs| ensures ReadsAs(Literals(vs)[i], vs[i]) {
      if vs[i].Text? { TextReads(vs[i].s, Literal(vs[i])); }
    }
  }

  method BindParametersList(operation: string, values: seq<Parameter>) returns (r: Result)
    ensures r == Bind(operation, Literals(values))
    ensures AllReadAs(Literals(values), values)
    ensures |Split(operation, "?")| == |values| + 1 ==>
              exists ls: seq<string> :: AllReadAs(ls, values) && BecomesIntended(operation, ls, r)
  {
    LiteralsRead(values);
    r := BindLiterals(operation, values);
    if |Split(operation, "?")| == |values| + 1 {
      QuestionStyle(operation, Literals(values));
      assert BecomesIntended(operation, Literals(values), r);
    }
  }

  /** The statement has the literals in its gaps, unless that text holds a marker. */
  ghost predicate BecomesIntended(op: string, ls: seq<string>, r: Result) {
    && |Split(op, "?")| == |ls| + 1
    && var x := Interleave(Split(op, "?"), ls);
       Find(x, "?") < 0 && Settled(x, |ls|) ==> r == Bound(x)
  }

  method BindLiterals(operation: string, values: seq<Parameter>) returns (r: Result)
    ensures r == Bind(operation, Literals(values))
  {
    var texts: seq<string> := [];
    for i := 0 to |values|
      invariant texts == Literals(values[..i])
    {
      assert values[..i + 1][..i] == values[..i];
      match values[i] {
        case Null => texts := texts + ["NULL"];
        case Text(s) => texts := texts + ["'" + Escape.Escape(s) + "'"];
        case Other(t) => texts := texts + [t];
      }
    }
    assert values[..|values|] == values;
    r := ReplaceNumericMarkers(operation, texts);
  }

  // ----- Statements in one style

  /** A finished statement that the later passes leave alone. */
  predicate Settled(x: string, n: nat) {
    Find(x, "%s") < 0 && NoNumber(x, n)
  }

  lemma SettledStays(x: string, ps: seq<string>)
    requires Settled(x, |ps|)
    ensures Rewrite("%s", x, ps, 0) == Bound(x) && Descend(x, ps, |ps|) == x
  {
    DescendAbsent(x, ps, |ps|);
  }

  /** Otherwise it does not come out again, since no later replacement can undo the first one. */
  lemma UnsettledMoves(x: string, ps: seq<string>)
    requires AllKeep(ps) && !Settled(x, |ps|)
    ensures var r := Rewrite("%s", x, ps, 0); r.Bound? ==> Descend(r.text, ps, |ps|) != x
  {
    var r := Rewrite("%s", x, ps, 0);
    if r.Bound? {
      MarkersAreLight(1);
      RewriteMoves("%s", x, ps, 0);
      DescendMoves(r.text, ps, |ps|);
    }
  }

  /** The statement with the parameters in the gaps between its markers. */
  function Intended(m: string, op: string, ps: seq<string>): string
    requires m != [] && |Split(op, m)| == |ps| + 1
  {
    Interleave(Split(op, m), ps)
  }

  lemma PositionalExact(m: string, op: string, ps: seq<string>, x: string)
    requires IsMarker(m) && |Split(op, m)| == |ps| + 1 && x == Intended(m, op, ps)
    ensures var r := Rewrite(m, op, ps, 0); if Find(x, m) < 0 then r == Bound(x) else r.ProgrammingError?
  {
    PositionalMarkers(m, op, ps);
    assert ps[..|ps|] == ps;
  }

  /**
    A statement with as many question marks as parameters becomes the statement with the
    parameters in its gaps if and only if that text holds no marker of any kind.
  */
  lemma QuestionStyle(op: string, ps: seq<string>)
    requires |Split(op, "?")| == |ps| + 1
    ensures var x := Intended("?", op, ps);
            && (Find(x, "?") < 0 && Settled(x, |ps|) ==> Bind(op, ps) == Bound(x))
            && (Bind(op, ps) == Bound(x) && AllKeep(ps) ==> Find(x, "?") < 0 && Settled(x, |ps|))
  {
    var x := Intended("?", op, ps);
    PositionalExact("?", op, ps, x);
    if Settled(x, |ps|) { SettledStays(x, ps); } else if AllKeep(ps) { UnsettledMoves(x, ps); }
  }

  /** The same for `%s` in a statement without question marks; a parameter may hold one. */
  lemma FormatStyle(op: string, ps: seq<string>)
    requires Find(op, "?") < 0 && |Split(op, "%s")| == |ps| + 1
    ensures var x := Intended("%s", op, ps);
            && (Settled(x, |ps|) ==> Bind(op, ps) == Bound(x))
            && (Bind(op, ps) == Bound(x) && AllKeep(ps) ==> Settled(x, |ps|))
  {
    var x := Intended("%s", op, ps);
    PositionalExact("%s", op, ps, x);
    assert Rewrite("?", op, ps, 0) == Bound(op);
    if NoNumber(x, |ps|) { DescendAbsent(x, ps, |ps|); } else if AllKeep(ps) { DescendMoves(x, ps, |ps|); }
  }

  /** A statement without these markers is that of the third pass. */
  lemma NumericStyle(op: string, ps: seq<string>)
    requires Find(op, "?") < 0 && Find(op, "%s") < 0
    ensures Bind(op, ps) == Bound(Descend(op, ps, |ps|))
  {
  }

  // ----- Which parameters cannot undo a replacement

  lemma {:induction false} LiteralsAre(vs: seq<Parameter>)
    ensures forall i :: 0 <= i < |vs| ==> Literals(vs)[i] == Literal(vs[i])
  {
    if vs != [] { LiteralsAre(vs[..|vs| - 1]); }
  }

  /** Missing values, texts and integers. */
  lemma LiteralKeeps(v: Parameter, n: int)
    requires v.Other? ==> v.str == IntText(n)
    ensures Keeps(Literal(v))
    ensures !v.Other? ==> Count(Literal(v), true) > 0 && !IsDigit(Literal(v)[0])
  {
    var p := Literal(v);
    match v
    case Null => CountHas(p, 'N', true);
    case Text(s) => assert p[0] == '\''; CountHas(p, '\'', true);
    case Other(t) =>
      if n < 0 { CountHas(p, '-', true); } else { CountDigits(p, false); }
  }

  ghost predicate TextsAndIntegers(vs: seq<Parameter>) {
    forall i :: 0 <= i < |vs| && vs[i].Other? ==> exists n :: vs[i].str == IntText(n)
  }

  lemma LiteralsKeep(vs: seq<Parameter>)
    requires TextsAndIntegers(vs)
    ensures AllKeep(Literals(vs))
  {
    LiteralsAre(vs);
    forall i | 0 <= i < |vs| ensures Keeps(Literals(vs)[i]) {
      if vs[i].Other? {
        var n :| vs[i].str == IntText(n);
        LiteralKeeps(vs[i], n);
      } else {
        LiteralKeeps(vs[i], 0);
      }
    }
  }

  /** For values that are missing, texts or integers the condition is exact. */
  lemma QuestionStyleExact(op: string, vs: seq<Parameter>)
    requires TextsAndIntegers(vs) && |Split(op, "?")| == |vs| + 1
    ensures var x := Intended("?", op, Literals(vs));
            Bind(op, Literals(vs)) == Bound(x) <==> Find(x, "?") < 0 && Settled(x, |vs|)
  {
    LiteralsKeep(vs);
    QuestionStyle(op, Literals(vs));
  }

  lemma FormatStyleExact(op: string, vs: seq<Parameter>)
    requires TextsAndIntegers(vs) && Find(op, "?") < 0 && |Split(op, "%s")| == |vs| + 1
    ensures var x := Intended("%s", op, Literals(vs));
            Bind(op, Literals(vs)) == Bound(x) <==> Settled(x, |vs|)
  {
    LiteralsKeep(vs);
    FormatStyle(op, Literals(vs));
  }

  // ----- One parameter

  lemma OneGap(u: string, v: string)
    requires Find(u, "?") < 0 && Find(v, "?") < 0
    ensures Split(u + "?" + v, "?") == [u, v]
  {
    var op := u + "?" + v;
    NoOccurrence(u, "?");
    OneFound(u, v);
    assert op[..|u|] == u && op[|u| + 1..] == v;
  }

  lemma {:induction false} OneFound(u: string, v: string)
    requires Find(u, "?") < 0
    ensures Find(u + "?" + v, "?") == |u|
  {
    var op := u + "?" + v;
    if u == [] {
      assert "?" <= op;
    } else {
      assert op[1..] == u[1..] + "?" + v && op[0] == u[0];
      OneFound(u[1..], v);
      assert "?" <= op <==> op[0] == '?';
      assert "?" <= u <==> u[0] == '?';
    }
  }

  lemma OneLiteral(v: string, l: string, s: string, e: string)
    requires ReadsAs(l, Text(s)) && e == l[1..|l| - 1]
    ensures l == "'" + e + "'" && Escape.Unescape(e) == s && Escape.LiteralEnd(e + "'" + v) == Some(|e|)
  {
    assert l[1..] == e + "'";
    assert Escape.LiteralEnd(l[1..] + v) == Some(|l| - 2);
  }

  lemma OneInterleaved(u: string, v: string, l: string, e: string)
    requires l == "'" + e + "'"
    ensures Interleave([u, v], [l]) == u + "'" + e + "'" + v
  {
    var gs, ps := [u, v], [l];
    assert gs[1..] == [v] && ps[1..] == [];
    assert Interleave([v], []) == v;
    assert u + l + v == u + "'" + e + "'" + v;
  }

  /** A statement with one question mark and one text: the text stands there as a literal that reads back. */
  method BindOneText(u: string, v: string, s: string) returns (r: Result, ghost e: string)
    requires Find(u, "?") < 0 && Find(v, "?") < 0
    ensures Escape.Unescape(e) == s && Escape.LiteralEnd(e + "'" + v) == Some(|e|)
    ensures var x := u + "'" + e + "'" + v; Find(x, "?") < 0 && Settled(x, 1) ==> r == Bound(x)
  {
    var op, values := u + "?" + v, [Text(s)];
    r := BindParametersList(op, values);
    ghost var ls := Literals(values);
    assert ReadsAs(ls[0], Text(s));
    e := ls[0][1..|ls[0]| - 1];
    OneLiteral(v, ls[0], s, e);
    OneInterleaved(u, v, ls[0], e);
    assert Split(op, "?") == [u, v] by { OneGap(u, v); }
    assert ls == [ls[0]];
    QuestionStyle(op, ls);
  }
}
