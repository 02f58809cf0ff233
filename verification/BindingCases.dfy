/** Calls of the binding function that do not do what its documentation or its comments say. */
module BindingCases {
  import opened PyString
  import opened Decimal
  import opened Markers
  import opened Numbered
  import opened Weights
  import opened Binding
  import opened Styles
  import opened NumberedCases
  import Escape

  // ----- A wrong number of parameters

  lemma LiteralOf(c: char)
    requires c == '?' || c == 'x'
    ensures Literal(Text([c])) == ['\'', c, '\'']
  {
    Escape.EscapeIsOnePass([c]);
    assert [c][1..] == [];
  }

  lemma TwoLiterals(v: Parameter, w: Parameter)
    ensures Literals([v, w]) == [Literal(v), Literal(w)]
  {
    assert [v, w][..1] == [v] && [v][..0] == [];
    assert Literals([v]) == [Literal(v)];
  }

  lemma SecondIntoFirst(ps: seq<string>)
    requires ps == ["'?'", "'x'"]
    ensures Rewrite("?", "?", ps, 0) == Bound("''x''")
  {
    RewriteStep("?", "", "?", "?", ps, 0, 0, "'?'");
    SealedIsClear("?", "'", "?'");
    RewriteStep("?", "'", "?'", "'?'", ps, 1, 0, "''x''");
    assert Rewrite("?", "''x''", ps, 2) == Bound("''x''") by { SealedFind("?", "''x''"); }
  }

  lemma WrongLiterals(vs: seq<Parameter>)
    requires |vs| == 2 && vs[0] == Text("?") && vs[1] == Text("x")
    ensures Literals(vs) == ["'?'", "'x'"]
  {
    TwoLiterals(vs[0], vs[1]);
    assert vs == [vs[0], vs[1]];
    LiteralOf('?');
    LiteralOf('x');
  }

  lemma OnlyQuestionMarks(op: string, ps: seq<string>, x: string)
    requires Rewrite("?", op, ps, 0) == Bound(x) && Sealed("%s", x) && ':' !in x
    ensures Bind(op, ps) == Bound(x)
  {
    SealedFind("%s", x);
    DescendWithoutColon(x, ps, |ps|);
  }

  lemma BoundSecondIntoFirst(ps: seq<string>)
    requires ps == ["'?'", "'x'"]
    ensures Bind("?", ps) == Bound("''x''")
  {
    SecondIntoFirst(ps);
    OnlyQuestionMarks("?", ps, "''x''");
  }

  /**
    The promised error is not raised here: one marker, two text parameters, and the second
    one replaces the question mark that the first one brought in.
  */
  lemma WrongCountAccepted(vs: seq<Parameter>)
    requires |vs| == 2 && vs[0] == Text("?") && vs[1] == Text("x")
    ensures Marks("?") == 1 < |vs|
    ensures Bind("?", Literals(vs)) == Bound("''x''")
  {
    assert Marks("?") == 1 by { assert "?"[1..] == ""; }
    WrongLiterals(vs);
    BoundSecondIntoFirst(Literals(vs));
  }

  // ----- A number inside a text

  lemma NumberLiteral(vs: seq<Parameter>)
    requires |vs| == 1 && vs[0] == Text(":1")
    ensures Literals(vs) == ["':1'"]
  {
    LiteralsAre(vs);
    Escape.EscapeIsOnePass(":1");
    assert ":1"[1..] == "1" && "1"[1..] == "";
    assert Literal(vs[0]) == "':1'";
  }

  /** The text goes in for the question mark, and again for the number inside it. */
  lemma IntoItself(p: string, ps: seq<string>, y: string)
    requires y == "'" + p + "'" && ps == [p] && |p| == 4 && p[0] == '\'' && p[1] == ':' && p[2] == '1' && p[3] == '\''
    ensures Bind("?", ps) == Bound(y)
  {
    assert p == "?"[..0] + p + "?"[1..];
    RewriteStep("?", "", "?", "?", ps, 0, 0, p);
    assert Sealed("?", p) && Sealed("%s", p);
    SealedFind("?", p);
    SealedFind("%s", p);
    var m := Marker(1);
    assert p == "'" + (m + "'");
    ReplaceSkips("'", m + "'", m, p);
    ReplaceHead(m, "'", p);
    ReplaceSkips("'", "", m, p);
    assert "'" + "" == "'";
    assert Descend(p, ps, 1) == Replace(p, m, p);
  }

  lemma BoundIntoItself(ps: seq<string>)
    requires ps == ["':1'"]
    ensures Bind("?", ps) == Bound("'':1''")
  {
    IntoItself(ps[0], ps, "'':1''");
  }

  /** `?` with the text `:1` does not become the quoted text. */
  lemma NumberInText(vs: seq<Parameter>)
    requires |vs| == 1 && vs[0] == Text(":1")
    ensures Bind("?", Literals(vs)) == Bound("'':1''")
  {
    NumberLiteral(vs);
    BoundIntoItself(Literals(vs));
  }

  // ----- A number put together by the loop

  lemma ColonAndDigit(ps: seq<string>)
    requires |ps| == 2 && ps[1] == [DigitChar(1)] && ':' !in ps[0]
    ensures Descend([':'] + Marker(2), ps, 2) == ps[0]
    ensures Pass([':'] + Marker(2), ps, 0) == [':'] + ps[1]
  {
    ReplaceLast(2, 2, ps[1]);
    ReplaceAtColon(Marker(2), 2, ps[1]);
    assert [':'] + ps[1] == Marker(1);
    DescendOnce([':'] + Marker(2), ps, 2, Marker(1));
    ReplaceLast(1, 1, ps[0]);
    DescendOnce(Marker(1), ps, 1, ps[0]);
    NoNameThere(Marker(2), 2, 2);
    PassAtOther([':'] + Marker(2), ':', Marker(2), ps, 0);
    PassLast(2, ps, 0);
  }

  /** `::2` with the numbers 5 and 1 becomes `5`, because the second one completes a marker of the first. */
  lemma NumberPutTogether(vs: seq<Parameter>, op: string)
    requires |vs| == 2 && vs[0] == Other("5") && vs[1] == Other("1") && op == [':'] + Marker(2)
    ensures op == "::2" && Bind(op, Literals(vs)) == Bound("5") && Pass(op, Literals(vs), 0) == ":1"
  {
    LiteralsAre(vs);
    ColonAndDigit(Literals(vs));
    assert Sealed("?", op) && Sealed("%s", op);
    SealedFind("?", op);
    SealedFind("%s", op);
    NumericStyle(op, Literals(vs));
  }
}
