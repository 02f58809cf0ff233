/**
  What success means for a template bracket: between `<` and the `>` that closes it the
  hard brackets are balanced, and no statement ends at the level of the template list.
*/
module Templates {
  import opened Options
  import opened Brackets
  import opened Scanner
  import opened Matching

  /** The reference machine, refusing a semicolon outside all hard brackets. */
  function ListStep(h: string, c: char): Option<string> {
    if c == ';' && h == [] then None else Step(h, c)
  }

  function ListRun(h: string, w: string): Option<string>
    decreases |w|
  {
    if w == [] then Some(h) else
    match ListStep(h, w[0])
    case None => None
    case Some(t) => ListRun(t, w[1..])
  }

  lemma {:induction false} ListRunConcat(h: string, u: string, v: string)
    ensures ListRun(h, u + v) == match ListRun(h, u) case None => None case Some(t) => ListRun(t, v)
    decreases |u|
  {
    if u == [] {
      assert u + v == v;
    } else {
      assert (u + v)[1..] == u[1..] + v;
      match ListStep(h, u[0])
      case None =>
      case Some(t) => ListRunConcat(t, u[1..], v);
    }
  }

  lemma {:induction false} ListRunIsRun(h: string, w: string)
    requires ListRun(h, w).Some?
    ensures Run(h, w) == ListRun(h, w)
    ensures forall k :: 0 <= k < |w| && w[k] == ';' ==> Run(h, w[..k]) != Some("")
    decreases |w|
  {
    if w != [] {
      var t := ListStep(h, w[0]).value;
      ListRunIsRun(t, w[1..]);
      forall k | 0 < k < |w| && w[k] == ';' ensures Run(h, w[..k]) != Some("") {
        assert w[..k][1..] == w[1..][..k - 1] && w[1..][k - 1] == ';';
      }
    }
  }

  /** A template bracket is at the bottom of the stack. */
  predicate TemplateBased(stack: string) {
    stack != [] && stack[0] == '<'
  }

  lemma TemplateMatch(stack: string, c: char, end: nat)
    requires TemplateBased(stack) && IsCloser(c)
    ensures match MatchTop(stack, c, '<', end)
            case Next(s) => TemplateBased(s) && Step(Hard(stack, '<'), c) == Some(Hard(s, '<'))
            case Halt(r) => r == Dead
  {
    HardDropTop(stack, '<');
    var t := DropTop(stack, '<');
    FlipInjective(Hard(stack, '<'), c);
    if t != [] { assert Hard(t, '<') == Hard(t[..|t| - 1], '<') + [t[|t| - 1]]; }
  }

  lemma TemplatePop(stack: string, empty: Scan)
    requires TemplateBased(stack)
    ensures match PopSoft(stack, '<', empty)
            case Next(s) => TemplateBased(s) && Hard(s, '<') == Hard(stack, '<')
            case Halt(r) => r == empty && Hard(stack, '<') == []
  {
  }

  lemma TemplateStatement(stack: string)
    requires TemplateBased(stack)
    ensures match EndStatement(stack, '<')
            case Next(s) => TemplateBased(s) && Hard(s, '<') == Hard(stack, '<') != []
            case Halt(r) => r == Dead
  {
    HardDropTop(stack, '<');
  }

  lemma TemplateMove(line: string, i: nat, stack: string)
    requires i < |line| && TemplateBased(stack)
    ensures match ForwardMove(line, i, stack)
            case Next(s) => TemplateBased(s) && ListStep(Hard(stack, '<'), line[i]) == Some(Hard(s, '<'))
            case Halt(r) => r == Dead || (r == Found(i + 1) && line[i] == '>' && Hard(stack, '<') == [])
  {
    if IsOpener(line[i]) {
      HardPush(stack, line[i], '<');
    } else if IsCloser(line[i]) {
      TemplateMatch(stack, line[i], i + 1);
    } else {
      TemplatePop(stack, Dead);
      TemplatePop(stack, Found(i + 1));
      TemplateStatement(stack);
      HardPush(stack, '<', '<');
    }
  }

  lemma ListRunCons(h: string, line: string, i: nat, e: nat, t: string)
    requires i < e <= |line| && ListStep(h, line[i]) == Some(t)
    ensures ListRun(h, line[i..e]) == ListRun(t, line[i + 1..e])
  {
    assert line[i..e][1..] == line[i + 1..e];
  }

  /** What one line, scanned from `i` with the hard brackets `h` open, establishes. */
  ghost predicate ListLine(line: string, i: nat, h: string, r: Scan)
    requires i <= |line|
  {
    match r
    case Found(e) => i < e <= |line| && line[e - 1] == '>' && ListRun(h, line[i..e - 1]) == Some("")
    case Dead => true
    case Open(s) => TemplateBased(s) && ListRun(h, line[i..|line|]) == Some(Hard(s, '<'))
  }

  lemma ListLineCons(line: string, i: nat, h: string, t: string, r: Scan)
    requires i < |line| && ListStep(h, line[i]) == Some(t) && ListLine(line, i + 1, t, r)
    ensures ListLine(line, i, h, r)
  {
    match r
    case Found(e) => ListRunCons(h, line, i, e - 1, t);
    case Dead =>
    case Open(s) => ListRunCons(h, line, i, |line|, t);
  }

  lemma {:induction false} TemplateLine(line: string, i: nat, stack: string)
    requires i <= |line| && TemplateBased(stack)
    ensures ListLine(line, i, Hard(stack, '<'), ForwardLine(line, i, stack))
    decreases |line| - i
  {
    if i < |line| {
      TemplateMove(line, i, stack);
      match ForwardMove(line, i, stack)
      case Next(s) =>
        TemplateLine(line, i + 1, s);
        ListLineCons(line, i, Hard(stack, '<'), Hard(s, '<'), ForwardLine(line, i + 1, s));
      case Halt(_) =>
    }
  }

  /** A place that ends a template list begun `a` characters into the text, with `h` open at index `a`. */
  ghost predicate EndsList(lines: seq<string>, p: Place, h: string, a: nat) {
    && PastText(lines, p)
    && a < Index(lines, p) <= |Text(lines)|
    && Text(lines)[Index(lines, p) - 1] == '>'
    && ListRun(h, Text(lines)[a..Index(lines, p) - 1]) == Some("")
  }

  lemma SliceAcross(x: string, a: nat, b: nat, e: nat, u: string)
    requires a <= b <= e <= |x| && b == a + |u| && u <= x[a..]
    ensures x[a..e] == u + x[b..e]
  {
    assert x[a..b] == x[a..][..b - a] == u;
  }

  /** One scanned line, followed by whatever the rest of the scan establishes. */
  lemma EndsListLater(lines: seq<string>, p: Place, h: string, l: nat, i: nat, t: string)
    requires l < |lines| && i <= |lines[l]|
    requires ListRun(h, lines[l][i..|lines[l]|]) == Some(t)
    requires EndsList(lines, p, t, Offset(lines, l + 1))
    ensures EndsList(lines, p, h, Offset(lines, l) + i)
  {
    var x, a, b, e := Text(lines), Offset(lines, l) + i, Offset(lines, l + 1), Index(lines, p) - 1;
    TextAt(lines, l, i);
    assert b == a + |lines[l][i..]|;
    assert lines[l][i..|lines[l]|] == lines[l][i..];
    SliceAcross(x, a, b, e, lines[l][i..]);
    ListRunConcat(h, lines[l][i..], x[b..e]);
  }

  lemma EndsListHere(lines: seq<string>, h: string, l: nat, i: nat, e: nat)
    requires l < |lines| && i < e <= |lines[l]| && lines[l][e - 1] == '>'
    requires ListRun(h, lines[l][i..e - 1]) == Some("")
    ensures EndsList(lines, Place(l, e), h, Offset(lines, l) + i)
  {
    var x, o := Text(lines), Offset(lines, l);
    TextAt(lines, l, 0);
    assert lines[l][0..] == lines[l];
    TextAt(lines, l, e - 1);
    TextAt(lines, l, e);
    assert x[o + i..o + e - 1] == x[o..][i..e - 1] == lines[l][i..e - 1];
  }

  /** What comes of a match, once line `l` has been scanned from `i` with result `r`. */
  lemma {:induction false} TemplateAfter(lines: seq<string>, l: nat, i: nat, r: Scan, h: string)
    requires l < |lines| && i <= |lines[l]| && ListLine(lines[l], i, h, r)
    ensures var p := CloseAfter(lines, l, r); p.Some? ==> EndsList(lines, p.value, h, Offset(lines, l) + i)
    decreases |lines| - l, 0
  {
    match r
    case Found(e) => EndsListHere(lines, h, l, i, e);
    case Dead =>
    case Open(s) =>
      TemplateRest(lines, l + 1, s);
      var p := CloseRest(lines, l + 1, s);
      if p.Some? { EndsListLater(lines, p.value, h, l, i, Hard(s, '<')); }
  }

  lemma {:induction false} TemplateRest(lines: seq<string>, l: nat, stack: string)
    requires l <= |lines| && TemplateBased(stack)
    ensures var p := CloseRest(lines, l, stack);
            p.Some? ==> EndsList(lines, p.value, Hard(stack, '<'), Offset(lines, l))
    decreases |lines| - l, 1
  {
    if l < |lines| {
      TemplateLine(lines[l], 0, stack);
      TemplateAfter(lines, l, 0, ForwardLine(lines[l], 0, stack), Hard(stack, '<'));
    }
  }

  /** A `<` that the scanner takes for the start of a template list. */
  predicate StartsList(line: string, pos: nat)
    requires pos < |line|
  {
    line[pos] == '<' && !(pos > 0 && (line[pos - 1] == '<' || EndsWithOperator(line[..pos])))
  }

  lemma ListLineStart(line: string, pos: nat)
    requires pos < |line| && StartsList(line, pos)
    ensures ForwardLine(line, pos, "") == ForwardLine(line, pos + 1, "<")
    ensures ListLine(line, pos + 1, "", ForwardLine(line, pos + 1, "<"))
  {
    assert "" + "<" == "<";
    TemplateLine(line, pos + 1, "<");
    assert Hard("<", '<') == "";
  }

  /** A matched template list ends with `>`, is balanced inside and holds no statement at its own level. */
  lemma CloseTemplate(lines: seq<string>, at: Place)
    requires OnText(lines, at) && StartsList(lines[at.line], at.pos) && Close(lines, at).Some?
    ensures var t, a, e := Text(lines), Index(lines, at), Close(lines, at).value;
            && PastText(lines, e)
            && a + 1 < Index(lines, e) <= |t|
            && t[Index(lines, e) - 1] == '>'
            && BalancedList(t[a + 1..Index(lines, e) - 1])
  {
    var e := Close(lines, at).value;
    ListLineStart(lines[at.line], at.pos);
    TemplateAfter(lines, at.line, at.pos + 1, ForwardLine(lines[at.line], at.pos, ""), "");
    assert EndsList(lines, e, "", Index(lines, at) + 1);
    InsideList(Text(lines)[Index(lines, at) + 1..Index(lines, e) - 1]);
  }

  /** Balanced, and every semicolon stands inside some hard brackets. */
  ghost predicate BalancedList(inside: string) {
    Balanced(inside) && forall k :: 0 <= k < |inside| && inside[k] == ';' ==> !Balanced(inside[..k])
  }

  lemma InsideList(inside: string)
    requires ListRun("", inside) == Some("")
    ensures BalancedList(inside)
  {
    ListRunIsRun("", inside);
    BalancedIffRun(inside);
    forall k | 0 <= k < |inside| && inside[k] == ';' ensures !Balanced(inside[..k]) {
      BalancedIffRun(inside[..k]);
    }
  }
}
