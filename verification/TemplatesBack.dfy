/**
  The counterpart of module Templates for the backward scan: what success means from a `>`.
*/
module TemplatesBack {
  import opened Options
  import opened Brackets
  import opened Scanner
  import opened Matching
  import opened Templates

  /** A template bracket is at the bottom of the stack of a backward scan. */
  predicate BackBased(stack: string) {
    stack != [] && stack[0] == '>' && NoOpeners(stack)
  }

  /** The hard brackets that the backward scan is waiting for. */
  function Awaited(stack: string): string {
    FlipAll(Hard(stack, '>'))
  }

  lemma BackMatch(stack: string, c: char, start: nat)
    requires BackBased(stack) && IsOpener(c)
    ensures match MatchTop(stack, c, '>', start)
            case Next(s) => BackBased(s) && Step(Awaited(stack), Flip(c)) == Some(Awaited(s))
            case Halt(r) => r == Dead
  {
    var t, h := DropTop(stack, '>'), Hard(stack, '>');
    HardDropTop(stack, '>');
    HardNoOpeners(stack, '>');
    FlippedPop(h, c);
    if t != [] { assert h == Hard(t[..|t| - 1], '>') + [t[|t| - 1]]; }
  }

  lemma BackPop(stack: string, empty: Scan)
    requires BackBased(stack)
    ensures match PopSoft(stack, '>', empty)
            case Next(s) => BackBased(s) && Hard(s, '>') == Hard(stack, '>')
            case Halt(r) => r == empty && Hard(stack, '>') == []
  {
  }

  lemma BackStatement(stack: string)
    requires BackBased(stack)
    ensures match EndStatement(stack, '>')
            case Next(s) => BackBased(s) && Hard(s, '>') == Hard(stack, '>') != []
            case Halt(r) => r == Dead
  {
    HardDropTop(stack, '>');
  }

  lemma BackPush(stack: string, c: char)
    requires BackBased(stack) && !IsOpener(c)
    ensures BackBased(stack + [c])
    ensures Awaited(stack + [c]) == if c == '>' then Awaited(stack) else Awaited(stack) + [Flip(c)]
  {
    HardPush(stack, c, '>');
    assert FlipAll(Hard(stack, '>') + [c]) == Awaited(stack) + [Flip(c)];
  }

  lemma BackMove(line: string, i: nat, stack: string)
    requires i < |line| && BackBased(stack)
    ensures match BackwardMove(line, i, stack)
            case Next(s) => BackBased(s) && ListStep(Awaited(stack), Flip(line[i])) == Some(Awaited(s))
            case Halt(r) => r == Dead || (r == Found(i) && line[i] == '<' && Hard(stack, '>') == [])
  {
    var c := line[i];
    if IsCloser(c) {
      BackPush(stack, c);
    } else if IsOpener(c) {
      BackMatch(stack, c, i);
    } else {
      BackSoftMove(line, i, stack);
    }
  }

  lemma BackSoftMove(line: string, i: nat, stack: string)
    requires i < |line| && BackBased(stack) && IsPlain(line[i])
    ensures match BackwardMove(line, i, stack)
            case Next(s) => BackBased(s) && Awaited(s) == Awaited(stack) && (line[i] == ';' ==> Awaited(stack) != "")
            case Halt(r) => r == Dead || (r == Found(i) && line[i] == '<' && Hard(stack, '>') == [])
  {
    BackPop(stack, Found(i));
    BackStatement(stack);
    BackPush(stack, '>');
  }

  /** What one line, scanned backward from `n` with `h` awaited, establishes. */
  ghost predicate ListBack(line: string, n: nat, h: string, r: Scan)
    requires n <= |line|
  {
    match r
    case Found(p) => p < n && line[p] == '<' && ListRun(h, Mirror(line[p + 1..n])) == Some("")
    case Dead => true
    case Open(s) => BackBased(s) && ListRun(h, Mirror(line[..n])) == Some(Awaited(s))
  }

  lemma MirrorSlice(line: string, p: nat, n: nat)
    requires p < n <= |line|
    ensures Mirror(line[p..n]) == [Flip(line[n - 1])] + Mirror(line[p..n - 1])
  {
    var u := line[p..];
    assert u[..n - p] == line[p..n] && u[..n - p - 1] == line[p..n - 1];
    MirrorLast(u, n - p);
  }

  lemma ListRunStep(h: string, c: char, w: string, t: string)
    requires ListStep(h, c) == Some(t)
    ensures ListRun(h, [c] + w) == ListRun(t, w)
  {
    assert ([c] + w)[1..] == w;
  }

  lemma ListBackCons(line: string, n: nat, h: string, t: string, r: Scan)
    requires 0 < n <= |line| && ListStep(h, Flip(line[n - 1])) == Some(t) && ListBack(line, n - 1, t, r)
    ensures ListBack(line, n, h, r)
  {
    var c := Flip(line[n - 1]);
    match r
    case Found(p) =>
      MirrorSlice(line, p + 1, n);
      ListRunStep(h, c, Mirror(line[p + 1..n - 1]), t);
    case Dead =>
    case Open(s) =>
      MirrorLast(line, n);
      ListRunStep(h, c, Mirror(line[..n - 1]), t);
  }

  lemma SkippedIsNoStatement(line: string, i: nat)
    requires i < |line| && SkipsBefore(line, i)
    ensures IsPlain(line[i - 1]) && line[i - 1] != ';'
  {
    SkippedIsPlain(line, i);
    if EndsWithOperator(line[..i]) { OperatorEnd(line[..i]); }
  }

  lemma OperatorEnd(s: string)
    requires EndsWithOperator(s)
    ensures s != [] && s[|s| - 1] != ';'
  {
    var t := TrimRight(s);
    if !IsSpace(s[|s| - 1]) {
      assert t == s;
      assert s[|s| - 8..][7] == "operator"[7];
    }
  }

  lemma BackSkip(line: string, n: nat, h: string, r: Scan)
    requires 0 < n <= |line| && ListBack(line, if SkipsBefore(line, n - 1) then n - 2 else n - 1, h, r)
    ensures ListBack(line, n - 1, h, r)
  {
    if SkipsBefore(line, n - 1) {
      SkippedIsNoStatement(line, n - 1);
      ListBackCons(line, n - 1, h, h, r);
    }
  }

  lemma BackHalt(line: string, n: nat, stack: string, r: Scan)
    requires 0 < n <= |line| && (r == Dead || (r == Found(n - 1) && line[n - 1] == '<' && Hard(stack, '>') == []))
    ensures ListBack(line, n, Awaited(stack), r)
  {
    assert line[n..n] == "" && Mirror("") == "";
    if r.Found? { assert Awaited(stack) == ""; }
  }

  lemma {:induction false} BackLine(line: string, n: nat, stack: string)
    requires n <= |line| && BackBased(stack)
    ensures ListBack(line, n, Awaited(stack), BackwardLine(line, n, stack))
    decreases n
  {
    if n > 0 {
      var m, r := BackwardMove(line, n - 1, stack), BackwardLine(line, n, stack);
      BackMove(line, n - 1, stack);
      if m.Next? {
        BackLine(line, if SkipsBefore(line, n - 1) then n - 2 else n - 1, m.stack);
        BackSkip(line, n, Awaited(m.stack), r);
        ListBackCons(line, n, Awaited(stack), Awaited(m.stack), r);
      } else {
        BackHalt(line, n, stack, r);
      }
    } else {
      assert line[..0] == "";
    }
  }

  // ----- Across lines

  /** A place that starts a template list, read backward from index `b` with `h` awaited. */
  ghost predicate StartsListAt(lines: seq<string>, p: Place, h: string, b: nat) {
    && OnText(lines, p) && Index(lines, p) < b <= |Text(lines)|
    && Text(lines)[Index(lines, p)] == '<'
    && ListRun(h, Mirror(Text(lines)[Index(lines, p) + 1..b])) == Some("")
  }

  lemma StartsHere(lines: seq<string>, h: string, l: nat, p: nat, n: nat)
    requires l < |lines| && p < n <= |lines[l]| && lines[l][p] == '<'
    requires ListRun(h, Mirror(lines[l][p + 1..n])) == Some("")
    ensures StartsListAt(lines, Place(l, p), h, Offset(lines, l) + n)
  {
    var x, o := Text(lines), Offset(lines, l);
    TextAt(lines, l, p);
    TextAt(lines, l, n);
    TextAt(lines, l, 0);
    assert lines[l][0..] == lines[l];
    assert x[o + p + 1..o + n] == x[o..][p + 1..n] == lines[l][p + 1..n];
  }

  lemma SliceBefore(x: string, a: nat, b: nat, n: nat, u: string, v: string)
    requires a <= b == |u| && n == |v| && b + n <= |x| && x[..b + n] == u + v
    ensures x[a..b + n] == x[a..b] + v
  {
    assert x[b..b + n] == x[..b + n][b..] == v;
    assert x[a..b + n] == x[a..b] + x[b..b + n];
  }

  lemma StartsEarlier(lines: seq<string>, p: Place, h: string, l: nat, n: nat, t: string)
    requires l < |lines| && n <= |lines[l]| && ListRun(h, Mirror(lines[l][..n])) == Some(t)
    requires StartsListAt(lines, p, t, Offset(lines, l))
    ensures StartsListAt(lines, p, h, Offset(lines, l) + n)
  {
    var x, a, b := Text(lines), Index(lines, p) + 1, Offset(lines, l);
    assert b + n <= |x| && x[a..b + n] == x[a..b] + lines[l][..n] by {
      TextAt(lines, l, n);
      SliceBefore(x, a, b, n, Text(lines[..l]), lines[l][..n]);
      TextSplit(lines, l);
    }
    assert ListRun(h, Mirror(x[a..b + n])) == Some("") by {
      MirrorConcat(x[a..b], lines[l][..n]);
      ListRunConcat(h, Mirror(lines[l][..n]), Mirror(x[a..b]));
    }
  }

  lemma {:induction false} BackAfter(lines: seq<string>, l: nat, n: nat, r: Scan, h: string)
    requires l < |lines| && n <= |lines[l]| && ListBack(lines[l], n, h, r)
    ensures var p := ReverseAfter(lines, l, r); p.Some? ==> StartsListAt(lines, p.value, h, Offset(lines, l) + n)
    decreases l + 1, 0
  {
    match r
    case Found(p) => StartsHere(lines, h, l, p, n);
    case Dead =>
    case Open(s) =>
      BackRest(lines, l, s);
      var p := ReverseRest(lines, l, s);
      if p.Some? { StartsEarlier(lines, p.value, h, l, n, Awaited(s)); }
  }

  lemma {:induction false} BackRest(lines: seq<string>, l: nat, stack: string)
    requires l <= |lines| && BackBased(stack)
    ensures var p := ReverseRest(lines, l, stack);
            p.Some? ==> StartsListAt(lines, p.value, Awaited(stack), Offset(lines, l))
    decreases l, 1
  {
    if l > 0 {
      var line := lines[l - 1];
      BackLine(line, |line|, stack);
      BackAfter(lines, l - 1, |line|, BackwardLine(line, |line|, stack), Awaited(stack));
    }
  }

  /** A `>` that the backward scan takes for the end of a template list. */
  predicate EndsTemplate(line: string, pos: nat)
    requires pos < |line|
  {
    line[pos] == '>' && !SkipsBefore(line, pos)
  }

  /** A word read backward is a list if and only if it is one read forward. */
  lemma MirrorList(inside: string)
    requires ListRun("", Mirror(inside)) == Some("")
    ensures BalancedList(inside)
  {
    var m := Mirror(inside);
    ListRunIsRun("", m);
    BalancedIffRun(m);
    BalancedIffMirror(inside);
    forall k | 0 <= k < |inside| && inside[k] == ';' ensures !Balanced(inside[..k]) {
      var u, v := inside[..k], inside[k + 1..];
      assert inside == u + ([';'] + v);
      MirrorConcat(u, [';'] + v);
      MirrorConcat([';'], v);
      assert Mirror([';']) == [';'] by { assert [';'][1..] == ""; }
      var j := |v|;
      assert m[..j] == Mirror(v) && m[j] == ';';
      if Balanced(u) { RestBalanced(u, v); BalancedIffMirror(v); BalancedIffRun(Mirror(v)); }
    }
  }

  lemma RestBalanced(u: string, v: string)
    requires Balanced(u) && Balanced(u + ([';'] + v))
    ensures Balanced(v)
  {
    BalancedIffRun(u);
    BalancedIffRun(u + ([';'] + v));
    RunConcat("", u, [';'] + v);
    assert ([';'] + v)[1..] == v;
    BalancedIffRun(v);
  }

  /** A matched template list starts with `<`, is balanced inside and holds no statement at its own level. */
  lemma ReverseTemplate(lines: seq<string>, at: Place)
    requires OnText(lines, at) && EndsTemplate(lines[at.line], at.pos) && Reverse(lines, at).Some?
    ensures var t, b, s := Text(lines), Index(lines, at), Reverse(lines, at).value;
            && OnText(lines, s) && Index(lines, s) < b < |t|
            && t[Index(lines, s)] == '<'
            && BalancedList(t[Index(lines, s) + 1..b])
  {
    var line, n, s := lines[at.line], at.pos, Reverse(lines, at).value;
    assert ListBack(line, n, "", BackwardLine(line, n + 1, "")) by { BackStart(line, n); }
    assert StartsListAt(lines, s, "", Index(lines, at)) by {
      BackAfter(lines, at.line, n, BackwardLine(line, n + 1, ""), "");
    }
    TextAt(lines, at.line, n);
    MirrorList(Text(lines)[Index(lines, s) + 1..Index(lines, at)]);
  }

  lemma BackStart(line: string, n: nat)
    requires n < |line| && EndsTemplate(line, n)
    ensures ListBack(line, n, "", BackwardLine(line, n + 1, ""))
  {
    assert "" + ">" == ">" && BackwardLine(line, n + 1, "") == BackwardLine(line, n, ">");
    assert Awaited(">") == "" by { assert Hard(">", '>') == Hard("", '>'); }
    BackLine(line, n, ">");
  }
}
