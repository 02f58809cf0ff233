/**
  The strict matcher of four kinds of brackets read backward, and text on which the two scanners
  undo each other from a template bracket as they do from a hard one.
*/
module AnglesBack {
  import opened Options
  import opened Brackets
  import opened Scanner
  import opened Matching
  import opened Angles

  // ----- Mirror images for four kinds of brackets

  function Turn(c: char): char {
    if c == '<' then '>' else if c == '>' then '<' else Flip(c)
  }

  function TurnAll(w: string): (m: string)
    ensures |m| == |w|
    decreases |w|
  {
    if w == [] then [] else TurnAll(w[1..]) + [Turn(w[0])]
  }

  lemma {:induction false} TurnConcat(u: string, v: string)
    ensures TurnAll(u + v) == TurnAll(v) + TurnAll(u)
    decreases |u|
  {
    if u == [] {
      assert u + v == v;
    } else {
      assert (u + v)[1..] == u[1..] + v;
      TurnConcat(u[1..], v);
    }
  }

  lemma {:induction false} TurnTwice(w: string)
    ensures TurnAll(TurnAll(w)) == w
    decreases |w|
  {
    if w != [] {
      TurnTwice(w[1..]);
      TurnConcat(TurnAll(w[1..]), [Turn(w[0])]);
      assert [Turn(w[0])][1..] == "";
      assert TurnAll([Turn(w[0])]) == [w[0]];
      assert w == [w[0]] + w[1..];
    }
  }

  function StrictRun(s: string, w: string): Option<string>
    decreases |w|
  {
    if w == [] then Some(s) else
    match StrictStep(s, w[0])
    case None => None
    case Some(t) => StrictRun(t, w[1..])
  }

  lemma {:induction false} StrictRunConcat(s: string, u: string, v: string)
    ensures StrictRun(s, u + v) == match StrictRun(s, u) case None => None case Some(t) => StrictRun(t, v)
    decreases |u|
  {
    if u == [] {
      assert u + v == v;
    } else {
      assert (u + v)[1..] == u[1..] + v;
      match StrictStep(s, u[0])
      case None =>
      case Some(t) => StrictRunConcat(t, u[1..], v);
    }
  }

  lemma StrictStepUnder(b: string, s: string, r: char)
    requires StrictStep(s, r).Some?
    ensures StrictStep(b + s, r) == Some(b + StrictStep(s, r).value)
  {
    assert Opens(r) ==> (b + s) + [r] == b + (s + [r]);
    assert s != [] ==> (b + s)[..|b + s| - 1] == b + s[..|s| - 1] && (b + s)[|b + s| - 1] == s[|s| - 1];
  }

  lemma {:induction false} StrictRunUnder(b: string, s: string, w: string)
    requires StrictRun(s, w).Some?
    ensures StrictRun(b + s, w) == Some(b + StrictRun(s, w).value)
    decreases |w|
  {
    if w != [] {
      StrictStepUnder(b, s, w[0]);
      StrictRunUnder(b, StrictStep(s, w[0]).value, w[1..]);
    }
  }

  lemma StrictRunOver(b: string, w: string)
    requires StrictRun("", w) == Some("")
    ensures StrictRun(b, w) == Some(b)
  {
    StrictRunUnder(b, "", w);
    assert b + "" == b;
  }

  lemma StrictStepTurned(s: string, r: char)
    requires OnlyOpens(s) && StrictStep(s, r).Some?
    ensures var t := StrictStep(s, r).value; OnlyOpens(t) && StrictStep(t, Turn(r)) == Some(s)
  {
    var t := StrictStep(s, r).value;
    if Opens(r) { assert t[..|t| - 1] == s; }
    if Closes(r) { assert t + [s[|s| - 1]] == s; }
  }

  lemma {:induction false} StrictRunTurned(s: string, w: string)
    requires OnlyOpens(s) && StrictRun(s, w).Some?
    ensures StrictRun(StrictRun(s, w).value, TurnAll(w)) == Some(s)
    decreases |w|
  {
    if w != [] {
      var t := StrictStep(s, w[0]).value;
      StrictStepTurned(s, w[0]);
      StrictRunTurned(t, w[1..]);
      StrictRunConcat(StrictRun(s, w).value, TurnAll(w[1..]), [Turn(w[0])]);
      assert [Turn(w[0])][1..] == "";
    }
  }

  // ----- Where the strict matcher closes

  /** The stack is empty after the whole word, and not before. */
  ghost predicate Shortest(s: string, w: string) {
    && w != [] && StrictRun(s, w) == Some("")
    && forall k :: 0 < k < |w| ==> StrictRun(s, w[..k]) != Some("")
  }

  lemma ShortestTail(s: string, w: string, t: string)
    requires w != [] && StrictStep(s, w[0]) == Some(t) && t != []
    ensures Shortest(s, w) <==> Shortest(t, w[1..])
  {
    var v := w[1..];
    forall k | 0 <= k < |w| ensures StrictRun(s, w[..k + 1]) == StrictRun(t, v[..k]) {
      assert w[..k + 1][1..] == v[..k];
    }
    assert w[..|w|] == w && v[..|v|] == v;
    if Shortest(s, w) {
      forall k | 0 < k < |v| ensures StrictRun(t, v[..k]) != Some("") { assert StrictRun(s, w[..k + 1]) != Some(""); }
    }
    if Shortest(t, v) {
      forall k | 0 < k < |w| ensures StrictRun(s, w[..k]) != Some("") {
        assert StrictRun(s, w[..k - 1 + 1]) == StrictRun(t, v[..k - 1]);
      }
    }
  }

  lemma {:induction false} StrictScanIsShortest(s: string, w: string, n: nat)
    requires n <= |w|
    ensures StrictScan(s, w) == Closed(n) <==> Shortest(s, w[..n])
    decreases |w|
  {
    if w != [] {
      match StrictStep(s, w[0]) {
        case None => if n > 0 { assert w[..n][0] == w[0]; }
        case Some(t) =>
          if n > 0 {
            assert w[..n][0] == w[0] && w[..n][1..] == w[1..][..n - 1];
            if t == [] {
              assert w[..n][..1] == [w[0]] == w[..1] && StrictRun(s, [w[0]]) == Some("") by { assert [w[0]][1..] == []; }
              assert n > 1 ==> !Shortest(s, w[..n]);
            } else {
              StrictScanIsShortest(t, w[1..], n - 1);
              ShortestTail(s, w[..n], t);
            }
          }
      }
    }
  }

  /** A shortest word read backward is one as well. */
  lemma ShortestTurned(w: string)
    requires Shortest("", w)
    ensures Shortest("", TurnAll(w))
  {
    var m := TurnAll(w);
    StrictRunTurned("", w);
    forall k | 0 < k < |m| ensures StrictRun("", m[..k]) != Some("") {
      var u, v := w[..|w| - k], w[|w| - k..];
      assert w == u + v;
      TurnConcat(u, v);
      assert m[..k] == TurnAll(v);
      if StrictRun("", m[..k]) == Some("") {
        StrictRunTurned("", m[..k]);
        TurnTwice(v);
        StrictRunConcat("", u, v);
        StrictRunOver(StrictRun("", u).value, v);
      }
    }
  }

  // ----- The backward scanner by roles

  /** The two characters in front of `n` are `<<`, `->`, the first two of a spaced `>=`, or end `operator>`. */
  predicate PairEnds(line: string, n: nat) {
    && 2 <= n <= |line|
    && (|| (line[n - 2] == '<' && line[n - 1] == '<')
        || (line[n - 2] == '-' && line[n - 1] == '>')
        || (line[n - 1] == '>' && n + 1 < |line| && IsSpace(line[n - 2]) && line[n] == '=' && IsSpace(line[n + 1]))
        || (line[n - 1] == '>' && EndsWithOperator(line[..n - 1])))
  }

  function Bracket(c: char): char {
    if IsOpener(c) || IsCloser(c) || c == '<' || c == '>' || c == ';' then c else ' '
  }

  /** The brackets of `line[..n]`, with the pairs blanked that are met from the right. */
  function BackRoles(line: string, n: nat): (w: string)
    requires n <= |line|
    ensures |w| == n
  {
    if n == 0 then ""
    else if PairEnds(line, n) then BackRoles(line, n - 2) + "  "
    else BackRoles(line, n - 1) + [Bracket(line[n - 1])]
  }

  lemma PairIsSkipped(line: string, n: nat)
    requires 0 < n <= |line|
    ensures PairEnds(line, n) <==> SkipsBefore(line, n - 1)
  {
    if n > 1 {
      var u := line[n - 2..];
      assert u[0] == line[n - 2] && u[1] == line[n - 1];
      assert n < |line| ==> u[2] == line[n];
      assert n + 1 < |line| ==> u[3] == line[n + 1];
    }
  }

  /** The brackets that a backward stack is waiting for. */
  function Awaits(stack: string): (s: string)
    ensures |s| == |stack|
    ensures forall k :: 0 <= k < |stack| ==> s[k] == Turn(stack[k])
  {
    seq(|stack|, k requires 0 <= k < |stack| => Turn(stack[k]))
  }

  predicate OnlyCloses(stack: string) {
    forall k :: 0 <= k < |stack| ==> Closes(stack[k])
  }

  /** One move of the backward scanner is one step of the strict matcher, where that succeeds. */
  lemma BackMoveFollowsStrict(line: string, i: nat, stack: string)
    requires i < |line| && !SkipsBefore(line, i) && OnlyCloses(stack) && stack != []
    requires StrictStep(Awaits(stack), Turn(Bracket(line[i]))).Some?
    ensures var t, m := StrictStep(Awaits(stack), Turn(Bracket(line[i]))).value, BackwardMove(line, i, stack);
            if t == [] then m == Halt(Found(i)) else m.Next? && OnlyCloses(m.stack) && Awaits(m.stack) == t
  {
    var s, c, top := Awaits(stack), line[i], stack[|stack| - 1];
    assert s[|s| - 1] == Turn(top);
    assert Awaits(stack[..|stack| - 1]) == s[..|s| - 1];
    assert top != '>' ==> DropTop(stack, '>') == stack;
    if IsCloser(c) || c == '>' { assert Awaits(stack + [c]) == s + [Turn(c)]; }
  }

  lemma TurnSnoc(w: string, c: char)
    ensures TurnAll(w + [c]) == [Turn(c)] + TurnAll(w)
  {
    TurnConcat(w, [c]);
    assert [c][1..] == "";
  }

  /** A backward scan of `line[..n]` whose roles the strict matcher can follow. */
  ghost predicate FollowsBack(r: Scan, o: Outcome, n: nat) {
    match o
    case Closed(k) => 0 < k <= n && r == Found(n - k)
    case Broken => true
    case Pending(t) => r.Open? && OnlyCloses(r.stack) && r.stack != [] && Awaits(r.stack) == t
  }

  lemma FollowsBackNext(r: Scan, s: string, c: char, w: string, t: string, n: nat)
    requires StrictStep(s, c) == Some(t) && t != [] && FollowsBack(r, StrictScan(t, w), n)
    ensures FollowsBack(r, StrictScan(s, [c] + w), n + 1)
  {
    assert ([c] + w)[0] == c && ([c] + w)[1..] == w;
  }

  /** Two blanks change nothing. */
  lemma BlankPair(s: string, w: string)
    requires s != []
    ensures StrictScan(s, TurnAll(w + "  ")) == StrictScan(s, TurnAll(w)).Shift(2)
  {
    var v := w + [' '];
    assert w + "  " == v + [' '];
    assert StrictScan(s, TurnAll(v + [' '])) == StrictScan(s, TurnAll(v)).Shift(1) by { BlankLast(s, v); }
    BlankLast(s, w);
  }

  lemma BlankLast(s: string, w: string)
    requires s != []
    ensures StrictScan(s, TurnAll(w + [' '])) == StrictScan(s, TurnAll(w)).Shift(1)
  {
    TurnSnoc(w, ' ');
    var u := TurnAll(w);
    assert ([' '] + u)[1..] == u;
  }

  lemma FollowsBackPair(r: Scan, o: Outcome, n: nat)
    requires FollowsBack(r, o, n)
    ensures FollowsBack(r, o.Shift(2), n + 2)
  {
  }

  lemma {:induction false} BackLineFollowsStrict(line: string, n: nat, stack: string)
    requires n <= |line| && OnlyCloses(stack) && stack != []
    ensures FollowsBack(BackwardLine(line, n, stack), StrictScan(Awaits(stack), TurnAll(BackRoles(line, n))), n)
    decreases n
  {
    if n > 0 {
      PairIsSkipped(line, n);
      if PairEnds(line, n) {
        assert BackwardMove(line, n - 1, stack) == Next(stack);
        BackLineFollowsStrict(line, n - 2, stack);
        BlankPair(Awaits(stack), BackRoles(line, n - 2));
        FollowsBackPair(BackwardLine(line, n, stack), StrictScan(Awaits(stack), TurnAll(BackRoles(line, n - 2))), n - 2);
      } else {
        BackLineStep(line, n, stack);
      }
    }
  }

  lemma {:induction false} BackLineStep(line: string, n: nat, stack: string)
    requires 0 < n <= |line| && OnlyCloses(stack) && stack != [] && !PairEnds(line, n)
    ensures FollowsBack(BackwardLine(line, n, stack), StrictScan(Awaits(stack), TurnAll(BackRoles(line, n))), n)
    decreases n, 0
  {
    var s, c, u := Awaits(stack), Turn(Bracket(line[n - 1])), TurnAll(BackRoles(line, n - 1));
    TurnSnoc(BackRoles(line, n - 1), Bracket(line[n - 1]));
    assert ([c] + u)[1..] == u;
    PairIsSkipped(line, n);
    if StrictStep(s, c).Some? {
      var t, m := StrictStep(s, c).value, BackwardMove(line, n - 1, stack);
      BackMoveFollowsStrict(line, n - 1, stack);
      if t != [] {
        BackLineFollowsStrict(line, n - 1, m.stack);
        FollowsBackNext(BackwardLine(line, n, stack), s, c, u, t, n - 1);
      }
    }
  }

  /** The same from the closing bracket itself. */
  lemma BackLineStart(line: string, n: nat)
    requires 0 < n <= |line| && Closes(line[n - 1]) && !PairEnds(line, n)
    ensures FollowsBack(BackwardLine(line, n, ""), StrictScan("", TurnAll(BackRoles(line, n))), n)
  {
    var c := line[n - 1];
    PairIsSkipped(line, n);
    TurnSnoc(BackRoles(line, n - 1), c);
    assert "" + [c] == [c] && Awaits([c]) == [Turn(c)] && "" + [Turn(c)] == [Turn(c)];
    BackLineFollowsStrict(line, n - 1, [c]);
    FollowsBackNext(BackwardLine(line, n, ""), "", Turn(c), TurnAll(BackRoles(line, n - 1)), [Turn(c)], n - 1);
  }

  // ----- Across lines

  /** The roles of the lines in front of `l`. */
  function BackText(lines: seq<string>, l: nat): string
    requires l <= |lines|
  {
    if l == 0 then "" else BackText(lines, l - 1) + BackRoles(lines[l - 1], |lines[l - 1]|)
  }

  /** The roles of the text up to a place, read from there. */
  function RolesUpTo(lines: seq<string>, e: Place): string
    requires PastText(lines, e)
  {
    BackText(lines, e.line) + BackRoles(lines[e.line], e.pos)
  }

  lemma {:induction false} BackTextLength(lines: seq<string>, l: nat)
    requires l <= |lines|
    ensures |BackText(lines, l)| == Offset(lines, l)
  {
    if l > 0 { BackTextLength(lines, l - 1); }
  }

  ghost predicate StartsThere(lines: seq<string>, p: Option<Place>, o: Outcome, b: nat) {
    o.Closed? ==> p.Some? && OnText(lines, p.value) && Index(lines, p.value) + o.n == b
  }

  lemma {:induction false} ReverseAfterFollowsStrict(lines: seq<string>, l: nat, n: nat, r: Scan, s: string)
    requires l < |lines| && n <= |lines[l]| && FollowsBack(r, StrictScan(s, TurnAll(BackRoles(lines[l], n))), n)
    ensures StartsThere(lines, ReverseAfter(lines, l, r),
                        StrictScan(s, TurnAll(BackText(lines, l) + BackRoles(lines[l], n))), Offset(lines, l) + n)
    decreases l + 1, 0
  {
    var u, v := BackText(lines, l), BackRoles(lines[l], n);
    TurnConcat(u, v);
    StrictConcat(s, TurnAll(v), TurnAll(u));
    if StrictScan(s, TurnAll(v)).Pending? { ReverseRestFollowsStrict(lines, l, r.stack); }
  }

  lemma {:induction false} ReverseRestFollowsStrict(lines: seq<string>, l: nat, stack: string)
    requires l <= |lines| && OnlyCloses(stack) && stack != []
    ensures StartsThere(lines, ReverseRest(lines, l, stack),
                        StrictScan(Awaits(stack), TurnAll(BackText(lines, l))), Offset(lines, l))
    decreases l, 1
  {
    if l > 0 {
      var line := lines[l - 1];
      BackLineFollowsStrict(line, |line|, stack);
      ReverseAfterFollowsStrict(lines, l - 1, |line|, BackwardLine(line, |line|, stack), Awaits(stack));
    }
  }

  /**
    From a closing bracket of any of the four kinds, with the shifts, arrows, spaced `>=` and `operator>` in front
    of it blanked from the right: where the strict matcher closes, the backward scan returns the place it closes at.
  */
  lemma ReverseFindsMatch(lines: seq<string>, at: Place, n: nat)
    requires OnText(lines, at) && Closes(lines[at.line][at.pos]) && !PairEnds(lines[at.line], at.pos + 1)
    requires StrictScan("", TurnAll(RolesUpTo(lines, Place(at.line, at.pos + 1)))) == Closed(n)
    ensures var p := Reverse(lines, at); p.Some? && OnText(lines, p.value) && Index(lines, p.value) + n == Index(lines, at) + 1
  {
    var line, m := lines[at.line], at.pos + 1;
    var r := BackwardLine(line, m, "");
    BackLineStart(line, m);
    assert Reverse(lines, at) == ReverseAfter(lines, at.line, r);
    ReverseAfterFollowsStrict(lines, at.line, m, r, "");
  }

  // ----- The two scanners

  /** Lines of the same lengths have the same offsets. */
  lemma {:induction false} SameOffset(lines: seq<string>, ws: seq<string>, l: nat)
    requires |ws| == |lines| && l <= |lines| && forall k :: 0 <= k < |lines| ==> |ws[k]| == |lines[k]|
    ensures Offset(ws, l) == Offset(lines, l)
  {
    if l > 0 { SameOffset(lines, ws, l - 1); }
  }

  function ForwardText(lines: seq<string>): string { Text(RoleLines(lines)) }

  /** The roles from a place on. */
  function RolesFrom(lines: seq<string>, at: Place): string
    requires OnText(lines, at)
  {
    Roles(lines[at.line])[at.pos..] + Text(RoleLines(lines)[at.line + 1..])
  }

  lemma ForwardFrom(lines: seq<string>, at: Place)
    requires OnText(lines, at)
    ensures var a := Index(lines, at); a <= |ForwardText(lines)| && ForwardText(lines)[a..] == RolesFrom(lines, at)
  {
    var ws := RoleLines(lines);
    SameOffset(lines, ws, at.line);
    TextAt(ws, at.line, at.pos);
  }

  lemma UpToLength(lines: seq<string>, e: Place)
    requires PastText(lines, e)
    ensures |RolesUpTo(lines, e)| == Index(lines, e)
  {
    BackTextLength(lines, e.line);
  }

  /** Read forward from `at` and backward from `e`, the text between has the same roles. */
  ghost predicate RolesAgree(lines: seq<string>, at: Place, e: Place)
    requires OnText(lines, at) && PastText(lines, e)
  {
    var a, b := Index(lines, at), Index(lines, e);
    && a <= b <= |ForwardText(lines)| && b <= |RolesUpTo(lines, e)|
    && ForwardText(lines)[a..b] == RolesUpTo(lines, e)[a..b]
  }

  /** A stretch that the forward reading closes first is what the backward reading closes first. */
  lemma StrictBothWays(x: string, y: string, a: nat, b: nat)
    requires a < b <= |x| && b == |y| && x[a..b] == y[a..b] && StrictScan("", x[a..]) == Closed(b - a)
    ensures StrictScan("", TurnAll(y)) == Closed(b - a)
  {
    var g := y[a..b];
    assert Shortest("", g) by {
      assert x[a..][..b - a] == g;
      StrictScanIsShortest("", x[a..], b - a);
    }
    assert Shortest("", TurnAll(g)) by { ShortestTurned(g); }
    assert TurnAll(y)[..b - a] == TurnAll(g) by { TurnTail(y, a, g); }
    StrictScanIsShortest("", TurnAll(y), b - a);
  }

  lemma TurnTail(y: string, a: nat, g: string)
    requires a <= |y| && g == y[a..]
    ensures TurnAll(y)[..|g|] == TurnAll(g)
  {
    assert y == y[..a] + g;
    TurnConcat(y[..a], g);
  }

  lemma OpensLonger(w: string, r: char)
    requires w != [] && w[0] == r && Opens(r) && StrictScan("", w).Closed?
    ensures StrictScan("", w).n > 1
  {
    StrictWithin([r], w[1..]);
    assert "" + [r] == [r];
  }

  /** The reading backward begins with a closing bracket that is no part of a pair. */
  lemma EndsWithCloser(lines: seq<string>, e: Place, n: nat)
    requires PastText(lines, e) && n > 1 && StrictScan("", TurnAll(RolesUpTo(lines, e))) == Closed(n)
    ensures Closes(lines[e.line][e.pos - 1]) && !PairEnds(lines[e.line], e.pos)
  {
    var line, u := lines[e.line], BackText(lines, e.line);
    if PairEnds(line, e.pos) {
      assert RolesUpTo(lines, e) == (u + BackRoles(line, e.pos - 2) + " ") + [' '];
      TurnSnoc(u + BackRoles(line, e.pos - 2) + " ", ' ');
    } else {
      assert RolesUpTo(lines, e) == (u + BackRoles(line, e.pos - 1)) + [Bracket(line[e.pos - 1])];
      TurnSnoc(u + BackRoles(line, e.pos - 1), Bracket(line[e.pos - 1]));
    }
  }

  /**
    From an opening bracket of any kind whose text is well nested up to its partner, and read
    the same way from both ends, the backward scan returns to it.
  */
  lemma ReverseUndoesStrictClose(lines: seq<string>, at: Place)
    requires OnText(lines, at) && !Compares(lines[at.line], at.pos) && Opens(Role(lines[at.line], at.pos))
    requires StrictScan("", RolesFrom(lines, at)).Closed?
    ensures var e := Close(lines, at);
            && e.Some? && PastText(lines, e.value)
            && (RolesAgree(lines, at, e.value) ==> Reverse(lines, Place(e.value.line, e.value.pos - 1)) == Some(at))
  {
    var n := StrictScan("", RolesFrom(lines, at)).n;
    CloseAt(lines, at, n);
    var e := Close(lines, at).value;
    if RolesAgree(lines, at, e) {
      ReadsBack(lines, at, e, n);
      EndsWithCloser(lines, e, n);
      ReverseFindsMatch(lines, Place(e.line, e.pos - 1), n);
      IndexInjective(lines, at, Reverse(lines, Place(e.line, e.pos - 1)).value);
    }
  }

  lemma CloseAt(lines: seq<string>, at: Place, n: nat)
    requires OnText(lines, at) && !Compares(lines[at.line], at.pos) && Opens(Role(lines[at.line], at.pos))
    requires StrictScan("", RolesFrom(lines, at)) == Closed(n)
    ensures var e := Close(lines, at); e.Some? && PastText(lines, e.value) && Index(lines, e.value) == Index(lines, at) + n
  {
    CloseFindsMatch(lines, at);
  }

  lemma ReadsBack(lines: seq<string>, at: Place, e: Place, n: nat)
    requires OnText(lines, at) && PastText(lines, e) && Opens(Role(lines[at.line], at.pos))
    requires StrictScan("", RolesFrom(lines, at)) == Closed(n) && Index(lines, e) == Index(lines, at) + n
    requires RolesAgree(lines, at, e)
    ensures n > 1 && StrictScan("", TurnAll(RolesUpTo(lines, e))) == Closed(n)
  {
    assert n > 1 by { OpensLonger(RolesFrom(lines, at), Role(lines[at.line], at.pos)); }
    ForwardFrom(lines, at);
    UpToLength(lines, e);
    StrictBothWays(ForwardText(lines), RolesUpTo(lines, e), Index(lines, at), Index(lines, e));
  }

  // ----- A text that the two scanners read differently

  lemma {:induction false} TrimShortens(s: string)
    ensures |TrimRight(s)| <= |s|
  {
    if s != [] && IsSpace(s[|s| - 1]) { TrimShortens(s[..|s| - 1]); }
  }

  lemma NoOperator(s: string)
    requires |s| < 8
    ensures !EndsWithOperator(s)
  {
    TrimShortens(s);
  }

  lemma ForwardPast(line: string)
    requires line == "x<y >= z"
    ensures ForwardLine(line, 1, "") == Found(5)
  {
    NoOperator(line[..1]);
    NoOperator(line[..3]);
    assert "" + "<" == "<";
    assert ForwardLine(line, 4, "<") == Found(5);
    assert ForwardLine(line, 3, "<") == ForwardLine(line, 2, "<") == Found(5);
  }

  lemma BackwardPast(line: string)
    requires line == "x<y >= z"
    ensures BackwardLine(line, 5, "") == Open("")
  {
    assert line[3..] == " >= z" && SkipsBefore(line, 4);
    assert BackwardLine(line, 1, "") == BackwardLine(line, 0, "");
    assert BackwardLine(line, 2, "") == BackwardLine(line, 1, "");
    assert BackwardLine(line, 3, "") == BackwardLine(line, 2, "");
  }

  /** The forward scan takes the `>` of `x<y >= z` for a closing bracket, the backward scan does not. */
  lemma NotInverse(line: string)
    requires line == "x<y >= z"
    ensures Close([line], Place(0, 1)) == Some(Place(0, 5)) && Reverse([line], Place(0, 4)) == None
  {
    ForwardPast(line);
    BackwardPast(line);
  }
}
