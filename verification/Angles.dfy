/**
  Template lists that are well nested.  The scanner looks at neighbouring characters to tell a
  template bracket from an operator; once that is done, what remains is a plain stack machine,
  and on well-nested text it finds exactly the bracket that a strict four-bracket matcher finds.
*/
module Angles {
  import opened Options
  import opened Brackets
  import opened Scanner
  import opened Matching

  /** A shift: two `<` that are not part of a longer run and do not follow `operator`. */
  predicate ShiftAt(line: string, j: nat) {
    && j + 1 < |line| && line[j] == '<' && line[j + 1] == '<'
    && !(j > 0 && (line[j - 1] == '<' || EndsWithOperator(line[..j])))
    && !(j + 2 < |line| && line[j + 2] == '<')
  }

  /** What a character is to a reader: a bracket, `;`, a blank, or `S` for a `<` behind another one that is no shift. */
  function Role(line: string, i: nat): char
    requires i < |line|
  {
    var c := line[i];
    if IsOpener(c) || IsCloser(c) || c == ';' then c
    else if c == '<' then
      if ShiftAt(line, i) || (i > 0 && ShiftAt(line, i - 1)) then ' '
      else if i > 0 && line[i - 1] == '<' then 'S' else if i > 0 && EndsWithOperator(line[..i]) then ' ' else '<'
    else if c == '>' then
      if i > 0 && (line[i - 1] == '-' || EndsWithOperator(line[..i - 1])) then ' ' else '>'
    else ' '
  }

  function Roles(line: string): (w: string)
    ensures |w| == |line|
  {
    seq(|line|, i requires 0 <= i < |line| => Role(line, i))
  }

  /** One move of the scanner, given only the role of the character. */
  function RoleMove(r: char, stack: string, end: nat): Move {
    if IsOpener(r) || r == '<' then Next(stack + [r])
    else if IsCloser(r) then MatchTop(stack, r, '<', end)
    else if r == '>' then PopSoft(stack, '<', Found(end))
    else if r == 'S' then PopSoft(stack, '<', Dead)
    else if r == ';' then EndStatement(stack, '<')
    else Next(stack)
  }

  lemma ForwardMoveByRole(line: string, i: nat, stack: string)
    requires i < |line| && !ShiftAt(line, i) && !(i > 0 && ShiftAt(line, i - 1))
    ensures ForwardMove(line, i, stack) == RoleMove(Role(line, i), stack, i + 1)
  {
  }

  // ----- The strict matcher of four kinds of brackets

  predicate Opens(r: char) { IsOpener(r) || r == '<' }

  predicate Closes(r: char) { IsCloser(r) || r == '>' }

  function Partner(r: char): char {
    if r == '<' then '>' else Flip(r)
  }

  /** The two characters of a shift cancel out. */
  lemma ShiftMoves(line: string, i: nat, stack: string)
    requires ShiftAt(line, i) && stack != []
    ensures ForwardMove(line, i, stack) == Next(stack + "<") && ForwardMove(line, i + 1, stack + "<") == Next(stack)
  {
    assert (stack + "<")[..|stack|] == stack;
  }

  /** Brackets must match exactly, a statement may end only inside a hard bracket, and `S` is not allowed. */
  function StrictStep(s: string, r: char): Option<string> {
    if Opens(r) then Some(s + [r])
    else if Closes(r) then
      if s != [] && Partner(s[|s| - 1]) == r then Some(s[..|s| - 1]) else None
    else if r == ';' then
      if s != [] && s[|s| - 1] != '<' then Some(s) else None
    else if r == 'S' then None
    else Some(s)
  }

  function StrictScan(s: string, w: string): Outcome
    decreases |w|
  {
    if w == [] then Pending(s) else
    match StrictStep(s, w[0])
    case None => Broken
    case Some(t) => if t == [] then Closed(1) else StrictScan(t, w[1..]).Shift(1)
  }

  lemma {:induction false} StrictConcat(s: string, u: string, v: string)
    ensures StrictScan(s, u + v) ==
            match StrictScan(s, u)
            case Pending(t) => StrictScan(t, v).Shift(|u|)
            case r => r
    decreases |u|
  {
    if u == [] {
      assert u + v == v;
    } else {
      assert (u + v)[1..] == u[1..] + v;
      match StrictStep(s, u[0])
      case None =>
      case Some(t) => StrictConcat(t, u[1..], v);
    }
  }

  lemma {:induction false} StrictWithin(s: string, w: string)
    ensures var o := StrictScan(s, w); o.Closed? ==> 0 < o.n <= |w|
    decreases |w|
  {
    if w != [] && StrictStep(s, w[0]).Some? { StrictWithin(StrictStep(s, w[0]).value, w[1..]); }
  }

  // ----- The scanner does what the strict matcher does, where that succeeds

  predicate OnlyOpens(s: string) {
    forall k :: 0 <= k < |s| ==> Opens(s[k])
  }

  lemma MoveFollowsStrict(r: char, s: string, end: nat)
    requires OnlyOpens(s) && s != [] && StrictStep(s, r).Some?
    ensures var t := StrictStep(s, r).value;
            OnlyOpens(t) && RoleMove(r, s, end) == if t == [] then Halt(Found(end)) else Next(t)
  {
    var top := s[|s| - 1];
    assert top != '<' ==> DropTop(s, '<') == s;
    if IsCloser(r) && Opens(top) { assert Partner(top) == r ==> Flip(r) == top; }
  }

  /** A forward scan of a line whose roles the strict matcher can follow. */
  ghost predicate FollowsStrict(r: Scan, o: Outcome, i: nat) {
    match o
    case Closed(n) => r == Found(i + n)
    case Broken => true
    case Pending(t) => r == Open(t) && OnlyOpens(t) && t != []
  }

  lemma {:induction false} LineFollowsStrict(line: string, i: nat, s: string)
    requires i <= |line| && OnlyOpens(s) && s != [] && !(i > 0 && ShiftAt(line, i - 1))
    ensures FollowsStrict(ForwardLine(line, i, s), StrictScan(s, Roles(line)[i..]), i)
    decreases |line| - i
  {
    var w := Roles(line)[i..];
    if i < |line| {
      assert w[0] == Role(line, i) && w[1..] == Roles(line)[i + 1..];
      if ShiftAt(line, i) {
        ShiftMoves(line, i, s);
        assert w[1] == Role(line, i + 1) == ' ' && w[1..][1..] == Roles(line)[i + 2..];
        LineFollowsStrict(line, i + 2, s);
      } else {
        ForwardMoveByRole(line, i, s);
        if StrictStep(s, w[0]).Some? {
          MoveFollowsStrict(w[0], s, i + 1);
          var t := StrictStep(s, w[0]).value;
          if t != [] { LineFollowsStrict(line, i + 1, t); }
        }
      }
    }
  }

  function RoleLines(lines: seq<string>): (ws: seq<string>)
    ensures |ws| == |lines|
  {
    seq(|lines|, k requires 0 <= k < |lines| => Roles(lines[k]))
  }

  /** The strict matcher closed after `n` roles, and the scanner stopped just there. */
  ghost predicate StopsThere(lines: seq<string>, p: Option<Place>, o: Outcome, a: nat) {
    o.Closed? ==> p.Some? && PastText(lines, p.value) && Index(lines, p.value) == a + o.n
  }

  lemma {:induction false} CloseAfterFollowsStrict(lines: seq<string>, l: nat, i: nat, r: Scan, s: string)
    requires l < |lines| && i <= |lines[l]| && FollowsStrict(r, StrictScan(s, Roles(lines[l])[i..]), i)
    ensures StopsThere(lines, CloseAfter(lines, l, r),
                       StrictScan(s, Roles(lines[l])[i..] + Text(RoleLines(lines)[l + 1..])), Offset(lines, l) + i)
    decreases |lines| - l, 0
  {
    var w := Roles(lines[l])[i..];
    StrictConcat(s, w, Text(RoleLines(lines)[l + 1..]));
    StrictWithin(s, w);
    match StrictScan(s, w)
    case Pending(t) => CloseRestFollowsStrict(lines, l + 1, t);
    case _ =>
  }

  lemma {:induction false} CloseRestFollowsStrict(lines: seq<string>, l: nat, s: string)
    requires l <= |lines| && OnlyOpens(s) && s != []
    ensures StopsThere(lines, CloseRest(lines, l, s), StrictScan(s, Text(RoleLines(lines)[l..])), Offset(lines, l))
    decreases |lines| - l, 1
  {
    if l < |lines| {
      LineFollowsStrict(lines[l], 0, s);
      CloseAfterFollowsStrict(lines, l, 0, ForwardLine(lines[l], 0, s), s);
      var ws := RoleLines(lines);
      assert Roles(lines[l])[0..] == ws[l] && ws[l..][1..] == ws[l + 1..];
    }
  }

  /** A `<` that the search refuses to start from. */
  predicate Compares(line: string, i: nat)
    requires i < |line|
  {
    line[i] == '<' && i + 1 < |line| && (line[i + 1] == '<' || line[i + 1] == '=')
  }

  lemma StartFollowsStrict(line: string, i: nat)
    requires i < |line| && !Compares(line, i) && Opens(Role(line, i))
    ensures FollowsStrict(ForwardLine(line, i, ""), StrictScan("", Roles(line)[i..]), i)
  {
    var w, r := Roles(line)[i..], Role(line, i);
    assert "" + [r] == [r] && w[0] == r && w[1..] == Roles(line)[i + 1..];
    ForwardMoveByRole(line, i, "");
    assert ForwardLine(line, i, "") == ForwardLine(line, i + 1, [r]);
    assert StrictScan("", w) == StrictScan([r], w[1..]).Shift(1);
    LineFollowsStrict(line, i + 1, [r]);
  }

  /**
    Where the four kinds of brackets are well nested from an opening bracket on, shifts aside, the scanner
    closes it at the bracket that matches: template brackets count like any other.
  */
  lemma CloseFindsMatch(lines: seq<string>, at: Place)
    requires OnText(lines, at) && !Compares(lines[at.line], at.pos) && Opens(Role(lines[at.line], at.pos))
    ensures var w, o := Roles(lines[at.line])[at.pos..] + Text(RoleLines(lines)[at.line + 1..]), Close(lines, at);
            StrictScan("", w).Closed? ==>
              o.Some? && PastText(lines, o.value) && Index(lines, o.value) == Index(lines, at) + StrictScan("", w).n
  {
    var r := ForwardLine(lines[at.line], at.pos, "");
    StartFollowsStrict(lines[at.line], at.pos);
    assert Close(lines, at) == CloseAfter(lines, at.line, r);
    CloseAfterFollowsStrict(lines, at.line, at.pos, r, "");
  }
}
