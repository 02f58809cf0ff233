/**
  The bracket scanners of the linter (build-support/cpplint.py): one reads forward from
  an opening bracket, one backward from a closing bracket, both across lines and both
  with tentative template brackets on the same stack as the hard brackets.
*/
module Scanner {
  import opened Options
  import opened Brackets

  // ----- The small regular expressions used by the scanners

  /** `\s` */
  predicate IsSpace(c: char) {
    c == ' ' || c == '\t' || c == '\n' || c == '\r' || c == '\U{b}' || c == '\U{c}'
  }

  /** `\w` */
  predicate IsWordChar(c: char) {
    'a' <= c <= 'z' || 'A' <= c <= 'Z' || '0' <= c <= '9' || c == '_'
  }

  function TrimRight(s: string): string {
    if s != [] && IsSpace(s[|s| - 1]) then TrimRight(s[..|s| - 1]) else s
  }

  /** `\boperator\s*$` */
  predicate EndsWithOperator(s: string) {
    var t := TrimRight(s);
    && |t| >= 8
    && t[|t| - 8..] == "operator"
    && (|t| == 8 || !IsWordChar(t[|t| - 9]))
  }

  /** `^\s>=\s` */
  predicate StartsWithSpacedGreaterEqual(s: string) {
    |s| >= 4 && IsSpace(s[0]) && s[1] == '>' && s[2] == '=' && IsSpace(s[3])
  }

  /** The word `operator` ends at `k`, at a word boundary in front, and only blanks follow it. */
  predicate OperatorEndsAt(s: string, k: nat) {
    && 8 <= k <= |s| && s[k - 8..k] == "operator" && (k == 8 || !IsWordChar(s[k - 9]))
    && forall j :: k <= j < |s| ==> IsSpace(s[j])
  }

  lemma {:induction false} TrimmedPart(s: string)
    ensures var t := TrimRight(s);
            t <= s && (t != [] ==> !IsSpace(t[|t| - 1])) && forall j :: |t| <= j < |s| ==> IsSpace(s[j])
  {
    if s != [] && IsSpace(s[|s| - 1]) { TrimmedPart(s[..|s| - 1]); }
  }

  /** What the search for `operator` in front of a bracket finds. */
  lemma OperatorIff(s: string)
    ensures EndsWithOperator(s) <==> exists k :: 0 <= k <= |s| && OperatorEndsAt(s, k)
  {
    var t := TrimRight(s);
    TrimmedPart(s);
    if EndsWithOperator(s) {
      assert s[|t| - 8..|t|] == t[|t| - 8..];
      assert OperatorEndsAt(s, |t|);
    }
    forall k | 0 <= k <= |s| && OperatorEndsAt(s, k) ensures EndsWithOperator(s) {
      assert s[k - 8..k][7] == s[k - 1] && "operator"[7] == 'r';
      assert k == |t|;
      assert t[k - 8..] == s[k - 8..k];
    }
  }

  /** The character before an ignored `>` is never a hard bracket. */
  lemma OperatorTail(s: string)
    requires EndsWithOperator(s)
    ensures s != [] && IsPlain(s[|s| - 1])
  {
    var t := TrimRight(s);
    if !IsSpace(s[|s| - 1]) {
      assert t == s;
      assert s[|s| - 8..][7] == "operator"[7];
    }
  }

  // ----- Scanning one line

  /** The result of scanning one line: the expression ends, cannot end, or is still open. */
  datatype Scan = Found(pos: nat) | Dead | Open(stack: string)

  datatype Move = Next(stack: string) | Halt(result: Scan)

  /** The stack without the run of `c` on its top. */
  function DropTop(stack: string, c: char): string {
    if stack != [] && stack[|stack| - 1] == c then DropTop(stack[..|stack| - 1], c) else stack
  }

  /** Takes the top off; an empty stack ends the scan with `empty`. */
  function Pop(stack: string, empty: Scan): Move
    requires stack != []
  {
    if |stack| == 1 then Halt(empty) else Next(stack[..|stack| - 1])
  }

  /** A hard bracket that should match the top, once pending template brackets are discarded. */
  function MatchTop(stack: string, c: char, soft: char, end: nat): Move {
    var t := DropTop(stack, soft);
    if t == [] then Halt(Dead)
    else if Flip(c) == t[|t| - 1] then Pop(t, Found(end))
    else Halt(Dead)
  }

  /** The end of a statement discards pending template brackets. */
  function EndStatement(stack: string, soft: char): Move {
    var t := DropTop(stack, soft);
    if t == [] then Halt(Dead) else Next(t)
  }

  /** A template bracket that closes a pending one, if that is on top. */
  function PopSoft(stack: string, soft: char, empty: Scan): Move {
    if stack != [] && stack[|stack| - 1] == soft then Pop(stack, empty) else Next(stack)
  }

  function ForwardMove(line: string, i: nat, stack: string): Move
    requires i < |line|
  {
    var c := line[i];
    if IsOpener(c) then Next(stack + [c])
    else if c == '<' then
      if i > 0 && line[i - 1] == '<' then PopSoft(stack, '<', Dead)
      else if i > 0 && EndsWithOperator(line[..i]) then Next(stack)
      else Next(stack + "<")
    else if IsCloser(c) then MatchTop(stack, c, '<', i + 1)
    else if c == '>' then
      if i > 0 && (line[i - 1] == '-' || EndsWithOperator(line[..i - 1])) then Next(stack)
      else PopSoft(stack, '<', Found(i + 1))
    else if c == ';' then EndStatement(stack, '<')
    else Next(stack)
  }

  function ForwardLine(line: string, i: nat, stack: string): Scan
    requires i <= |line|
    decreases |line| - i
  {
    if i == |line| then Open(stack) else
    match ForwardMove(line, i, stack)
    case Next(s) => ForwardLine(line, i + 1, s)
    case Halt(r) => r
  }

  method FindEndOfExpressionInLine(line: string, startpos: nat, initial: string) returns (r: Scan)
    requires startpos <= |line|
    ensures r == ForwardLine(line, startpos, initial)
  {
    var stack := initial;
    for i := startpos to |line|
      invariant ForwardLine(line, startpos, initial) == ForwardLine(line, i, stack)
    {
      var c := line[i];
      if c == '(' || c == '[' || c == '{' {
        stack := stack + [c];
      } else if c == '<' {
        if i > 0 && line[i - 1] == '<' {
          if stack != [] && stack[|stack| - 1] == '<' {
            stack := stack[..|stack| - 1];
            if stack == [] { return Dead; }
          }
        } else if i > 0 && EndsWithOperator(line[..i]) {
          continue;
        } else {
          stack := stack + ['<'];
        }
      } else if c == ')' || c == ']' || c == '}' {
        stack := PopWhile(stack, '<');
        if stack == [] { return Dead; }
        var top := stack[|stack| - 1];
        if (top == '(' && c == ')') || (top == '[' && c == ']') || (top == '{' && c == '}') {
          stack := stack[..|stack| - 1];
          if stack == [] { return Found(i + 1); }
        } else {
          return Dead;
        }
      } else if c == '>' {
        if i > 0 && (line[i - 1] == '-' || EndsWithOperator(line[..i - 1])) {
          continue;
        }
        if stack != [] {
          if stack[|stack| - 1] == '<' {
            stack := stack[..|stack| - 1];
            if stack == [] { return Found(i + 1); }
          }
        }
      } else if c == ';' {
        stack := PopWhile(stack, '<');
        if stack == [] { return Dead; }
      }
    }
    return Open(stack);
  }

  /** The inner loop that discards pending template brackets. */
  method PopWhile(initial: string, c: char) returns (stack: string)
    ensures stack == DropTop(initial, c)
    ensures stack <= initial
    ensures forall k :: |stack| <= k < |initial| ==> initial[k] == c
    ensures stack != [] ==> stack[|stack| - 1] != c
  {
    stack := initial;
    while stack != [] && stack[|stack| - 1] == c
      invariant DropTop(stack, c) == DropTop(initial, c)
      invariant stack <= initial
      invariant forall k :: |stack| <= k < |initial| ==> initial[k] == c
    {
      stack := stack[..|stack| - 1];
    }
  }

  /** The character before this `>` or `<` belongs to it and is skipped by the backward scan. */
  predicate SkipsBefore(line: string, i: nat)
    requires i < |line|
  {
    && i > 0
    && match line[i]
       case '>' => line[i - 1] == '-' || StartsWithSpacedGreaterEqual(line[i - 1..]) || EndsWithOperator(line[..i])
       case '<' => line[i - 1] == '<'
       case _ => false
  }

  function BackwardMove(line: string, i: nat, stack: string): Move
    requires i < |line|
  {
    var c := line[i];
    if IsCloser(c) then Next(stack + [c])
    else if SkipsBefore(line, i) then Next(stack)
    else if c == '>' then Next(stack + ">")
    else if c == '<' then PopSoft(stack, '>', Found(i))
    else if IsOpener(c) then MatchTop(stack, c, '>', i)
    else if c == ';' then EndStatement(stack, '>')
    else Next(stack)
  }

  /** Scans `line[..n]` from right to left. */
  function BackwardLine(line: string, n: nat, stack: string): Scan
    requires n <= |line|
    decreases n
  {
    if n == 0 then Open(stack) else
    match BackwardMove(line, n - 1, stack)
    case Next(s) => BackwardLine(line, if SkipsBefore(line, n - 1) then n - 2 else n - 1, s)
    case Halt(r) => r
  }

  method FindStartOfExpressionInLine(line: string, endpos: int, initial: string) returns (r: Scan)
    requires -1 <= endpos < |line|
    ensures r == BackwardLine(line, endpos + 1, initial)
  {
    var stack := initial;
    var i := endpos;
    while i >= 0
      invariant -1 <= i < |line|
      invariant BackwardLine(line, endpos + 1, initial) == BackwardLine(line, i + 1, stack)
    {
      var c := line[i];
      if c == ')' || c == ']' || c == '}' {
        stack := stack + [c];
      } else if c == '>' {
        if i > 0 && (line[i - 1] == '-' || StartsWithSpacedGreaterEqual(line[i - 1..]) || EndsWithOperator(line[..i])) {
          i := i - 1;
        } else {
          stack := stack + ['>'];
        }
      } else if c == '<' {
        if i > 0 && line[i - 1] == '<' {
          i := i - 1;
        } else if stack != [] && stack[|stack| - 1] == '>' {
          stack := stack[..|stack| - 1];
          if stack == [] { return Found(i); }
        }
      } else if c == '(' || c == '[' || c == '{' {
        stack := PopWhile(stack, '>');
        if stack == [] { return Dead; }
        var top := stack[|stack| - 1];
        if (c == '(' && top == ')') || (c == '[' && top == ']') || (c == '{' && top == '}') {
          stack := stack[..|stack| - 1];
          if stack == [] { return Found(i); }
        } else {
          return Dead;
        }
      } else if c == ';' {
        stack := PopWhile(stack, '>');
        if stack == [] { return Dead; }
      }
      i := i - 1;
    }
    return Open(stack);
  }

  // ----- Scanning many lines

  datatype Place = Place(line: nat, pos: nat)

  predicate StartsExpression(line: string, pos: nat)
    requires pos < |line|
  {
    && (IsOpener(line[pos]) || line[pos] == '<')
    && !(line[pos] == '<' && pos + 1 < |line| && (line[pos + 1] == '<' || line[pos + 1] == '='))
  }

  /** What comes of a match after line `l` was scanned forward. */
  function CloseAfter(lines: seq<string>, l: nat, r: Scan): Option<Place>
    requires l < |lines|
    decreases |lines| - l, 0
  {
    match r
    case Found(e) => Some(Place(l, e))
    case Dead => None
    case Open(s) => CloseRest(lines, l + 1, s)
  }

  function CloseRest(lines: seq<string>, l: nat, stack: string): Option<Place>
    requires l <= |lines|
    decreases |lines| - l, 1
  {
    if stack == [] || l == |lines| then None else CloseAfter(lines, l, ForwardLine(lines[l], 0, stack))
  }

  /** Where the expression that starts at the given place ends, as a place just past the closing bracket. */
  function Close(lines: seq<string>, at: Place): Option<Place>
    requires at.line < |lines| && at.pos < |lines[at.line]|
  {
    if !StartsExpression(lines[at.line], at.pos) then None
    else CloseAfter(lines, at.line, ForwardLine(lines[at.line], at.pos, ""))
  }

  /** What comes of a match after line `l` was scanned backward. */
  function ReverseAfter(lines: seq<string>, l: nat, r: Scan): Option<Place>
    requires l < |lines|
    decreases l + 1, 0
  {
    match r
    case Found(p) => Some(Place(l, p))
    case Dead => None
    case Open(s) => ReverseRest(lines, l, s)
  }

  /** The lines below `l`, from the last one up. */
  function ReverseRest(lines: seq<string>, l: nat, stack: string): Option<Place>
    requires l <= |lines|
    decreases l, 1
  {
    if stack == [] || l == 0 then None
    else ReverseAfter(lines, l - 1, BackwardLine(lines[l - 1], |lines[l - 1]|, stack))
  }

  /** Where the expression that ends with the bracket at the given place starts. */
  function Reverse(lines: seq<string>, at: Place): Option<Place>
    requires at.line < |lines| && at.pos < |lines[at.line]|
  {
    var c := lines[at.line][at.pos];
    if !IsCloser(c) && c != '>' then None
    else ReverseAfter(lines, at.line, BackwardLine(lines[at.line], at.pos + 1, ""))
  }
}
