/**
  What the scanners compute.  Started on a hard bracket, both scanners agree with the
  reference machine on the whole text, so template brackets, shifts, arrows, semicolons
  and line breaks never matter, and reading backward undoes reading forward.
*/
module Matching {
  import opened Options
  import opened Brackets
  import opened Scanner

  // ----- The hard brackets of a scanner stack

  /** The stack entries other than the pending template bracket `soft`. */
  function Hard(stack: string, soft: char): (h: string)
    ensures soft !in h
    ensures |h| <= |stack|
  {
    if stack == [] then []
    else if stack[|stack| - 1] == soft then Hard(stack[..|stack| - 1], soft)
    else Hard(stack[..|stack| - 1], soft) + [stack[|stack| - 1]]
  }

  lemma HardPush(stack: string, c: char, soft: char)
    ensures Hard(stack + [c], soft) == if c == soft then Hard(stack, soft) else Hard(stack, soft) + [c]
  {
    assert (stack + [c])[..|stack|] == stack;
  }

  lemma {:induction false} HardDropTop(stack: string, soft: char)
    ensures var t := DropTop(stack, soft);
            && t <= stack
            && Hard(t, soft) == Hard(stack, soft)
            && (t != [] ==> t[|t| - 1] != soft)
  {
    if stack != [] && stack[|stack| - 1] == soft { HardDropTop(stack[..|stack| - 1], soft); }
  }

  lemma {:induction false} HardBottom(stack: string, soft: char)
    requires stack != [] && stack[0] != soft
    ensures Hard(stack, soft) != [] && Hard(stack, soft)[0] == stack[0]
  {
    if |stack| > 1 { HardBottom(stack[..|stack| - 1], soft); }
  }

  /** The bottom of the stack is a hard bracket, so discarding template brackets never empties it. */
  predicate HardBased(stack: string, soft: char) {
    stack != [] && stack[0] != soft
  }

  /** A closing bracket sees exactly the top of the hard stack. */
  lemma HardPop(stack: string, soft: char)
    requires HardBased(stack, soft)
    ensures var t, h := DropTop(stack, soft), Hard(stack, soft);
            && HardBased(t, soft) && h != [] && t[|t| - 1] == h[|h| - 1]
            && Hard(t[..|t| - 1], soft) == h[..|h| - 1]
            && (|t| == 1 <==> |h| == 1)
            && (|t| > 1 ==> HardBased(t[..|t| - 1], soft))
  {
    var t := DropTop(stack, soft);
    HardDropTop(stack, soft);
    HardBottom(stack, soft);
    if |t| > 1 { HardBottom(t[..|t| - 1], soft); }
  }

  // ----- One line, forward

  /** One move from a hard-based stack is one step of the reference machine. */
  ghost predicate FollowsStep(m: Move, h: Option<string>, end: nat, soft: char) {
    match h
    case None => m == Halt(Dead)
    case Some(t) =>
      if t == [] then m == Halt(Found(end))
      else m.Next? && HardBased(m.stack, soft) && Hard(m.stack, soft) == t
  }

  /** What a hard bracket does to the hard brackets on the stack. */
  function PopMatching(h: string, c: char): Option<string> {
    if h != [] && Flip(c) == h[|h| - 1] then Some(h[..|h| - 1]) else None
  }

  lemma MatchTopIsPop(stack: string, c: char, soft: char, end: nat)
    requires HardBased(stack, soft)
    ensures FollowsStep(MatchTop(stack, c, soft, end), PopMatching(Hard(stack, soft), c), end, soft)
  {
    HardPop(stack, soft);
  }

  lemma SoftMovesKeepHard(stack: string, soft: char, empty: Scan)
    requires HardBased(stack, soft)
    ensures FollowsStep(PopSoft(stack, soft, empty), Some(Hard(stack, soft)), 0, soft)
    ensures FollowsStep(EndStatement(stack, soft), Some(Hard(stack, soft)), 0, soft)
    ensures FollowsStep(Next(stack + [soft]), Some(Hard(stack, soft)), 0, soft)
    ensures FollowsStep(Next(stack), Some(Hard(stack, soft)), 0, soft)
    ensures Hard(stack, soft) != []
  {
    HardBottom(stack, soft);
    HardDropTop(stack, soft);
    HardPush(stack, soft, soft);
  }

  lemma PushIsStep(stack: string, c: char, soft: char)
    requires c != soft && (HardBased(stack, soft) || stack == [])
    ensures FollowsStep(Next(stack + [c]), Some(Hard(stack, soft) + [c]), 0, soft)
  {
    HardPush(stack, c, soft);
  }

  lemma ForwardMoveIsStep(line: string, i: nat, stack: string, m: Move, h: string)
    requires i < |line| && m == ForwardMove(line, i, stack) && h == Hard(stack, '<')
    requires HardBased(stack, '<') || (stack == [] && IsOpener(line[i]))
    ensures FollowsStep(m, Step(h, line[i]), i + 1, '<')
  {
    if IsOpener(line[i]) {
      PushIsStep(stack, line[i], '<');
    } else if IsCloser(line[i]) {
      MatchTopIsPop(stack, line[i], '<', i + 1);
      FlipInjective(h, line[i]);
    } else {
      SoftMovesKeepHard(stack, '<', Dead);
      SoftMovesKeepHard(stack, '<', Found(i + 1));
    }
  }

  lemma FlipInjective(h: string, c: char)
    requires IsCloser(c)
    ensures PopMatching(h, c) == Step(h, c)
  {
  }

  /** What a forward scan from `i` establishes. */
  ghost predicate ScansOn(r: Scan, o: Outcome, i: nat) {
    match o
    case Closed(n) => 0 < n && r == Found(i + n)
    case Broken => r == Dead
    case Pending(h) => r.Open? && HardBased(r.stack, '<') && Hard(r.stack, '<') == h
  }

  lemma {:induction false} ForwardLineIsHardScan(line: string, i: nat, stack: string)
    requires i <= |line|
    requires HardBased(stack, '<') || (stack == [] && i < |line| && IsOpener(line[i]))
    ensures ScansOn(ForwardLine(line, i, stack), HardScan(Hard(stack, '<'), line[i..]), i)
    decreases |line| - i
  {
    if i < |line| {
      assert line[i..][1..] == line[i + 1..];
      var m := ForwardMove(line, i, stack);
      ForwardMoveIsStep(line, i, stack, m, Hard(stack, '<'));
      if m.Next? { ForwardLineIsHardScan(line, i + 1, m.stack); }
    }
  }

  // ----- One line, backward

  /** The openers that the closers on a backward stack are waiting for. */
  function FlipAll(h: string): (o: string)
    ensures |o| == |h|
    ensures forall i :: 0 <= i < |h| ==> o[i] == Flip(h[i])
  {
    seq(|h|, i requires 0 <= i < |h| => Flip(h[i]))
  }

  /** One backward move from a hard-based stack is one step of the reference machine on the flipped character. */
  ghost predicate FollowsFlippedStep(m: Move, h: Option<string>, end: nat) {
    match h
    case None => m == Halt(Dead)
    case Some(t) =>
      if t == [] then m == Halt(Found(end))
      else m.Next? && HardBased(m.stack, '>') && FlipAll(Hard(m.stack, '>')) == t
  }

  lemma FlippedPop(h: string, c: char)
    requires IsOpener(c) && forall k :: 0 <= k < |h| ==> !IsOpener(h[k])
    ensures match PopMatching(h, c)
            case None => Step(FlipAll(h), Flip(c)) == None
            case Some(t) => Step(FlipAll(h), Flip(c)) == Some(FlipAll(t))
  {
    if h != [] { assert FlipAll(h[..|h| - 1]) == FlipAll(h)[..|h| - 1]; }
  }

  lemma FollowsFlipped(m: Move, h: Option<string>, end: nat)
    requires FollowsStep(m, h, end, '>')
    ensures FollowsFlippedStep(m, if h.None? then None else Some(FlipAll(h.value)), end)
  {
  }

  /** The stack of the backward scan holds no openers. */
  predicate NoOpeners(stack: string) {
    forall k :: 0 <= k < |stack| ==> !IsOpener(stack[k])
  }

  lemma {:induction false} HardNoOpeners(stack: string, soft: char)
    requires NoOpeners(stack)
    ensures NoOpeners(Hard(stack, soft))
  {
    if stack != [] { HardNoOpeners(stack[..|stack| - 1], soft); }
  }

  lemma {:induction false} DropTopNoOpeners(stack: string, soft: char)
    requires NoOpeners(stack)
    ensures NoOpeners(DropTop(stack, soft))
  {
    if stack != [] && stack[|stack| - 1] == soft { DropTopNoOpeners(stack[..|stack| - 1], soft); }
  }

  lemma BackwardMoveKeepsNoOpeners(line: string, i: nat, stack: string)
    requires i < |line| && NoOpeners(stack)
    ensures var m := BackwardMove(line, i, stack); m.Next? ==> NoOpeners(m.stack)
  {
    DropTopNoOpeners(stack, '>');
  }

  lemma SkippedIsPlain(line: string, i: nat)
    requires i < |line| && SkipsBefore(line, i)
    ensures IsPlain(line[i]) && IsPlain(line[i - 1])
  {
    if EndsWithOperator(line[..i]) { OperatorTail(line[..i]); }
  }

  lemma BackwardMoveIsStep(line: string, i: nat, stack: string)
    requires i < |line| && NoOpeners(stack)
    requires HardBased(stack, '>') || (stack == [] && IsCloser(line[i]))
    ensures FollowsFlippedStep(BackwardMove(line, i, stack), Step(FlipAll(Hard(stack, '>')), Flip(line[i])), i)
  {
    var c, h, m := line[i], Hard(stack, '>'), BackwardMove(line, i, stack);
    if IsCloser(c) {
      PushIsStep(stack, c, '>');
      FollowsFlipped(m, Some(h + [c]), i);
      assert FlipAll(h + [c]) == FlipAll(h) + [Flip(c)];
    } else if IsOpener(c) {
      MatchTopIsPop(stack, c, '>', i);
      HardNoOpeners(stack, '>');
      FlippedPop(h, c);
      FollowsFlipped(m, PopMatching(h, c), i);
    } else {
      SoftMovesKeepHard(stack, '>', Found(i));
      FollowsFlipped(m, Some(h), i);
    }
  }

  lemma MirrorLast(line: string, n: nat)
    requires 0 < n <= |line|
    ensures Mirror(line[..n]) == [Flip(line[n - 1])] + Mirror(line[..n - 1])
  {
    assert line[..n] == line[..n - 1] + [line[n - 1]];
    MirrorConcat(line[..n - 1], [line[n - 1]]);
    assert [line[n - 1]][1..] == "";
  }

  /** What a backward scan of `line[..n]` establishes. */
  ghost predicate ScansBack(r: Scan, o: Outcome, n: nat) {
    match o
    case Closed(k) => 0 < k <= n && r == Found(n - k)
    case Broken => r == Dead
    case Pending(h) => r.Open? && HardBased(r.stack, '>') && NoOpeners(r.stack) && FlipAll(Hard(r.stack, '>')) == h
  }

  lemma ScansBackNext(r: Scan, h: string, c: char, w: string, t: string, n: nat)
    requires Step(h, c) == Some(t) && t != [] && ScansBack(r, HardScan(t, w), n)
    ensures ScansBack(r, HardScan(h, [c] + w), n + 1)
  {
    assert ([c] + w)[0] == c && ([c] + w)[1..] == w;
  }

  lemma ScansBackHalt(r: Scan, h: string, c: char, w: string, n: nat)
    requires FollowsFlippedStep(Halt(r), Step(h, c), n)
    ensures ScansBack(r, HardScan(h, [c] + w), n + 1)
  {
    assert ([c] + w)[0] == c && ([c] + w)[1..] == w;
  }

  lemma {:induction false} BackwardLineIsHardScan(line: string, n: nat, stack: string)
    requires n <= |line| && NoOpeners(stack)
    requires HardBased(stack, '>') || (stack == [] && n > 0 && IsCloser(line[n - 1]))
    ensures ScansBack(BackwardLine(line, n, stack), HardScan(FlipAll(Hard(stack, '>')), Mirror(line[..n])), n)
    decreases n
  {
    if n > 0 {
      var h, c, w := FlipAll(Hard(stack, '>')), Flip(line[n - 1]), Mirror(line[..n - 1]);
      MirrorLast(line, n);
      BackwardMoveIsStep(line, n - 1, stack);
      var m := BackwardMove(line, n - 1, stack);
      if m.Next? {
        BackwardMoveKeepsNoOpeners(line, n - 1, stack);
        var t, r := FlipAll(Hard(m.stack, '>')), BackwardLine(line, n, stack);
        assert Step(h, c) == Some(t) && t != [];
        assert ScansBack(r, HardScan(t, w), n - 1) by {
          if SkipsBefore(line, n - 1) {
            SkippedIsPlain(line, n - 1);
            MirrorLast(line, n - 1);
            BackwardLineIsHardScan(line, n - 2, m.stack);
            ScansBackNext(r, t, Flip(line[n - 2]), Mirror(line[..n - 2]), t, n - 2);
          } else {
            BackwardLineIsHardScan(line, n - 1, m.stack);
          }
        }
        ScansBackNext(r, h, c, w, t, n - 1);
      } else {
        ScansBackHalt(m.result, h, c, w, n - 1);
      }
    }
  }

  // ----- The whole file as one text

  function Text(lines: seq<string>): string {
    if lines == [] then "" else lines[0] + Text(lines[1..])
  }

  function Offset(lines: seq<string>, l: nat): nat
    requires l <= |lines|
  {
    if l == 0 then 0 else Offset(lines, l - 1) + |lines[l - 1]|
  }

  /** The index in `Text` of a place. */
  function Index(lines: seq<string>, at: Place): nat
    requires at.line < |lines|
  {
    Offset(lines, at.line) + at.pos
  }

  predicate OnText(lines: seq<string>, at: Place) {
    at.line < |lines| && at.pos < |lines[at.line]|
  }

  /** Just past a character of the text, on the line of that character. */
  predicate PastText(lines: seq<string>, at: Place) {
    at.line < |lines| && 0 < at.pos <= |lines[at.line]|
  }

  lemma {:induction false} TextSplit(lines: seq<string>, l: nat)
    requires l <= |lines|
    ensures Text(lines) == Text(lines[..l]) + Text(lines[l..])
    ensures |Text(lines[..l])| == Offset(lines, l)
    decreases l
  {
    if l == 0 {
      assert lines[0..] == lines;
    } else {
      TextSplit(lines, l - 1);
      assert lines[l - 1..][1..] == lines[l..];
      TextSnoc(lines[..l - 1], lines[l - 1]);
      assert lines[..l - 1] + [lines[l - 1]] == lines[..l];
    }
  }

  lemma {:induction false} TextSnoc(lines: seq<string>, line: string)
    ensures Text(lines + [line]) == Text(lines) + line
  {
    if lines == [] {
      assert (lines + [line])[1..] == [];
    } else {
      assert (lines + [line])[1..] == lines[1..] + [line];
      TextSnoc(lines[1..], line);
    }
  }

  lemma TextAt(lines: seq<string>, l: nat, p: nat)
    requires l < |lines| && p <= |lines[l]|
    ensures Offset(lines, l) + p <= |Text(lines)|
    ensures Text(lines)[Offset(lines, l) + p..] == lines[l][p..] + Text(lines[l + 1..])
    ensures Text(lines)[..Offset(lines, l) + p] == Text(lines[..l]) + lines[l][..p]
    ensures p < |lines[l]| ==> Text(lines)[Offset(lines, l) + p] == lines[l][p]
  {
    TextSplit(lines, l);
    assert lines[l..][1..] == lines[l + 1..];
  }

  lemma {:induction false} OffsetMonotone(lines: seq<string>, l: nat, m: nat)
    requires l <= m <= |lines|
    ensures Offset(lines, l) <= Offset(lines, m)
    decreases m
  {
    if l < m { OffsetMonotone(lines, l, m - 1); }
  }

  /** A character of the text is at one place only. */
  lemma IndexInjective(lines: seq<string>, p: Place, q: Place)
    requires OnText(lines, p) && OnText(lines, q) && Index(lines, p) == Index(lines, q)
    ensures p == q
  {
    if p.line < q.line {
      OffsetMonotone(lines, p.line + 1, q.line);
    } else if q.line < p.line {
      OffsetMonotone(lines, q.line + 1, p.line);
    }
  }

  // ----- Both scanners on the whole text

  /** A scan of the text from index `a` that ends where the place says, or does not end. */
  ghost predicate EndsAsScanned(lines: seq<string>, p: Option<Place>, o: Outcome, a: nat) {
    match o
    case Closed(n) => p.Some? && PastText(lines, p.value) && Index(lines, p.value) == a + n
    case _ => p == None
  }

  lemma {:induction false} ScanWithin(h: string, w: string)
    ensures var o := HardScan(h, w); o.Closed? ==> o.n <= |w|
    decreases |w|
  {
    if w != [] && Step(h, w[0]).Some? { ScanWithin(Step(h, w[0]).value, w[1..]); }
  }

  lemma {:induction false} CloseAfterIsHardScan(lines: seq<string>, l: nat, i: nat, r: Scan, h: string)
    requires l < |lines| && i <= |lines[l]| && ScansOn(r, HardScan(h, lines[l][i..]), i)
    ensures EndsAsScanned(lines, CloseAfter(lines, l, r),
                          HardScan(h, lines[l][i..] + Text(lines[l + 1..])), Offset(lines, l) + i)
    decreases |lines| - l, 0
  {
    ScanConcat(h, lines[l][i..], Text(lines[l + 1..]));
    ScanWithin(h, lines[l][i..]);
    if r.Open? { CloseRestIsHardScan(lines, l + 1, r.stack); }
  }

  lemma {:induction false} CloseRestIsHardScan(lines: seq<string>, l: nat, stack: string)
    requires l <= |lines| && HardBased(stack, '<')
    ensures EndsAsScanned(lines, CloseRest(lines, l, stack),
                          HardScan(Hard(stack, '<'), Text(lines[l..])), Offset(lines, l))
    decreases |lines| - l, 1
  {
    if l < |lines| {
      ForwardLineIsHardScan(lines[l], 0, stack);
      CloseAfterIsHardScan(lines, l, 0, ForwardLine(lines[l], 0, stack), Hard(stack, '<'));
      assert lines[l][0..] == lines[l] && lines[l..][1..] == lines[l + 1..];
    }
  }

  lemma CloseIsHardScan(lines: seq<string>, at: Place)
    requires OnText(lines, at) && IsOpener(lines[at.line][at.pos])
    ensures var a := Index(lines, at);
            a < |Text(lines)| && EndsAsScanned(lines, Close(lines, at), HardScan("", Text(lines)[a..]), a)
  {
    TextAt(lines, at.line, at.pos);
    ForwardLineIsHardScan(lines[at.line], at.pos, "");
    CloseAfterIsHardScan(lines, at.line, at.pos, ForwardLine(lines[at.line], at.pos, ""), "");
  }

  ghost predicate StartsAsScanned(lines: seq<string>, p: Option<Place>, o: Outcome, b: nat) {
    match o
    case Closed(n) => p.Some? && OnText(lines, p.value) && Index(lines, p.value) + n == b
    case _ => p == None
  }

  lemma {:induction false} ReverseAfterIsHardScan(lines: seq<string>, l: nat, n: nat, r: Scan, h: string)
    requires l < |lines| && n <= |lines[l]| && ScansBack(r, HardScan(h, Mirror(lines[l][..n])), n)
    ensures StartsAsScanned(lines, ReverseAfter(lines, l, r),
                            HardScan(h, Mirror(Text(lines[..l]) + lines[l][..n])), Offset(lines, l) + n)
    decreases l + 1, 0
  {
    MirrorConcat(Text(lines[..l]), lines[l][..n]);
    ScanConcat(h, Mirror(lines[l][..n]), Mirror(Text(lines[..l])));
    if r.Open? { ReverseRestIsHardScan(lines, l, r.stack); }
  }

  lemma {:induction false} ReverseRestIsHardScan(lines: seq<string>, l: nat, stack: string)
    requires l <= |lines| && HardBased(stack, '>') && NoOpeners(stack)
    ensures StartsAsScanned(lines, ReverseRest(lines, l, stack),
                            HardScan(FlipAll(Hard(stack, '>')), Mirror(Text(lines[..l]))), Offset(lines, l))
    decreases l, 1
  {
    if l > 0 {
      var line := lines[l - 1];
      BackwardLineIsHardScan(line, |line|, stack);
      ReverseAfterIsHardScan(lines, l - 1, |line|, BackwardLine(line, |line|, stack), FlipAll(Hard(stack, '>')));
      assert line[..|line|] == line && lines[..l] == lines[..l - 1] + [line];
      TextSnoc(lines[..l - 1], line);
    }
  }

  lemma ReverseIsHardScan(lines: seq<string>, at: Place)
    requires OnText(lines, at) && IsCloser(lines[at.line][at.pos])
    ensures var b := Index(lines, at) + 1;
            b <= |Text(lines)| && StartsAsScanned(lines, Reverse(lines, at), HardScan("", Mirror(Text(lines)[..b])), b)
  {
    var n := at.pos + 1;
    TextAt(lines, at.line, n);
    BackwardLineIsHardScan(lines[at.line], n, "");
    assert FlipAll(Hard("", '>')) == "";
    ReverseAfterIsHardScan(lines, at.line, n, BackwardLine(lines[at.line], n, ""), "");
  }

  // ----- The main results

  /** From a hard opening bracket, the closing place is the end of the first balanced prefix, if there is one. */
  lemma CloseExact(lines: seq<string>, at: Place)
    requires OnText(lines, at) && IsOpener(lines[at.line][at.pos])
    ensures var t, a, r := Text(lines), Index(lines, at), Close(lines, at);
            && a < |t|
            && (r.Some? ==>
                  && PastText(lines, r.value)
                  && a < Index(lines, r.value) <= |t|
                  && Group(t[a..Index(lines, r.value)]))
            && (r == None ==> forall b :: a < b <= |t| ==> !Balanced(t[a..b]))
  {
    var t, a, r := Text(lines), Index(lines, at), Close(lines, at);
    CloseIsHardScan(lines, at);
    ScanIffGroup(t[a..]);
    forall b | a < b <= |t| ensures t[a..][..b - a] == t[a..b] { }
  }

  /** From a hard closing bracket, the opening place is the start of the shortest balanced suffix, if there is one. */
  lemma ReverseExact(lines: seq<string>, at: Place)
    requires OnText(lines, at) && IsCloser(lines[at.line][at.pos])
    ensures var t, b, r := Text(lines), Index(lines, at) + 1, Reverse(lines, at);
            && b <= |t|
            && (r.Some? ==>
                  && OnText(lines, r.value)
                  && Index(lines, r.value) < b
                  && Group(t[Index(lines, r.value)..b]))
            && (r == None ==> forall a :: 0 <= a < b ==> !Balanced(t[a..b]))
  {
    var t, b, r := Text(lines), Index(lines, at) + 1, Reverse(lines, at);
    ReverseIsHardScan(lines, at);
    ScanIffGroup(Mirror(t[..b]));
    forall a | 0 <= a < b ensures Mirror(t[..b])[..b - a] == Mirror(t[a..b]) {
      assert t[..b] == t[..a] + t[a..b];
      MirrorConcat(t[..a], t[a..b]);
    }
    if r.Some? {
      GroupIffMirror(t[Index(lines, r.value)..b]);
    } else {
      forall a | 0 <= a < b ensures !Balanced(t[a..b]) {
        BalancedIffMirror(t[a..b]);
      }
    }
  }

  lemma BalancedIffMirror(w: string)
    ensures Balanced(w) <==> Balanced(Mirror(w))
  {
    BalancedIffRun(w);
    BalancedIffRun(Mirror(w));
    MirrorMirror(w);
    if Balanced(w) { RunMirror("", w); }
    if Balanced(Mirror(w)) { RunMirror("", Mirror(w)); }
  }

  /** A group that starts with an opening bracket ends with its partner. */
  lemma GroupEnds(w: string)
    requires Group(w) && IsOpener(w[0])
    ensures |w| > 1 && w[|w| - 1] == Flip(w[0])
  {
    var k :| SplitsAt(w, k) && Balanced(w[1..k]) && Balanced(w[k + 1..]);
    var u := w[..k + 1];
    assert u[1..k] == w[1..k] && u[k + 1..] == "" && SplitsAt(u, k);
    assert Balanced(u);
  }

  /** A group in the text is what a scan from either of its ends finds. */
  lemma ScansOfGroup(t: string, a: nat, b: nat)
    requires a < b <= |t| && Group(t[a..b])
    ensures HardScan("", t[a..]) == Closed(b - a)
    ensures HardScan("", Mirror(t[..b])) == Closed(b - a)
  {
    assert t[a..][..b - a] == t[a..b];
    ScanIffGroup(t[a..]);
    var m := Mirror(t[..b]);
    assert t[..b] == t[..a] + t[a..b];
    MirrorConcat(t[..a], t[a..b]);
    assert m[..b - a] == Mirror(t[a..b]);
    GroupIffMirror(t[a..b]);
    ScanIffGroup(m);
  }

  /** Matching forward and then backward returns to the bracket it started from. */
  lemma ReverseUndoesClose(lines: seq<string>, at: Place)
    requires OnText(lines, at) && IsOpener(lines[at.line][at.pos]) && Close(lines, at).Some?
    ensures var e := Close(lines, at).value;
            && PastText(lines, e)
            && lines[e.line][e.pos - 1] == Flip(lines[at.line][at.pos])
            && Reverse(lines, Place(e.line, e.pos - 1)) == Some(at)
  {
    var t, a, e := Text(lines), Index(lines, at), Close(lines, at).value;
    CloseExact(lines, at);
    var b, back := Index(lines, e), Place(e.line, e.pos - 1);
    assert t[a] == lines[at.line][at.pos] by { TextAt(lines, at.line, at.pos); }
    assert t[b - 1] == lines[back.line][back.pos] by { TextAt(lines, back.line, back.pos); }
    assert t[b - 1] == Flip(t[a]) by { GroupEnds(t[a..b]); }
    ScansOfGroup(t, a, b);
    ReverseIsHardScan(lines, back);
    IndexInjective(lines, at, Reverse(lines, back).value);
  }

  /** Matching backward and then forward returns just past the bracket it started from. */
  lemma CloseUndoesReverse(lines: seq<string>, at: Place)
    requires OnText(lines, at) && IsCloser(lines[at.line][at.pos]) && Reverse(lines, at).Some?
    ensures var s := Reverse(lines, at).value;
            && OnText(lines, s)
            && lines[s.line][s.pos] == Flip(lines[at.line][at.pos])
            && Close(lines, s) == Some(Place(at.line, at.pos + 1))
  {
    var t, b, s := Text(lines), Index(lines, at) + 1, Reverse(lines, at).value;
    ReverseExact(lines, at);
    var a := Index(lines, s);
    assert t[a] == lines[s.line][s.pos] by { TextAt(lines, s.line, s.pos); }
    assert t[b - 1] == lines[at.line][at.pos] by { TextAt(lines, at.line, at.pos); }
    assert t[b - 1] == Flip(t[a]) && IsOpener(t[a]) by {
      GroupStarts(t[a..b]);
      GroupEnds(t[a..b]);
    }
    ScansOfGroup(t, a, b);
    CloseIsHardScan(lines, s);
    var e := Close(lines, s).value;
    IndexInjective(lines, at, Place(e.line, e.pos - 1));
  }

  /** A group that ends with a closing bracket starts with an opening one. */
  lemma GroupStarts(w: string)
    requires Group(w) && IsCloser(w[|w| - 1])
    ensures IsOpener(w[0])
  {
    if IsPlain(w[0]) {
      assert w[..1][1..] == "";
      assert Balanced(w[..1]);
    }
  }

  // ----- The scanners over many lines

  /** From a hard bracket, the place just past the first balanced stretch of text; failure means that there is none. */
  method CloseExpression(lines: seq<string>, startline: nat, startpos: nat)
    returns (line: string, linenum: nat, pos: int)
    requires startline < |lines| && startpos < |lines[startline]|
    ensures match Close(lines, Place(startline, startpos))
            case Some(p) => linenum == p.line < |lines| && pos == p.pos && line == lines[linenum]
            case None => linenum == |lines| && pos == -1 && line in lines
    ensures var l, c := lines[startline], lines[startline][startpos];
            !(IsOpener(c) || c == '<') || (c == '<' && startpos + 1 < |l| && (l[startpos + 1] == '<' || l[startpos + 1] == '='))
            ==> pos == -1
    ensures IsOpener(lines[startline][startpos]) ==>
              var t, a := Text(lines), Offset(lines, startline) + startpos;
              if pos == -1 then forall b :: a < b <= |t| ==> !Balanced(t[a..b])
              else
                && linenum < |lines| && 0 < pos <= |line|
                && a < Offset(lines, linenum) + pos <= |t| && Group(t[a..Offset(lines, linenum) + pos])
  {
    line, linenum, pos := ScanForward(lines, startline, startpos);
    if IsOpener(lines[startline][startpos]) { CloseExact(lines, Place(startline, startpos)); }
  }

  /** The loop over the lines. */
  method ScanForward(lines: seq<string>, startline: nat, startpos: nat)
    returns (line: string, linenum: nat, pos: int)
    requires startline < |lines| && startpos < |lines[startline]|
    ensures match Close(lines, Place(startline, startpos))
            case Some(p) => linenum == p.line < |lines| && pos == p.pos && line == lines[linenum]
            case None => linenum == |lines| && pos == -1 && line in lines
  {
    linenum := startline;
    line := lines[linenum];
    var c := line[startpos];
    if !(c == '(' || c == '{' || c == '[' || c == '<')
       || (c == '<' && startpos + 1 < |line| && (line[startpos + 1] == '<' || line[startpos + 1] == '=')) {
      return line, |lines|, -1;
    }
    var r := FindEndOfExpressionInLine(line, startpos, "");
    ghost var goal := Close(lines, Place(startline, startpos));
    assert goal == CloseAfter(lines, linenum, r);
    while r.Open? && r.stack != [] && linenum < |lines| - 1
      invariant startline <= linenum < |lines|
      invariant line == lines[linenum]
      invariant goal == CloseAfter(lines, linenum, r)
      decreases |lines| - linenum
    {
      assert goal == CloseRest(lines, linenum + 1, r.stack);
      linenum := linenum + 1;
      line := lines[linenum];
      r := FindEndOfExpressionInLine(line, 0, r.stack);
    }
    if r.Found? { return line, linenum, r.pos; }
    assert goal == None;
    return line, |lines|, -1;
  }

  /** From a hard bracket, the place of the bracket that opens the shortest balanced stretch before it. */
  method ReverseCloseExpression(lines: seq<string>, startline: nat, startpos: nat)
    returns (line: string, linenum: nat, pos: int)
    requires startline < |lines| && startpos < |lines[startline]|
    ensures match Reverse(lines, Place(startline, startpos))
            case Some(p) => linenum == p.line < |lines| && pos == p.pos && line == lines[linenum]
            case None => linenum == 0 && pos == -1 && line in lines
    ensures var c := lines[startline][startpos]; !(IsCloser(c) || c == '>') ==> pos == -1
    ensures IsCloser(lines[startline][startpos]) ==>
              var t, b := Text(lines), Offset(lines, startline) + startpos + 1;
              if pos == -1 then b <= |t| && forall a :: 0 <= a < b ==> !Balanced(t[a..b])
              else
                && linenum < |lines| && 0 <= pos < |line|
                && Offset(lines, linenum) + pos < b <= |t| && Group(t[Offset(lines, linenum) + pos..b])
  {
    line, linenum, pos := ScanBackward(lines, startline, startpos);
    if IsCloser(lines[startline][startpos]) {
      ghost var at := Place(startline, startpos);
      ReverseExact(lines, at);
      assert Index(lines, at) + 1 == Offset(lines, startline) + startpos + 1;
      if pos != -1 { assert Reverse(lines, at) == Some(Place(linenum, pos)); }
    }
  }

  /** The loop over the lines. */
  method ScanBackward(lines: seq<string>, startline: nat, startpos: nat)
    returns (line: string, linenum: nat, pos: int)
    requires startline < |lines| && startpos < |lines[startline]|
    ensures match Reverse(lines, Place(startline, startpos))
            case Some(p) => linenum == p.line < |lines| && pos == p.pos && line == lines[linenum]
            case None => linenum == 0 && pos == -1 && line in lines
  {
    linenum := startline;
    line := lines[linenum];
    var c := line[startpos];
    if !(c == ')' || c == '}' || c == ']' || c == '>') {
      return line, 0, -1;
    }
    var r := FindStartOfExpressionInLine(line, startpos, "");
    ghost var goal := Reverse(lines, Place(startline, startpos));
    assert goal == ReverseAfter(lines, linenum, r);
    while r.Open? && r.stack != [] && linenum > 0
      invariant linenum <= startline
      invariant line == lines[linenum]
      invariant goal == ReverseAfter(lines, linenum, r)
      decreases linenum
    {
      assert goal == ReverseRest(lines, linenum, r.stack);
      linenum := linenum - 1;
      line := lines[linenum];
      r := FindStartOfExpressionInLine(line, |line| - 1, r.stack);
    }
    if r.Found? { return line, linenum, r.pos; }
    assert goal == None;
    return line, 0, -1;
  }
}
