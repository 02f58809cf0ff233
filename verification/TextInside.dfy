/**
  The linter's third, independent matcher: `_GetTextInside`, which looks only at hard
  brackets and keeps a stack of the closing punctuation it expects.
*/
module TextInside {
  import opened Options
  import opened Brackets
  import opened Scanner
  import opened Matching

  /** Scanning one more character, with the expected closers as the stack. */
  function Advance(expected: string, c: char): Option<string>
    requires expected != []
  {
    if c == expected[|expected| - 1] then Some(expected[..|expected| - 1])
    else if IsCloser(c) then None
    else if IsOpener(c) then Some(expected + [Flip(c)])
    else Some(expected)
  }

  lemma AdvanceIsStep(expected: string, c: char)
    requires expected != [] && forall k :: 0 <= k < |expected| ==> IsCloser(expected[k])
    ensures match Advance(expected, c)
            case None => Step(FlipAll(expected), c) == None
            case Some(e) => Step(FlipAll(expected), c) == Some(FlipAll(e))
  {
    var open := FlipAll(expected);
    assert FlipAll(expected + [Flip(c)]) == open + [c] || !IsOpener(c);
    assert FlipAll(expected[..|expected| - 1]) == open[..|open| - 1];
  }

  /** What is still to be scanned at `position` decides how the scan from `start` ends. */
  ghost predicate ScanFrom(text: string, start: nat, position: nat, expected: string)
    requires 0 < start <= position <= |text|
  {
    HardScan("", text[start - 1..]) ==
      if expected == [] then Closed(position - start + 1)
      else HardScan(FlipAll(expected), text[position..]).Shift(position - start + 1)
  }

  lemma ScanAdvances(text: string, start: nat, position: nat, expected: string)
    requires 0 < start <= position < |text| && expected != []
    requires forall k :: 0 <= k < |expected| ==> IsCloser(expected[k])
    requires ScanFrom(text, start, position, expected)
    ensures match Advance(expected, text[position])
            case None => HardScan("", text[start - 1..]) == Broken
            case Some(e) => ScanFrom(text, start, position + 1, e)
  {
    AdvanceIsStep(expected, text[position]);
    assert text[position..][1..] == text[position + 1..];
  }

  /** `_GetTextInside`, given where its pattern matched, if it did: a match ends just behind a hard bracket. */
  method GetTextInside(text: string, matchEnd: Option<nat>) returns (r: Option<string>)
    requires matchEnd.Some? ==> 0 < matchEnd.value <= |text| && IsOpener(text[matchEnd.value - 1])
    ensures r.Some? <==> matchEnd.Some? && ForwardLine(text, matchEnd.value - 1, "").Found?
    ensures r.Some? ==>
              var start, e := matchEnd.value, ForwardLine(text, matchEnd.value - 1, "").pos;
              start < e <= |text| && r.value == text[start..e - 1]
  {
    if matchEnd.None? { return None; }
    r := ScanInside(text, matchEnd.value);
  }

  /**
    The scan from the bracket just before `start`.  It returns what the forward scanner
    encloses, although it knows nothing of template brackets.
  */
  method ScanInside(text: string, start: nat) returns (r: Option<string>)
    requires 0 < start <= |text| && IsOpener(text[start - 1])
    ensures r.Some? <==> ForwardLine(text, start - 1, "").Found?
    ensures r.Some? ==>
              var e := ForwardLine(text, start - 1, "").pos;
              start < e <= |text| && r.value == text[start..e - 1]
  {
    var expected := [Flip(text[start - 1])];
    var position := start;
    ForwardLineIsHardScan(text, start - 1, "");
    assert ScanFrom(text, start, start, expected) by {
      assert text[start - 1..][1..] == text[start..];
      assert "" + [text[start - 1]] == FlipAll(expected);
    }
    while expected != [] && position < |text|
      invariant start <= position <= |text|
      invariant forall k :: 0 <= k < |expected| ==> IsCloser(expected[k])
      invariant ScanFrom(text, start, position, expected)
      invariant expected == [] ==> position > start
      decreases |text| - position
    {
      ScanAdvances(text, start, position, expected);
      if text[position] == expected[|expected| - 1] {
        expected := expected[..|expected| - 1];
      } else if text[position] == ')' || text[position] == '}' || text[position] == ']' {
        return None;
      } else if text[position] == '(' || text[position] == '{' || text[position] == '[' {
        expected := expected + [Flip(text[position])];
      }
      position := position + 1;
    }
    if expected != [] { return None; }
    r := Some(text[start..position - 1]);
  }
}
