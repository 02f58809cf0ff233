/**
  Collapsing string and character literals of a line (build-support/cpplint.py), so that
  later checks see only `""` and `''`.  Lines hold no newline.
*/
module Collapse {
  import opened Scanner

  predicate IsQuote(c: char) { c == '\'' || c == '"' }

  predicate QuoteFree(s: string) {
    forall i :: 0 <= i < |s| ==> !IsQuote(s[i])
  }

  /** The index of the first quote of either kind, or -1. */
  function FirstQuote(s: string): (q: int)
    ensures -1 <= q < |s|
    ensures if q < 0 then QuoteFree(s) else IsQuote(s[q]) && QuoteFree(s[..q])
  {
    if s == [] then -1 else if IsQuote(s[0]) then 0 else
    var q := FirstQuote(s[1..]);
    assert q >= 0 ==> s[..q + 1] == [s[0]] + s[1..][..q];
    if q < 0 then -1 else q + 1
  }

  /** `s.find(c)` */
  function Index(s: string, c: char): (j: int)
    ensures -1 <= j < |s|
    ensures if j < 0 then c !in s else s[j] == c && c !in s[..j]
  {
    if s == [] then -1 else if s[0] == c then 0 else
    var j := Index(s[1..], c);
    assert j >= 0 ==> s[..j + 1] == [s[0]] + s[1..][..j];
    if j < 0 then -1 else j + 1
  }

  predicate IsHex(c: char) {
    '0' <= c <= '9' || 'a' <= c <= 'f' || 'A' <= c <= 'F'
  }

  predicate AllHex(s: string) {
    forall i :: 0 <= i < |s| ==> IsHex(s[i])
  }

  /** `(?:0[bBxX]?|[1-9])[0-9a-fA-F]*$` */
  predicate IsNumber(t: string) {
    && t != []
    && (|| ('0' <= t[0] <= '9' && AllHex(t[1..]))
        || (t[0] == '0' && |t| > 1 && (t[1] == 'b' || t[1] == 'B' || t[1] == 'x' || t[1] == 'X') && AllHex(t[2..])))
  }

  /** A number starts at `k`, on a word boundary, and runs to the end. */
  predicate NumberFrom(head: string, k: nat) {
    k < |head| && (k == 0 || !IsWordChar(head[k - 1])) && IsNumber(head[k..])
  }

  predicate EndsWithNumber(head: string) {
    exists k :: 0 <= k < |head| && NumberFrom(head, k)
  }

  /** The length of `(?:'?[0-9a-zA-Z_])*`, greedily. */
  function LiteralLength(s: string): (n: nat)
    ensures n <= |s|
  {
    if s == [] then 0
    else if IsWordChar(s[0]) then 1 + LiteralLength(s[1..])
    else if s[0] == '\'' && |s| > 1 && IsWordChar(s[1]) then 2 + LiteralLength(s[2..])
    else 0
  }

  /** Without its digit separators. */
  function Unquote(s: string): string {
    if s == [] then [] else (if s[0] == '\'' then [] else [s[0]]) + Unquote(s[1..])
  }

  /** One round of the loop: the rest stays as it is, or a piece of output and a shorter rest. */
  datatype Cut = Whole | Piece(out: string, rest: string)

  /** The cut at the quote at `q`, which may be a digit separator behind a number. */
  function CutAt(s: string, q: nat, number: bool): (c: Cut)
    requires q < |s| && (number ==> q > 0)
    ensures c.Piece? ==> |c.rest| < |s| && c.rest == s[|s| - |c.rest|..]
  {
    var head, tail := s[..q], s[q + 1..];
    if s[q] == '\'' && number then
      var n := LiteralLength(s[q..]);
      Piece(head + Unquote(s[q..][..n]), s[q..][n..])
    else
      var j := Index(tail, s[q]);
      if j < 0 then Whole else Piece(head + [s[q], s[q]], tail[j + 1..])
  }

  function FirstCut(s: string): (c: Cut)
    ensures c.Piece? ==> |c.rest| < |s| && c.rest == s[|s| - |c.rest|..]
  {
    var q := FirstQuote(s);
    if q < 0 then Whole else CutAt(s, q, EndsWithNumber(s[..q]))
  }

  /** The collapsed line. */
  function Collapse(s: string): string
    decreases |s|
  {
    match FirstCut(s)
    case Whole => s
    case Piece(out, rest) => out + Collapse(rest)
  }

  /** A line of which the first cut is known. */
  function Assemble(s: string, c: Cut): string {
    match c
    case Whole => s
    case Piece(out, rest) => out + Collapse(rest)
  }

  function Behind(x: string, c: Cut): Cut {
    match c
    case Whole => Whole
    case Piece(out, rest) => Piece(x + out, rest)
  }

  lemma AssembleBehind(x: string, y: string, c: Cut)
    ensures Assemble(x + y, Behind(x, c)) == x + Assemble(y, c)
  {
  }

  /** The body of the loop. */
  method CutOnce(elided: string) returns (c: Cut)
    ensures c == FirstCut(elided)
  {
    var q := FirstQuote(elided);
    if q < 0 { return Whole; }
    var head, quote, tail := elided[..q], elided[q], elided[q + 1..];
    if quote == '"' {
      var secondQuote := Index(tail, '"');
      if secondQuote >= 0 { return Piece(head + "\"\"", tail[secondQuote + 1..]); }
      return Whole;
    }
    if EndsWithNumber(head) {
      var literal := ['\''] + tail;
      assert literal == elided[q..];
      var n := LiteralLength(literal);
      return Piece(head + Unquote(literal[..n]), literal[n..]);
    }
    var secondQuote := Index(tail, '\'');
    if secondQuote >= 0 { return Piece(head + "''", tail[secondQuote + 1..]); }
    return Whole;
  }

  /** The rest of the line gets shorter in every round, also at a digit separator, so the loop ends. */
  method CollapseStrings(line: string) returns (collapsed: string)
    ensures collapsed == Collapse(line)
  {
    var elided := line;
    collapsed := "";
    while true
      invariant collapsed + Collapse(elided) == Collapse(line)
      decreases |elided|
    {
      var c := CutOnce(elided);
      if c.Whole? { return collapsed + elided; }
      ghost var before := collapsed;
      collapsed := collapsed + c.out;
      elided := c.rest;
      assert before + (c.out + Collapse(elided)) == collapsed + Collapse(elided);
    }
  }

  // ----- The shape of the result

  /** Text whose only quotes are adjacent pairs. */
  predicate OnlyPairs(w: string) {
    || w == []
    || (!IsQuote(w[0]) && OnlyPairs(w[1..]))
    || (IsQuote(w[0]) && |w| > 1 && w[1] == w[0] && OnlyPairs(w[2..]))
  }

  /** Nothing, or text whose first quote has no partner. */
  predicate Unmatched(w: string) {
    w == [] || (FirstQuote(w) >= 0 && w[FirstQuote(w)] !in w[FirstQuote(w) + 1..])
  }

  lemma {:induction false} OnlyPairsConcat(u: string, v: string)
    requires OnlyPairs(u) && OnlyPairs(v)
    ensures OnlyPairs(u + v)
    decreases |u|
  {
    if u == [] {
      assert u + v == v;
    } else if !IsQuote(u[0]) {
      assert (u + v)[1..] == u[1..] + v;
      OnlyPairsConcat(u[1..], v);
    } else {
      assert (u + v)[2..] == u[2..] + v;
      OnlyPairsConcat(u[2..], v);
    }
  }

  lemma {:induction false} QuoteFreePairs(u: string)
    requires QuoteFree(u)
    ensures OnlyPairs(u)
  {
    if u != [] { QuoteFreePairs(u[1..]); }
  }

  lemma {:induction false} UnquoteQuoteFree(s: string, n: nat)
    requires n == LiteralLength(s)
    ensures QuoteFree(Unquote(s[..n]))
    decreases |s|
  {
    if s == [] || n == 0 {
      assert s[..n] == [];
    } else if IsWordChar(s[0]) {
      UnquoteQuoteFree(s[1..], n - 1);
      assert s[..n][1..] == s[1..][..n - 1];
    } else {
      UnquoteQuoteFree(s[2..], n - 2);
      assert s[..n][1..][1..] == s[2..][..n - 2];
      assert s[..n][1] == s[1];
    }
  }

  lemma CutShape(s: string, q: int, c: Cut)
    requires q == FirstQuote(s) && c == FirstCut(s)
    ensures if c.Whole? then OnlyPairs(s) || Unmatched(s) else OnlyPairs(c.out)
  {
    if q < 0 {
      QuoteFreePairs(s);
    } else if s[q] == '\'' && EndsWithNumber(s[..q]) {
      NumberShape(s[..q], s[q..], LiteralLength(s[q..]));
    } else {
      PairShape(s[..q], s[q]);
    }
  }

  lemma PairShape(head: string, quote: char)
    requires QuoteFree(head) && IsQuote(quote)
    ensures OnlyPairs(head + [quote, quote])
  {
    QuoteFreePairs(head);
    assert [quote, quote][2..] == [];
    OnlyPairsConcat(head, [quote, quote]);
  }

  lemma NumberShape(head: string, l: string, n: nat)
    requires QuoteFree(head) && n == LiteralLength(l)
    ensures OnlyPairs(head + Unquote(l[..n]))
  {
    QuoteFreePairs(head);
    UnquoteQuoteFree(l, n);
    QuoteFreePairs(Unquote(l[..n]));
    OnlyPairsConcat(head, Unquote(l[..n]));
  }

  predicate EndsWith(s: string, v: string) {
    |v| <= |s| && s[|s| - |v|..] == v
  }

  /** First only pairs, and then at most an untouched rest of the line whose first quote is not closed. */
  ghost predicate Shaped(s: string, out: string, pairs: string, rest: string) {
    out == pairs + rest && OnlyPairs(pairs) && Unmatched(rest) && EndsWith(s, rest)
  }

  lemma EndsWithRest(whole: string, s: string, v: string)
    requires EndsWith(whole, s) && EndsWith(s, v)
    ensures EndsWith(whole, v)
  {
    assert whole[|whole| - |v|..] == whole[|whole| - |s|..][|s| - |v|..];
  }

  lemma {:induction false} CollapseShape(s: string) returns (pairs: string, rest: string)
    ensures Shaped(s, Collapse(s), pairs, rest)
    decreases |s|
  {
    var c := FirstCut(s);
    CutShape(s, FirstQuote(s), c);
    if c.Whole? {
      assert s == s + [] == [] + s && s[|s|..] == [] && s[0..] == s;
      if OnlyPairs(s) { pairs, rest := s, ""; } else { pairs, rest := "", s; }
    } else {
      pairs, rest := CollapseShape(c.rest);
      ShapedPiece(s, c.out, c.rest, Collapse(c.rest), pairs, rest);
      pairs := c.out + pairs;
    }
  }

  lemma ShapedPiece(s: string, out: string, t: string, collapsed: string, pairs: string, rest: string)
    requires EndsWith(s, t) && OnlyPairs(out) && Shaped(t, collapsed, pairs, rest)
    ensures Shaped(s, out + collapsed, out + pairs, rest)
  {
    Associate(out, pairs, rest);
    OnlyPairsConcat(out, pairs);
    EndsWithRest(s, t, rest);
  }

  // ----- Collapsing twice

  lemma {:induction false} FirstQuoteAfter(x: string, y: string)
    requires QuoteFree(x)
    ensures FirstQuote(x + y) == if FirstQuote(y) < 0 then -1 else |x| + FirstQuote(y)
    decreases |x|
  {
    if x == [] {
      assert x + y == y;
    } else {
      assert (x + y)[1..] == x[1..] + y;
      FirstQuoteAfter(x[1..], y);
    }
  }

  lemma NumberIsWord(t: string)
    requires IsNumber(t)
    ensures forall i :: 0 <= i < |t| ==> IsWordChar(t[i])
  {
    forall i | 0 <= i < |t| ensures IsWordChar(t[i]) {
      if i >= 1 { assert AllHex(t[1..]) ==> IsHex(t[1..][i - 1]); }
      if i >= 2 { assert AllHex(t[2..]) ==> IsHex(t[2..][i - 2]); }
    }
  }

  /** In front of a character that is no part of a word, more text does not change how a number ends. */
  lemma EndsWithNumberAfter(x: string, h: string)
    requires h != [] && !IsWordChar(h[0])
    ensures EndsWithNumber(x + h) <==> EndsWithNumber(h)
  {
    var s := x + h;
    if EndsWithNumber(h) {
      var k :| 0 <= k < |h| && NumberFrom(h, k);
      assert h[k..][0] == h[k];
      NumberIsWord(h[k..]);
      assert s[|x| + k..] == h[k..];
      assert NumberFrom(s, |x| + k);
    }
    if EndsWithNumber(s) {
      var k :| 0 <= k < |s| && NumberFrom(s, k);
      NumberIsWord(s[k..]);
      assert forall i :: k <= i < |s| ==> IsWordChar(s[i]) by {
        forall i | k <= i < |s| ensures IsWordChar(s[i]) { assert s[k..][i - k] == s[i]; }
      }
      assert s[|x|] == h[0];
      assert s[k..] == h[k - |x|..];
      assert NumberFrom(h, k - |x|);
    }
  }

  lemma Associate(x: string, y: string, z: string)
    ensures (x + y) + z == x + (y + z)
  {
  }

  lemma CutAtAfter(x: string, y: string, s: string, q: nat, p: nat, number: bool, c: Cut)
    requires s == x + y && q < |y| && p == |x| + q && (number ==> q > 0) && c == CutAt(y, q, number)
    ensures CutAt(s, p, number) == Behind(x, c)
  {
    assert s[..p] == x + y[..q] && s[p] == y[q] && s[p..] == y[q..] && s[p + 1..] == y[q + 1..] by {
      SlicesAfter(x, y, s, q, p);
    }
    if y[q] == '\'' && number {
      var n := LiteralLength(y[q..]);
      NumberPiece(y, q, n, y[..q], Unquote(y[q..][..n]), y[q..][n..]);
      NumberPiece(s, p, n, x + y[..q], Unquote(y[q..][..n]), y[q..][n..]);
      Associate(x, y[..q], Unquote(y[q..][..n]));
    } else {
      QuotePiece(y, q, number, y[..q], y[q], y[q + 1..]);
      QuotePiece(s, p, number, x + y[..q], y[q], y[q + 1..]);
      Associate(x, y[..q], [y[q], y[q]]);
    }
  }

  /** A cut at a quote that is no digit separator. */
  function PairCut(head: string, quote: char, tail: string): Cut {
    var j := Index(tail, quote);
    if j < 0 then Whole else Piece(head + [quote, quote], tail[j + 1..])
  }

  lemma QuotePiece(s: string, q: nat, number: bool, head: string, quote: char, tail: string)
    requires q < |s| && (number ==> q > 0) && !(quote == '\'' && number)
    requires head == s[..q] && quote == s[q] && tail == s[q + 1..]
    ensures CutAt(s, q, number) == PairCut(head, quote, tail)
  {
  }

  lemma NumberPiece(s: string, q: nat, n: nat, head: string, digits: string, rest: string)
    requires 0 < q < |s| && s[q] == '\'' && n == LiteralLength(s[q..])
    requires head == s[..q] && digits == Unquote(s[q..][..n]) && rest == s[q..][n..]
    ensures CutAt(s, q, true) == Piece(head + digits, rest)
  {
  }

  lemma SlicesAfter(x: string, y: string, s: string, q: nat, p: nat)
    requires s == x + y && q < |y| && p == |x| + q
    ensures s[..p] == x + y[..q] && s[p] == y[q] && s[p..] == y[q..] && s[p + 1..] == y[q + 1..]
  {
  }

  /** A digit separator that turns out to be none leaves the text in front of it. */
  lemma CutAtSeparator(x: string, y: string)
    requires x != [] && y != [] && y[0] == '\'' && LiteralLength(y) == 0
    ensures CutAt(x + y, |x|, true) == Piece(x, y)
  {
    assert (x + y)[..|x|] == x && (x + y)[|x|..] == y;
    assert y[..0] == [] && y[0..] == y && x + Unquote([]) == x;
  }

  lemma NumberAfter(x: string, y: string, q: nat)
    requires q < |y| && LiteralLength(y) == 0 && (q == 0 ==> !EndsWithNumber(x))
    ensures EndsWithNumber((x + y)[..|x| + q]) == EndsWithNumber(y[..q])
  {
    assert (x + y)[..|x| + q] == x + y[..q];
    if q > 0 {
      assert y[..q][0] == y[0];
      EndsWithNumberAfter(x, y[..q]);
    } else {
      assert x + y[..0] == x;
    }
  }

  lemma CollapseStep(s: string, c: Cut)
    requires FirstCut(s) == c
    ensures Collapse(s) == Assemble(s, c)
  {
  }

  /** The number in front of the quote matters only if that is a single one. */
  lemma FirstCutIs(s: string, q: nat, number: bool)
    requires FirstQuote(s) == q && (number ==> q > 0)
    requires s[q] == '"' || EndsWithNumber(s[..q]) == number
    ensures FirstCut(s) == CutAt(s, q, number)
  {
  }

  lemma CollapseAfterQuote(x: string, y: string, q: nat, number: bool, c: Cut)
    requires QuoteFree(x) && FirstQuote(y) == q && (number ==> q > 0) && c == CutAt(y, q, number)
    requires y[q] == '"' || EndsWithNumber(y[..q]) == EndsWithNumber((x + y)[..|x| + q]) == number
    ensures Collapse(x + y) == x + Collapse(y)
  {
    var s, d, p := x + y, Behind(x, c), |x| + q;
    assert Collapse(y) == Assemble(y, c) by {
      FirstCutIs(y, q, number);
      CollapseStep(y, c);
    }
    assert FirstCut(s) == CutAt(s, p, number) by {
      FirstQuoteAfter(x, y);
      FirstCutIs(s, p, number);
    }
    assert CutAt(s, p, number) == d by { CutAtAfter(x, y, s, q, p, number, c); }
    assert Collapse(s) == Assemble(s, d) by { CollapseStep(s, d); }
    AssembleBehind(x, y, c);
  }

  lemma CollapseAfterSeparator(x: string, y: string)
    requires QuoteFree(x) && EndsWithNumber(x) && y != [] && y[0] == '\'' && LiteralLength(y) == 0
    ensures Collapse(x + y) == x + Collapse(y)
  {
    FirstQuoteAfter(x, y);
    assert (x + y)[..|x|] == x;
    CutAtSeparator(x, y);
    FirstCutIs(x + y, |x|, true);
    CollapseStep(x + y, Piece(x, y));
  }

  /** Text without quotes in front of a text that does not continue a literal is left alone. */
  lemma CollapseAfter(x: string, y: string)
    requires QuoteFree(x) && LiteralLength(y) == 0
    ensures Collapse(x + y) == x + Collapse(y)
  {
    var q := FirstQuote(y);
    if q < 0 {
      FirstQuoteAfter(x, y);
    } else if q == 0 && y[0] == '\'' && EndsWithNumber(x) {
      CollapseAfterSeparator(x, y);
    } else {
      if y[q] != '"' { NumberAfter(x, y, q); }
      var number := q > 0 && EndsWithNumber(y[..q]);
      CollapseAfterQuote(x, y, q, number, CutAt(y, q, number));
    }
  }

  /** The result does not continue a literal if the text did not. */
  lemma CollapseStart(s: string)
    requires LiteralLength(s) == 0
    ensures LiteralLength(Collapse(s)) == 0
  {
    var q := FirstQuote(s);
    match FirstCut(s)
    case Whole =>
    case Piece(out, rest) =>
      if q > 0 { assert out[0] == s[0]; } else { assert out == [s[0], s[0]]; }
      var r := out + Collapse(rest);
      assert r[0] == out[0] && (q == 0 ==> r[1] == s[0]);
  }

  lemma {:induction false} LiteralLengthRest(s: string)
    ensures LiteralLength(s[LiteralLength(s)..]) == 0
    decreases |s|
  {
    var n := LiteralLength(s);
    if s == [] || n == 0 {
      assert s[0..] == s;
    } else if IsWordChar(s[0]) {
      LiteralLengthRest(s[1..]);
      assert s[n..] == s[1..][n - 1..];
    } else {
      LiteralLengthRest(s[2..]);
      assert s[n..] == s[2..][n - 2..];
    }
  }

  /** A pair after quote-free text that is not a number collapses to itself. */
  lemma CollapsePair(head: string, c: char, y: string)
    requires QuoteFree(head) && IsQuote(c) && !(c == '\'' && EndsWithNumber(head))
    ensures Collapse(head + [c, c] + y) == head + [c, c] + Collapse(y)
  {
    var s := head + [c, c] + y;
    assert s == head + ([c, c] + y);
    FirstQuoteAfter(head, [c, c] + y);
    assert s[..|head|] == head && s[|head| + 1..] == [c] + y;
    assert ([c] + y)[1..] == y;
    assert FirstCut(s) == Piece(head + [c, c], y);
  }

  /** Collapsing a collapsed line changes nothing. */
  lemma {:induction false} CollapseIdempotent(s: string)
    ensures Collapse(Collapse(s)) == Collapse(s)
    decreases |s|
  {
    match FirstCut(s)
    case Whole =>
    case Piece(out, rest) =>
      var q := FirstQuote(s);
      CollapseIdempotent(rest);
      if s[q] == '\'' && EndsWithNumber(s[..q]) {
        UnquoteQuoteFree(s[q..], LiteralLength(s[q..]));
        LiteralLengthRest(s[q..]);
        CollapseStart(rest);
        CollapseAfter(out, Collapse(rest));
      } else {
        CollapsePair(s[..q], s[q], Collapse(rest));
      }
  }

  // ----- What becomes of a literal, a number and an unmatched quote

  /** A string or character literal becomes an empty one, and the rest of the line is collapsed. */
  lemma LiteralEmptied(head: string, c: char, body: string, rest: string)
    requires QuoteFree(head) && IsQuote(c) && c !in body && !(c == '\'' && EndsWithNumber(head))
    ensures Collapse(head + [c] + body + [c] + rest) == head + [c, c] + Collapse(rest)
  {
    var tail := body + [c] + rest;
    var s := head + ([c] + tail);
    assert head + [c] + body + [c] + rest == s;
    assert FirstCut(s) == Piece(head + [c, c], rest) by { LiteralCut(head, c, body, rest, tail, s); }
  }

  lemma LiteralCut(head: string, c: char, body: string, rest: string, tail: string, s: string)
    requires QuoteFree(head) && IsQuote(c) && c !in body && !(c == '\'' && EndsWithNumber(head))
    requires tail == body + [c] + rest && s == head + ([c] + tail)
    ensures FirstCut(s) == Piece(head + [c, c], rest)
  {
    assert FirstQuote(s) == |head| by { FirstQuoteAfter(head, [c] + tail); }
    assert s[..|head|] == head && s[|head| + 1..] == tail;
    assert Index(tail, c) == |body| by { IndexAfter(body, c, rest); }
    assert tail[|body| + 1..] == rest;
  }

  lemma {:induction false} IndexAfter(body: string, c: char, rest: string)
    requires c !in body
    ensures Index(body + [c] + rest, c) == |body|
  {
    var t := body + [c] + rest;
    if body != [] {
      assert t[1..] == body[1..] + [c] + rest;
      IndexAfter(body[1..], c, rest);
    }
  }

  lemma {:induction false} IndexNone(t: string, c: char)
    requires c !in t
    ensures Index(t, c) == -1
  {
    if t != [] { IndexNone(t[1..], c); }
  }

  /** From a quote that is not closed on, the line stays as it is. */
  lemma UnclosedKept(head: string, c: char, body: string)
    requires QuoteFree(head) && IsQuote(c) && c !in body && !(c == '\'' && EndsWithNumber(head))
    ensures Collapse(head + [c] + body) == head + [c] + body
  {
    var s := head + ([c] + body);
    assert head + [c] + body == s;
    FirstQuoteAfter(head, [c] + body);
    assert s[..|head|] == head && s[|head| + 1..] == body;
    IndexNone(body, c);
  }

  predicate IsWord(w: string) {
    w != [] && forall i :: 0 <= i < |w| ==> IsWordChar(w[i])
  }

  /** Groups of digits, with a separator in front of each. */
  function Separated(groups: seq<string>): string {
    if groups == [] then "" else "'" + groups[0] + Separated(groups[1..])
  }

  function Joined(groups: seq<string>): string {
    if groups == [] then "" else groups[0] + Joined(groups[1..])
  }

  lemma {:induction false} WordLength(w: string, t: string)
    requires forall i :: 0 <= i < |w| ==> IsWordChar(w[i])
    ensures LiteralLength(w + t) == |w| + LiteralLength(t)
  {
    if w == [] {
      assert w + t == t;
    } else {
      assert (w + t)[1..] == w[1..] + t;
      WordLength(w[1..], t);
    }
  }

  lemma GroupLength(w: string, t: string)
    requires IsWord(w)
    ensures LiteralLength("'" + w + t) == 1 + |w| + LiteralLength(t)
  {
    var s := "'" + w + t;
    assert s[0] == '\'' && s[1] == w[0] && s[2..] == w[1..] + t;
    WordLength(w[1..], t);
  }

  lemma {:induction false} SeparatedLength(groups: seq<string>, rest: string)
    requires (forall i :: 0 <= i < |groups| ==> IsWord(groups[i])) && LiteralLength(rest) == 0
    ensures LiteralLength(Separated(groups) + rest) == |Separated(groups)|
    decreases |groups|
  {
    if groups == [] {
      assert "" + rest == rest;
    } else {
      var t := Separated(groups[1..]) + rest;
      SeparatedLength(groups[1..], rest);
      GroupLength(groups[0], t);
      assert Separated(groups) + rest == "'" + groups[0] + t;
    }
  }

  lemma {:induction false} UnquoteConcat(u: string, v: string)
    ensures Unquote(u + v) == Unquote(u) + Unquote(v)
  {
    if u == [] {
      assert u + v == v;
    } else {
      assert (u + v)[1..] == u[1..] + v;
      UnquoteConcat(u[1..], v);
    }
  }

  lemma {:induction false} UnquoteWord(w: string)
    requires '\'' !in w
    ensures Unquote(w) == w
  {
    if w != [] { UnquoteWord(w[1..]); }
  }

  lemma {:induction false} UnquoteSeparated(groups: seq<string>)
    requires forall i :: 0 <= i < |groups| ==> IsWord(groups[i])
    ensures Unquote(Separated(groups)) == Joined(groups)
    decreases |groups|
  {
    if groups != [] {
      var w, t := groups[0], Separated(groups[1..]);
      UnquoteSeparated(groups[1..]);
      UnquoteGroup(w, t);
    }
  }

  lemma UnquoteGroup(w: string, t: string)
    requires IsWord(w)
    ensures Unquote("'" + w + t) == w + Unquote(t)
  {
    var g := ['\''] + w;
    assert Unquote(g + t) == Unquote(g) + Unquote(t) by { UnquoteConcat(g, t); }
    assert g[1..] == w && Unquote(g) == Unquote(w);
    UnquoteWord(w);
  }

  /** Behind a number, digit separators go and the digits stay. */
  lemma SeparatorsRemoved(head: string, groups: seq<string>, rest: string)
    requires QuoteFree(head) && EndsWithNumber(head) && LiteralLength(rest) == 0
    requires groups != [] && forall i :: 0 <= i < |groups| ==> IsWord(groups[i])
    ensures Collapse(head + Separated(groups) + rest) == head + Joined(groups) + Collapse(rest)
  {
    var l := Separated(groups);
    var s := head + (l + rest);
    assert head + l + rest == s && l[0] == '\'';
    FirstQuoteAfter(head, l + rest);
    assert s[..|head|] == head && s[|head|..] == l + rest;
    SeparatedLength(groups, rest);
    UnquoteSeparated(groups);
    assert (l + rest)[..|l|] == l && (l + rest)[|l|..] == rest;
    assert FirstCut(s) == Piece(head + Joined(groups), rest);
  }

  /** What stands in front of a quote is a number exactly if its last word is one. */
  lemma LastWordIsNumber(x: string, w: string)
    requires forall i :: 0 <= i < |w| ==> IsWordChar(w[i])
    requires x != [] ==> !IsWordChar(x[|x| - 1])
    ensures EndsWithNumber(x + w) <==> w != [] && IsNumber(w)
  {
    var s := x + w;
    assert forall i :: 0 <= i < |x| ==> s[i] == x[i];
    assert forall i :: |x| <= i < |s| ==> s[i] == w[i - |x|];
    if w != [] && IsNumber(w) {
      assert s[|x|..] == w;
      assert NumberFrom(s, |x|);
    }
    if EndsWithNumber(s) {
      var k :| 0 <= k < |s| && NumberFrom(s, k);
      NumberIsWord(s[k..]);
      assert forall i :: k <= i < |s| ==> IsWordChar(s[i]) by {
        forall i | k <= i < |s| ensures IsWordChar(s[i]) { assert s[k..][i - k] == s[i]; }
      }
      assert k == |x|;
      assert s[k..] == w;
    }
  }

  /** What a number in a program begins with. */
  predicate NumberPrefix(p: string) {
    p == "0" || p == "0b" || p == "0B" || p == "0x" || p == "0X" || (|p| == 1 && '1' <= p[0] <= '9')
  }

  /** A number is such a beginning, and hexadecimal digits. */
  lemma NumberIff(w: string)
    ensures IsNumber(w) <==> exists k :: 0 <= k <= |w| && NumberPrefix(w[..k]) && AllHex(w[k..])
  {
    if IsNumber(w) {
      if AllHex(w[1..]) {
        assert NumberPrefix(w[..1]);
      } else {
        assert w[..2] == [w[0], w[1]];
        assert NumberPrefix(w[..2]);
      }
    }
    forall k | 0 <= k <= |w| && NumberPrefix(w[..k]) && AllHex(w[k..]) ensures IsNumber(w) {
      assert k > 0 && w[..k][0] == w[0];
      if k == 2 { assert w[..k][1] == w[1]; }
    }
  }
}
