/** String literals: how python/hs2client/dbapi.py escapes a text and how a reader gets it back. */
module Escape {
  import opened Options
  import opened PyString

  /** `_escape`: five replacements over the whole text, one after the other. */
  function Escape(s: string): string {
    var e1 := Replace(s, "\\", "\\\\");
    var e2 := Replace(e1, "\n", "\\n");
    var e3 := Replace(e2, "\r", "\\r");
    var e4 := Replace(e3, "'", "\\'");
    Replace(e4, "\"", "\\\"")
  }

  /** The same as one pass over the characters. */
  function EscapeChar(c: char): string {
    match c
    case '\\' => "\\\\"
    case '\n' => "\\n"
    case '\r' => "\\r"
    case '\'' => "\\'"
    case '"' => "\\\""
    case _ => [c]
  }

  function EscapeChars(s: string): string {
    if s == [] then [] else EscapeChar(s[0]) + EscapeChars(s[1..])
  }

  lemma ReplaceCharFirst(c: char, p: string, s: string)
    requires s != []
    ensures Replace(s, [c], p) == (if s[0] == c then p else [s[0]]) + Replace(s[1..], [c], p)
  {
    assert [c] <= s <==> s[0] == c;
  }

  lemma {:induction false} ReplaceCharConcat(c: char, p: string, u: string, v: string)
    ensures Replace(u + v, [c], p) == Replace(u, [c], p) + Replace(v, [c], p)
    decreases |u|
  {
    if u == [] {
      assert u + v == v;
    } else {
      assert (u + v)[1..] == u[1..] + v;
      ReplaceCharConcat(c, p, u[1..], v);
      ReplaceCharFirst(c, p, u);
      ReplaceCharFirst(c, p, u + v);
    }
  }

  lemma EscapeConcat(u: string, v: string)
    ensures Escape(u + v) == Escape(u) + Escape(v)
  {
    ReplaceCharConcat('\\', "\\\\", u, v);
    var u1, v1 := Replace(u, "\\", "\\\\"), Replace(v, "\\", "\\\\");
    ReplaceCharConcat('\n', "\\n", u1, v1);
    var u2, v2 := Replace(u1, "\n", "\\n"), Replace(v1, "\n", "\\n");
    ReplaceCharConcat('\r', "\\r", u2, v2);
    var u3, v3 := Replace(u2, "\r", "\\r"), Replace(v2, "\r", "\\r");
    ReplaceCharConcat('\'', "\\'", u3, v3);
    var u4, v4 := Replace(u3, "'", "\\'"), Replace(v3, "'", "\\'");
    ReplaceCharConcat('"', "\\\"", u4, v4);
  }

  /** A replacement on one or two characters, spelled out. */
  lemma ReplaceShort(s: string, c: char, p: string)
    requires 1 <= |s| <= 2
    ensures Replace(s, [c], p) ==
            (if s[0] == c then p else [s[0]]) + (if |s| == 1 then [] else if s[1] == c then p else [s[1]])
  {
    ReplaceCharConcat(c, p, [s[0]], s[1..]);
    assert s == [s[0]] + s[1..];
    assert Replace([], [c], p) == [];
    assert [s[0]][1..] == [];
    if |s| == 2 { assert s[1..] == [s[1]] && [s[1]][1..] == []; }
  }

  lemma EscapeOne(c: char)
    ensures Escape([c]) == EscapeChar(c)
  {
    ReplaceShort([c], '\\', "\\\\");
    var e1 := Replace([c], "\\", "\\\\");
    ReplaceShort(e1, '\n', "\\n");
    var e2 := Replace(e1, "\n", "\\n");
    ReplaceShort(e2, '\r', "\\r");
    var e3 := Replace(e2, "\r", "\\r");
    ReplaceShort(e3, '\'', "\\'");
    var e4 := Replace(e3, "'", "\\'");
    ReplaceShort(e4, '"', "\\\"");
  }

  /** The five replacements never act on each other's output. */
  lemma {:induction false} EscapeIsOnePass(s: string)
    ensures Escape(s) == EscapeChars(s)
  {
    if s == [] {
    } else {
      assert s == [s[0]] + s[1..];
      EscapeConcat([s[0]], s[1..]);
      EscapeOne(s[0]);
      EscapeIsOnePass(s[1..]);
    }
  }

  /** Reading an escaped text: a backslash and the character after it stand for one character. */
  function Unescape(e: string): string {
    if e == [] then []
    else if e[0] == '\\' && |e| > 1 then
      [if e[1] == 'n' then '\n' else if e[1] == 'r' then '\r' else e[1]] + Unescape(e[2..])
    else [e[0]] + Unescape(e[1..])
  }

  lemma UnescapeChar(c: char, t: string)
    ensures Unescape(EscapeChar(c) + t) == [c] + Unescape(t)
  {
    var h := EscapeChar(c);
    assert (h + t)[|h|..] == t;
    assert (h + t)[0] == h[0] && (|h| == 2 ==> (h + t)[1] == h[1]);
  }

  lemma {:induction false} UnescapeChars(s: string)
    ensures Unescape(EscapeChars(s)) == s
  {
    if s != [] {
      UnescapeChars(s[1..]);
      UnescapeChar(s[0], EscapeChars(s[1..]));
    }
  }

  lemma RoundTrip(s: string)
    ensures Unescape(Escape(s)) == s
  {
    EscapeIsOnePass(s);
    UnescapeChars(s);
  }

  lemma EscapeInjective(s: string, t: string)
    requires Escape(s) == Escape(t)
    ensures s == t
  {
    RoundTrip(s);
    RoundTrip(t);
  }

  /** Where a literal ends: the first quote that is not the second half of a backslash pair. */
  function LiteralEnd(t: string): Option<nat> {
    if t == [] then None
    else if t[0] == '\'' then Some(0)
    else
      var k := if t[0] == '\\' && |t| > 1 then 2 else 1;
      match LiteralEnd(t[k..])
      case None => None
      case Some(n) => Some(n + k)
  }

  lemma LiteralEndAfterChar(c: char, t: string)
    ensures LiteralEnd(EscapeChar(c) + t) ==
            match LiteralEnd(t) case None => None case Some(n) => Some(n + |EscapeChar(c)|)
  {
    var h := EscapeChar(c);
    assert (h + t)[|h|..] == t;
    assert (h + t)[0] == h[0] && (|h| == 2 ==> (h + t)[1] == h[1]);
  }

  lemma {:induction false} LiteralEndAfterChars(s: string, t: string)
    ensures LiteralEnd(EscapeChars(s) + t) ==
            match LiteralEnd(t) case None => None case Some(n) => Some(n + |EscapeChars(s)|)
  {
    if s == [] {
      assert EscapeChars(s) + t == t;
    } else {
      LiteralEndAfterChars(s[1..], t);
      LiteralEndAfterChar(s[0], EscapeChars(s[1..]) + t);
      assert EscapeChars(s) + t == EscapeChar(s[0]) + (EscapeChars(s[1..]) + t);
    }
  }

  /** Whatever the text and whatever follows, a reader stops exactly at the quote that was added. */
  lemma LiteralEndsAtAddedQuote(s: string, after: string)
    ensures LiteralEnd(Escape(s) + "'" + after) == Some(|Escape(s)|)
    ensures LiteralEnd(Escape(s)) == None
  {
    EscapeIsOnePass(s);
    LiteralEndAfterChars(s, "'" + after);
    assert Escape(s) + "'" + after == EscapeChars(s) + ("'" + after);
    LiteralEndAfterChars(s, "");
    assert EscapeChars(s) + "" == EscapeChars(s);
  }

  // ----- What an escaped text does not hold

  /** The characters that are not part of a backslash pair. */
  function Unpaired(e: string): string {
    if e == [] then []
    else if e[0] == '\\' && |e| > 1 then Unpaired(e[2..])
    else [e[0]] + Unpaired(e[1..])
  }

  predicate IsSpecial(c: char) {
    c == '\\' || c == '\n' || c == '\r' || c == '\'' || c == '"'
  }

  lemma UnpairedChar(c: char, t: string)
    ensures Unpaired(EscapeChar(c) + t) == (if IsSpecial(c) then [] else [c]) + Unpaired(t)
  {
    var h := EscapeChar(c);
    assert (h + t)[|h|..] == t;
    assert (h + t)[0] == h[0] && (|h| == 2 ==> (h + t)[1] == h[1]);
  }

  lemma {:induction false} CleanChars(s: string)
    ensures var e := EscapeChars(s);
            && '\n' !in e && '\r' !in e
            && forall i :: 0 <= i < |Unpaired(e)| ==> !IsSpecial(Unpaired(e)[i])
  {
    if s != [] {
      CleanChars(s[1..]);
      UnpairedChar(s[0], EscapeChars(s[1..]));
    }
  }

  /** No line ends, and no quote of either kind and no backslash outside the pairs. */
  lemma EscapedIsClean(s: string)
    ensures var e := Escape(s);
            && '\n' !in e && '\r' !in e
            && forall i :: 0 <= i < |Unpaired(e)| ==> !IsSpecial(Unpaired(e)[i])
  {
    EscapeIsOnePass(s);
    CleanChars(s);
  }
}
