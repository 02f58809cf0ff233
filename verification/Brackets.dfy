/**
  Reference semantics of the hard brackets `( [ {`: a grammar of balanced words, a
  stack machine that recognises it, and the mirror image that turns a forward reading
  into a backward one.  Nothing here knows about template brackets.
*/
module Brackets {
  import opened Options

  predicate IsOpener(c: char) { c == '(' || c == '[' || c == '{' }

  predicate IsCloser(c: char) { c == ')' || c == ']' || c == '}' }

  predicate IsPlain(c: char) { !IsOpener(c) && !IsCloser(c) }

  /** Exchanges the two brackets of a pair; other characters stay. */
  function Flip(c: char): (d: char)
    ensures IsOpener(c) <==> IsCloser(d)
    ensures IsCloser(c) <==> IsOpener(d)
  {
    match c
    case '(' => ')'
    case '[' => ']'
    case '{' => '}'
    case ')' => '('
    case ']' => '['
    case '}' => '{'
    case _ => c
  }

  /** The grammar of words whose hard brackets are balanced and correctly typed. */
  ghost predicate Balanced(w: string)
    decreases |w|
  {
    || w == []
    || (IsPlain(w[0]) && Balanced(w[1..]))
    || (IsOpener(w[0]) && exists k :: SplitsAt(w, k) && Balanced(w[1..k]) && Balanced(w[k + 1..]))
  }

  predicate SplitsAt(w: string, k: int) {
    0 < k < |w| && w[k] == Flip(w[0])
  }

  // ----- The stack machine

  function Step(s: string, c: char): Option<string> {
    if IsOpener(c) then Some(s + [c])
    else if IsPlain(c) then Some(s)
    else if s != [] && Flip(s[|s| - 1]) == c then Some(s[..|s| - 1])
    else None
  }

  function Run(s: string, w: string): Option<string>
    decreases |w|
  {
    if w == [] then Some(s) else
    match Step(s, w[0])
    case None => None
    case Some(t) => Run(t, w[1..])
  }

  lemma {:induction false} RunConcat(s: string, u: string, v: string)
    ensures Run(s, u + v) == match Run(s, u) case None => None case Some(t) => Run(t, v)
    decreases |u|
  {
    if u == [] {
      assert u + v == v;
    } else {
      assert (u + v)[1..] == u[1..] + v;
      match Step(s, u[0])
      case None =>
      case Some(t) => RunConcat(t, u[1..], v);
    }
  }

  /** What lies below the stack is never looked at by a run that succeeds without it. */
  lemma {:induction false} RunUnder(b: string, s: string, w: string)
    requires Run(s, w).Some?
    ensures Run(b + s, w) == Some(b + Run(s, w).value)
    decreases |w|
  {
    if w != [] {
      var t := Step(s, w[0]).value;
      assert Step(b + s, w[0]) == Some(b + t) by {
        assert IsOpener(w[0]) ==> (b + s) + [w[0]] == b + (s + [w[0]]);
        assert IsCloser(w[0]) ==> (b + s)[..|b + s| - 1] == b + s[..|s| - 1];
      }
      RunUnder(b, t, w[1..]);
    }
  }

  lemma {:induction false} BalancedRun(s: string, w: string)
    requires Balanced(w)
    ensures Run(s, w) == Some(s)
    decreases |w|
  {
    if w == [] {
    } else if IsPlain(w[0]) {
      BalancedRun(s, w[1..]);
    } else {
      var k :| SplitsAt(w, k) && Balanced(w[1..k]) && Balanced(w[k + 1..]);
      var o := s + [w[0]];
      BalancedRun(o, w[1..k]);
      BalancedRun(s, w[k + 1..]);
      assert w[1..] == w[1..k] + ([w[k]] + w[k + 1..]);
      RunConcat(o, w[1..k], [w[k]] + w[k + 1..]);
      assert ([w[k]] + w[k + 1..])[1..] == w[k + 1..];
      assert Step(o, w[k]) == Some(s) by { assert o[..|o| - 1] == s; }
    }
  }

  /** The bracket at the bottom of a stack that empties has a matching closer. */
  lemma {:induction false} FindCloser(o: char, s: string, v: string) returns (k: nat)
    requires IsOpener(o)
    requires Run([o] + s, v) == Some("")
    ensures k < |v| && v[k] == Flip(o)
    ensures Run(s, v[..k]) == Some("") && Run("", v[k + 1..]) == Some("")
    decreases |v|
  {
    if s == [] && IsCloser(v[0]) {
      k := 0;
      assert ([o] + s)[..0] == "";
    } else {
      var t := Step(s, v[0]).value;
      assert Step([o] + s, v[0]) == Some([o] + t) by {
        assert IsOpener(v[0]) ==> ([o] + s) + [v[0]] == [o] + (s + [v[0]]);
        assert IsCloser(v[0]) ==> ([o] + s)[..|s|] == [o] + s[..|s| - 1];
      }
      var j := FindCloser(o, t, v[1..]);
      k := j + 1;
      assert v[..k][1..] == v[1..][..j];
      assert v[k + 1..] == v[1..][j + 1..];
    }
  }

  lemma {:induction false} RunBalanced(w: string)
    requires Run("", w) == Some("")
    ensures Balanced(w)
    decreases |w|
  {
    if w == [] {
    } else if IsPlain(w[0]) {
      RunBalanced(w[1..]);
    } else {
      assert "" + [w[0]] == [w[0]] + "";
      var j := FindCloser(w[0], "", w[1..]);
      var k := j + 1;
      assert w[1..][..k - 1] == w[1..k] && w[1..][k..] == w[k + 1..];
      RunBalanced(w[1..k]);
      RunBalanced(w[k + 1..]);
      assert SplitsAt(w, k);
    }
  }

  /** The stack machine accepts exactly the balanced words. */
  lemma BalancedIffRun(w: string)
    ensures Balanced(w) <==> Run("", w) == Some("")
  {
    if Balanced(w) { BalancedRun("", w); }
    if Run("", w) == Some("") { RunBalanced(w); }
  }

  // ----- Reading backward

  /** The word read from right to left, with every bracket flipped. */
  function Mirror(w: string): (m: string)
    ensures |m| == |w|
    decreases |w|
  {
    if w == [] then [] else Mirror(w[1..]) + [Flip(w[0])]
  }

  lemma {:induction false} MirrorConcat(u: string, v: string)
    ensures Mirror(u + v) == Mirror(v) + Mirror(u)
    decreases |u|
  {
    if u == [] {
      assert u + v == v;
    } else {
      assert (u + v)[1..] == u[1..] + v;
      MirrorConcat(u[1..], v);
    }
  }

  lemma {:induction false} MirrorMirror(w: string)
    ensures Mirror(Mirror(w)) == w
    decreases |w|
  {
    if w != [] {
      MirrorMirror(w[1..]);
      MirrorConcat(Mirror(w[1..]), [Flip(w[0])]);
      assert [Flip(w[0])][1..] == "";
      assert Mirror([Flip(w[0])]) == [w[0]];
      assert w == [w[0]] + w[1..];
    }
  }

  /** Running the mirror image undoes a run: it leads from the final stack to the initial one. */
  lemma {:induction false} RunMirror(s: string, w: string)
    requires Run(s, w).Some?
    requires forall i :: 0 <= i < |s| ==> IsOpener(s[i])
    ensures Run(Run(s, w).value, Mirror(w)) == Some(s)
    decreases |w|
  {
    if w != [] {
      var c, t := w[0], Step(s, w[0]).value;
      RunMirror(t, w[1..]);
      RunConcat(Run(s, w).value, Mirror(w[1..]), [Flip(c)]);
      assert [Flip(c)][1..] == "";
      assert Step(t, Flip(c)) == Some(s) by {
        if IsOpener(c) { assert t[..|t| - 1] == s; }
        if IsCloser(c) { assert t + [s[|s| - 1]] == s; }
      }
    }
  }

  // ----- The first balanced prefix

  /** A non-empty balanced word none of whose proper non-empty prefixes is balanced. */
  ghost predicate Group(w: string) {
    && w != []
    && Balanced(w)
    && forall k :: 0 < k < |w| ==> !Balanced(w[..k])
  }

  /** A word is a group exactly when its mirror image is one. */
  lemma GroupMirror(w: string)
    requires Group(w)
    ensures Group(Mirror(w))
  {
    var m := Mirror(w);
    BalancedIffRun(w);
    RunMirror("", w);
    BalancedIffRun(m);
    forall k | 0 < k < |m| ensures !Balanced(m[..k]) {
      var u, v := w[..|w| - k], w[|w| - k..];
      assert w == u + v;
      MirrorConcat(u, v);
      assert m[..k] == Mirror(v);
      if Balanced(m[..k]) {
        BalancedIffRun(m[..k]);
        RunMirror("", m[..k]);
        MirrorMirror(v);
        RunConcat("", u, v);
        var s := Run("", u).value;
        RunUnder(s, "", v);
        assert s + "" == s;
        BalancedIffRun(u);
      }
    }
  }

  lemma GroupIffMirror(w: string)
    ensures Group(w) <==> Group(Mirror(w))
  {
    if Group(w) { GroupMirror(w); }
    if Group(Mirror(w)) {
      GroupMirror(Mirror(w));
      MirrorMirror(w);
    }
  }

  /** How a scan ends: the stack became empty after `n` characters, a mismatch, or the end of the text. */
  datatype Outcome = Closed(n: nat) | Broken | Pending(stack: string) {
    function Shift(k: nat): Outcome {
      match this
      case Closed(n) => Closed(n + k)
      case Broken => Broken
      case Pending(s) => Pending(s)
    }
  }

  function HardScan(s: string, w: string): Outcome
    decreases |w|
  {
    if w == [] then Pending(s) else
    match Step(s, w[0])
    case None => Broken
    case Some(t) => if t == [] then Closed(1) else HardScan(t, w[1..]).Shift(1)
  }

  lemma {:induction false} ScanConcat(s: string, u: string, v: string)
    ensures HardScan(s, u + v) ==
            match HardScan(s, u)
            case Pending(t) => HardScan(t, v).Shift(|u|)
            case r => r
    decreases |u|
  {
    if u == [] {
      assert u + v == v;
    } else {
      assert (u + v)[1..] == u[1..] + v;
      match Step(s, u[0])
      case None =>
      case Some(t) => ScanConcat(t, u[1..], v);
    }
  }

  ghost predicate EmptiesAt(s: string, w: string, n: nat)
    requires n <= |w|
  {
    n > 0 && Run(s, w[..n]) == Some("")
  }

  lemma EmptiesLater(s: string, w: string, k: nat, t: string)
    requires 1 <= k <= |w| && Step(s, w[0]) == Some(t) && t != []
    ensures EmptiesAt(s, w, k) <==> EmptiesAt(t, w[1..], k - 1)
  {
    assert w[..k][0] == w[0] && w[..k][1..] == w[1..][..k - 1];
    assert Run(s, w[..k]) == Run(t, w[1..][..k - 1]);
    if k == 1 { assert w[1..][..0] == []; }
  }

  lemma {:induction false} ScanFirst(s: string, w: string)
    ensures var r := HardScan(s, w);
            if r.Closed?
            then r.n <= |w| && EmptiesAt(s, w, r.n) && forall k: nat :: k < r.n ==> !EmptiesAt(s, w, k)
            else forall k: nat :: k <= |w| ==> !EmptiesAt(s, w, k)
    decreases |w|
  {
    if w != [] {
      match Step(s, w[0]) {
        case None =>
          forall k: nat | 0 < k <= |w| ensures !EmptiesAt(s, w, k) { assert w[..k][0] == w[0]; }
        case Some(t) =>
          assert w[..1][1..] == "";
          if t != [] {
            ScanFirst(t, w[1..]);
            forall k: nat | 1 <= k <= |w| ensures EmptiesAt(s, w, k) <==> EmptiesAt(t, w[1..], k - 1) {
              EmptiesLater(s, w, k, t);
            }
          }
      }
    }
  }

  /** From an opening bracket, the scan closes at `n` exactly when the first `n` characters are a group. */
  lemma ScanIffGroup(w: string)
    ensures var r := HardScan("", w);
            if r.Closed? then r.n <= |w| && Group(w[..r.n])
            else forall k :: 0 < k <= |w| ==> !Balanced(w[..k])
    ensures forall n :: 0 < n <= |w| && Group(w[..n]) ==> HardScan("", w) == Closed(n)
  {
    ScanFirst("", w);
    forall k: nat | 0 < k <= |w| ensures Balanced(w[..k]) <==> EmptiesAt("", w, k) {
      BalancedIffRun(w[..k]);
    }
    var r := HardScan("", w);
    if r.Closed? {
      forall k | 0 < k < r.n ensures !Balanced(w[..r.n][..k]) { assert w[..r.n][..k] == w[..k]; }
    }
    forall n, k | 0 < k < n <= |w| ensures w[..n][..k] == w[..k] { }
  }
}
