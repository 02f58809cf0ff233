/**
  The loop over numbered markers in python/hs2client/dbapi.py, and when it is the single pass.
*/
module NumberedLoop {
  import opened PyString
  import opened Decimal
  import opened Numbered
  import opened Rounds
  import opened Colons
  import opened GuardedText

  // ----- Inserted texts that cannot follow a colon, or are not numbers

  /** The number of digits that a text starts with. */
  function DigitRun(t: string): (r: nat)
    ensures r <= |t| && AllDigits(t[..r]) && (r < |t| ==> !IsDigit(t[r]))
  {
    if t == [] || !IsDigit(t[0]) then 0 else
    var r := DigitRun(t[1..]);
    assert t[..r + 1] == [t[0]] + t[1..][..r];
    r + 1
  }

  /** No colon with its digits is directly followed by another colon. */
  predicate Spaced(s: string) {
    forall i :: 0 <= i < |s| && s[i] == ':' ==> !ColonFollows(s[i + 1..])
  }

  predicate ColonFollows(t: string) {
    DigitRun(t) < |t| && t[DigitRun(t)] == ':'
  }

  predicate NoDigitFirstLater(ps: seq<string>) {
    forall i :: 1 <= i < |ps| ==> ps[i] != [] && !IsDigit(ps[i][0])
  }

  /** Either the parameters or the statement keep inserted texts away from a preceding colon. */
  predicate Separated(s: string, ps: seq<string>) {
    NoColonLater(ps) && (NoDigitFirstLater(ps) || Spaced(s))
  }

  /** Behind a colon, the pass shows no digits that were not there before. */
  lemma DigitsBehindColon(w: string, t: string, ps: seq<string>, k: nat)
    requires k >= 1 && AllDigits(w) && w <= Pass(t, ps, k)
    requires NoDigitFirstLater(ps) || !ColonFollows(t)
    ensures w <= t
  {
    var r := DigitRun(t);
    var run, p := t[..r], Pass(t[r..], ps, k);
    PassCopiesDigits(run, t, ps, k);
    NoDigitFirstInPass(t[r..], ps, k);
    DigitsWithin(w, run, p);
    assert w == t[..|w|];
  }

  lemma NoDigitFirstInPass(rest: string, ps: seq<string>, k: nat)
    requires k >= 1
    requires rest != [] ==> !IsDigit(rest[0]) && (NoDigitFirstLater(ps) || rest[0] != ':')
    ensures var p := Pass(rest, ps, k); p != [] ==> !IsDigit(p[0])
  {
    if rest != [] {
      var t := rest[1..];
      var r := if rest[0] == ':' then NameLength(t, |ps|, |t|) else 0;
      if r > 0 { DigitsValue(t[..r]); }
    }
  }

  lemma SeparatedIsCalm(s: string, ps: seq<string>, k: nat)
    requires 1 <= k <= |ps| && Separated(s, ps)
    ensures Calm(s, ps, k)
  {
    forall i | 0 <= i < |s| && s[i] == ':' ensures Quiet(s[i + 1..], ps, k) {
      SeparatedIsQuiet(s[i + 1..], ps, k);
    }
  }

  lemma SeparatedIsQuiet(t: string, ps: seq<string>, k: nat)
    requires 1 <= k <= |ps| && (NoDigitFirstLater(ps) || !ColonFollows(t))
    ensures Quiet(t, ps, k)
  {
    if Reads(t, ps, k) {
      DigitsBehindColon(Digits(k), t, ps, k);
      LongestName(t, |ps|, k);
    }
  }

  lemma DescendIsPass(s: string, ps: seq<string>)
    requires Separated(s, ps)
    ensures Descend(s, ps, |ps|) == Pass(s, ps, 0)
  {
    forall k | 1 <= k <= |ps| ensures Calm(s, ps, k) { SeparatedIsCalm(s, ps, k); }
    BeforeRound(s, ps, 0);
  }

  // ----- The loop

  /** The loop over the numbers, from the largest down, and when it is one pass that prefers the longest number. */
  method ReplaceNumbered(operation: string, parameters: seq<string>) returns (op: string)
    ensures op == Descend(operation, parameters, |parameters|)
    ensures (forall k :: 1 <= k <= |parameters| ==> Undisturbed(operation, parameters, k)) ==>
              op == Pass(operation, parameters, 0)
    ensures Separated(operation, parameters) ==> op == Pass(operation, parameters, 0)
    ensures NoColon(parameters) && (|parameters| <= 10 || NamesStand(operation, parameters)) ==>
              (op == Pass(operation, parameters, 0) <==> OthersStand(operation, parameters))
    ensures AllGuarded(parameters) ==>
              (op == Pass(operation, parameters, 0) <==>
                forall k :: 1 <= k <= |parameters| ==> Undisturbed(operation, parameters, k))
  {
    op := operation;
    for index := |parameters| downto 0
      invariant Descend(operation, parameters, |parameters|) == Descend(op, parameters, index)
    {
      op := Replace(op, Marker(index + 1), parameters[index]);
    }
    LoopIsPass(operation, parameters);
  }

  lemma LoopIsPass(s: string, ps: seq<string>)
    ensures var d, p := Descend(s, ps, |ps|), Pass(s, ps, 0);
            && ((forall k :: 1 <= k <= |ps| ==> Undisturbed(s, ps, k)) ==> d == p)
            && (Separated(s, ps) ==> d == p)
            && (NoColon(ps) && (|ps| <= 10 || NamesStand(s, ps)) ==> (d == p <==> OthersStand(s, ps)))
            && (AllGuarded(ps) ==> (d == p <==> forall k :: 1 <= k <= |ps| ==> Undisturbed(s, ps, k)))
  {
    if forall k :: 1 <= k <= |ps| ==> Undisturbed(s, ps, k) { DescendFrom(s, ps, 0); }
    if Separated(s, ps) { DescendIsPass(s, ps); }
    if |ps| <= 10 { FewNamesStand(s, ps); }
    if NoColon(ps) && NamesStand(s, ps) { DescendExact(s, ps); }
    if AllGuarded(ps) { GuardedExact(s, ps); }
  }
}
