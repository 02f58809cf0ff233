/**
  The nesting stack of the linter as a value: what one cleansed line does to it, what a
  preprocessor directive does to the checkpoints, and what survives an `#else` part.
*/
module Preprocessor {
  import opened Options

  datatype Asm = NoAsm | InsideAsm | EndAsm | BlockAsm

  datatype Kind = Generic | ExternC | Namespace(name: string) | Class(className: string, isStruct: bool)

  /** The fields of a block, of which all but the kind are updated in place by the linter. */
  datatype BlockView = BlockView(
    kind: Kind,
    seenOpenBrace: bool,
    openParentheses: int,
    inlineAsm: Asm,
    access: string,
    isDerived: bool)

  // ----- A line after the regular expressions have been matched

  datatype Directive = NoDirective | If | Else | Endif

  datatype Token = OpenBrace(externC: bool, asm: bool) | Semicolon | CloseParenthesis | CloseBrace

  /** What is left of a line after the declarations: an access keyword and the tokens `{ ; ) }`. */
  datatype Rest = Rest(access: Option<string>, tokens: seq<Token>)

  datatype ClassDecl = ClassDecl(name: string, isStruct: bool, inTemplateArguments: bool, rest: Rest)

  datatype NamespaceDecl = NamespaceDecl(name: string, seenOpenBrace: bool)

  datatype Line = Line(
    directive: Directive,
    parenthesesChange: int,
    startsAsm: bool,
    namespaces: seq<NamespaceDecl>,
    classDecl: Option<ClassDecl>,
    bareColon: bool,
    rest: Rest)

  // ----- The effect of a line on the stack

  type Stack = seq<BlockView>

  function Top(s: Stack): BlockView
    requires s != []
  {
    s[|s| - 1]
  }

  function SetTop(s: Stack, b: BlockView): Stack
    requires s != []
  {
    s[|s| - 1 := b]
  }

  predicate SeenOpenBrace(s: Stack) {
    s == [] || Top(s).seenOpenBrace
  }

  function CountParentheses(b: BlockView, line: Line): BlockView {
    var open := b.openParentheses + line.parenthesesChange;
    var asm :=
      if b.inlineAsm == NoAsm || b.inlineAsm == EndAsm then
        (if line.parenthesesChange != 0 && open == 1 && line.startsAsm then InsideAsm else NoAsm)
      else if b.inlineAsm == InsideAsm && open == 0 then EndAsm
      else b.inlineAsm;
    b.(openParentheses := open, inlineAsm := asm)
  }

  function NewNamespace(d: NamespaceDecl): BlockView {
    BlockView(Namespace(d.name), d.seenOpenBrace, 0, NoAsm, "", false)
  }

  function NewClass(d: ClassDecl): BlockView {
    BlockView(Class(d.name, d.isStruct), false, 0, NoAsm, if d.isStruct then "public" else "private", false)
  }

  function NewBlock(token: Token): BlockView
    requires token.OpenBrace?
  {
    BlockView(if token.externC then ExternC else Generic, true, 0,
              if !token.externC && token.asm then BlockAsm else NoAsm, "", false)
  }

  function PushNamespaces(s: Stack, ds: seq<NamespaceDecl>): Stack
    decreases |ds|
  {
    if ds == [] then s else PushNamespaces(s + [NewNamespace(ds[0])], ds[1..])
  }

  predicate DeclaresClass(s: Stack, line: Line) {
    line.classDecl.Some? && (s == [] || Top(s).openParentheses == 0) && !line.classDecl.value.inTemplateArguments
  }

  function CheckBegin(b: BlockView, line: Line): BlockView {
    if !b.seenOpenBrace && b.kind.Class? && line.bareColon then b.(isDerived := true) else b
  }

  function SetAccess(b: BlockView, rest: Rest): BlockView {
    if b.kind.Class? && rest.access.Some? then b.(access := rest.access.value) else b
  }

  function ConsumeToken(s: Stack, token: Token): Stack {
    match token
    case OpenBrace(_, _) =>
      if !SeenOpenBrace(s) then SetTop(s, Top(s).(seenOpenBrace := true)) else s + [NewBlock(token)]
    case Semicolon => if !SeenOpenBrace(s) then s[..|s| - 1] else s
    case CloseParenthesis => if !SeenOpenBrace(s) then s[..|s| - 1] else s
    case CloseBrace => if s != [] then s[..|s| - 1] else s
  }

  function ConsumeTokens(s: Stack, tokens: seq<Token>): Stack
    decreases |tokens|
  {
    if tokens == [] then s else ConsumeTokens(ConsumeToken(s, tokens[0]), tokens[1..])
  }

  /** The stack after the parentheses of a line. */
  function Counted(s: Stack, line: Line): Stack {
    if s == [] then s else SetTop(s, CountParentheses(Top(s), line))
  }

  /** The stack after the parentheses and the namespaces of a line. */
  function AfterNamespaces(s: Stack, line: Line): Stack {
    PushNamespaces(Counted(s, line), line.namespaces)
  }

  /** The stack after the parentheses, namespaces and class of a line, and the part of the line that is left. */
  function Declare(s: Stack, line: Line): (Stack, Rest) {
    var spaced := AfterNamespaces(s, line);
    if DeclaresClass(spaced, line) then (spaced + [NewClass(line.classDecl.value)], line.classDecl.value.rest)
    else (spaced, line.rest)
  }

  /** The checks that run on the top block before the tokens. */
  function BeginTop(s: Stack, line: Line, rest: Rest): Stack {
    if s == [] then s else SetTop(s, SetAccess(CheckBegin(Top(s), line), rest))
  }

  function StepLine(s: Stack, line: Line): Stack {
    var (declared, rest) := Declare(s, line);
    ConsumeTokens(BeginTop(declared, line, rest), rest.tokens)
  }

  // ----- The height of the stack is the depth of the braces

  /** No block is still waiting for its opening brace. */
  predicate Settled(s: Stack) {
    forall i :: 0 <= i < |s| ==> s[i].seenOpenBrace
  }

  /** Brace depth after some tokens; a closing brace at depth zero is ignored. */
  function Depth(d: nat, tokens: seq<Token>): nat
    decreases |tokens|
  {
    if tokens == [] then d else
    Depth(match tokens[0]
          case OpenBrace(_, _) => d + 1
          case CloseBrace => if d > 0 then d - 1 else 0
          case _ => d,
          tokens[1..])
  }

  lemma {:induction false} TokensFollowDepth(s: Stack, tokens: seq<Token>)
    requires Settled(s)
    ensures var t := ConsumeTokens(s, tokens); Settled(t) && |t| == Depth(|s|, tokens)
    decreases |tokens|
  {
    if tokens != [] { TokensFollowDepth(ConsumeToken(s, tokens[0]), tokens[1..]); }
  }

  lemma {:induction false} NamespacesPush(s: Stack, ds: seq<NamespaceDecl>)
    requires Settled(s) && forall k :: 0 <= k < |ds| ==> ds[k].seenOpenBrace
    ensures var t := PushNamespaces(s, ds); Settled(t) && |t| == |s| + |ds|
    decreases |ds|
  {
    if ds != [] { NamespacesPush(s + [NewNamespace(ds[0])], ds[1..]); }
  }

  /** A class whose tokens start with its opening brace. */
  predicate OpensClass(d: ClassDecl) {
    d.rest.tokens != [] && d.rest.tokens[0].OpenBrace?
  }

  /**
    A line whose declarations open their own braces changes the height of the stack as its braces
    change the depth, and leaves no block waiting.
  */
  lemma HeightIsBraceDepth(s: Stack, line: Line)
    requires Settled(s) && (forall k :: 0 <= k < |line.namespaces| ==> line.namespaces[k].seenOpenBrace)
    requires DeclaresClass(AfterNamespaces(s, line), line) ==> OpensClass(line.classDecl.value)
    ensures Settled(StepLine(s, line))
    ensures |StepLine(s, line)| == Depth(|s| + |line.namespaces|, Declare(s, line).1.tokens)
  {
    DeclaredHeight(s, line);
    RestFollowsDepth(Declare(s, line).0, line, Declare(s, line).1, |s| + |line.namespaces|);
  }

  lemma RestFollowsDepth(t: Stack, line: Line, rest: Rest, n: nat)
    requires if Settled(t) then |t| == n
             else |t| == n + 1 && Settled(t[..n]) && rest.tokens != [] && rest.tokens[0].OpenBrace?
    ensures var u := ConsumeTokens(BeginTop(t, line, rest), rest.tokens); Settled(u) && |u| == Depth(n, rest.tokens)
  {
    if Settled(t) {
      assert Settled(BeginTop(t, line, rest));
      TokensFollowDepth(BeginTop(t, line, rest), rest.tokens);
    } else {
      ClassFollowsDepth(t, line, rest);
    }
  }

  /** The stack after the declarations: settled, or with one class on top that waits for its brace. */
  lemma DeclaredHeight(s: Stack, line: Line)
    requires Settled(s) && (forall k :: 0 <= k < |line.namespaces| ==> line.namespaces[k].seenOpenBrace)
    requires DeclaresClass(AfterNamespaces(s, line), line) ==> OpensClass(line.classDecl.value)
    ensures var (t, rest), n := Declare(s, line), |s| + |line.namespaces|;
            if Settled(t) then |t| == n
            else |t| == n + 1 && Settled(t[..n]) && rest.tokens != [] && rest.tokens[0].OpenBrace?
  {
    var counted := Counted(s, line);
    NamespacesPush(counted, line.namespaces);
    var spaced := AfterNamespaces(s, line);
    if DeclaresClass(spaced, line) {
      var t := spaced + [NewClass(line.classDecl.value)];
      assert t[..|spaced|] == spaced && !t[|spaced|].seenOpenBrace;
    }
  }

  lemma ClassFollowsDepth(s: Stack, line: Line, rest: Rest)
    requires s != [] && Settled(s[..|s| - 1]) && !Settled(s) && rest.tokens != [] && rest.tokens[0].OpenBrace?
    ensures var t := ConsumeTokens(BeginTop(s, line, rest), rest.tokens);
            Settled(t) && |t| == Depth(|s| - 1, rest.tokens)
  {
    var n, begun := |s| - 1, BeginTop(s, line, rest);
    assert forall i :: 0 <= i < n ==> s[..n][i] == s[i] == begun[i];
    assert !s[n].seenOpenBrace;
    var entered := ConsumeToken(begun, rest.tokens[0]);
    assert Settled(entered) && |entered| == |s|;
    TokensFollowDepth(entered, rest.tokens[1..]);
  }

  // ----- What declarations leave on the stack

  /** Each namespace of a line becomes a block, in order. */
  lemma {:induction false} NamespacesAre(s: Stack, ds: seq<NamespaceDecl>, i: nat)
    requires i < |ds|
    ensures var t := PushNamespaces(s, ds);
            |t| == |s| + |ds| && s <= t
            && t[|s| + i] == BlockView(Namespace(ds[i].name), ds[i].seenOpenBrace, 0, NoAsm, "", false)
    decreases |ds|
  {
    var t := s + [NewNamespace(ds[0])];
    if |ds| == 1 {
      assert ds[1..] == [];
    } else if i == 0 {
      NamespacesAre(t, ds[1..], 0);
      assert PushNamespaces(s, ds)[..|t|] == t;
    } else {
      NamespacesAre(t, ds[1..], i - 1);
    }
  }

  /** Inside parentheses, or as a template argument, a class is not declared. */
  lemma ClassNotDeclared(s: Stack, line: Line)
    requires line.classDecl.Some?
    requires var t := AfterNamespaces(s, line);
             (t != [] && Top(t).openParentheses != 0) || line.classDecl.value.inTemplateArguments
    ensures StepLine(s, line) == StepLine(s, line.(classDecl := None))
  {
    var plain := line.(classDecl := None);
    assert Counted(s, plain) == Counted(s, line) by {
      if s != [] { assert CountParentheses(Top(s), plain) == CountParentheses(Top(s), line); }
    }
    assert Declare(s, plain) == Declare(s, line);
    var (declared, rest) := Declare(s, line);
    assert BeginTop(declared, plain, rest) == BeginTop(declared, line, rest);
  }

  /** The class pattern matches, outside parentheses and template arguments. */
  predicate ClassStands(t: Stack, line: Line) {
    line.classDecl.Some? && !line.classDecl.value.inTemplateArguments && (t != [] ==> t[|t| - 1].openParentheses == 0)
  }

  /** A class that is only declared, or named in the arguments of a function, leaves nothing. */
  lemma DeclarationLeavesNothing(s: Stack, line: Line)
    requires ClassStands(AfterNamespaces(s, line), line)
    requires var tokens := line.classDecl.value.rest.tokens; tokens == [Semicolon] || tokens == [CloseParenthesis]
    ensures StepLine(s, line) == AfterNamespaces(s, line)
  {
    var t, rest := AfterNamespaces(s, line), line.classDecl.value.rest;
    var begun := BeginTop(t + [NewClass(line.classDecl.value)], line, rest);
    assert Declare(s, line) == (t + [NewClass(line.classDecl.value)], rest);
    assert begun[..|t|] == t && |begun| == |t| + 1 && !Top(begun).seenOpenBrace by { BegunClass(t, line); }
    assert ConsumeTokens(begun, rest.tokens) == ConsumeToken(begun, rest.tokens[0]) by { OneToken(begun, rest.tokens); }
  }

  lemma BegunClass(t: Stack, line: Line)
    requires line.classDecl.Some?
    ensures var begun := BeginTop(t + [NewClass(line.classDecl.value)], line, line.classDecl.value.rest);
            begun[..|t|] == t && |begun| == |t| + 1 && !Top(begun).seenOpenBrace
  {
  }

  lemma OneToken(s: Stack, tokens: seq<Token>)
    requires |tokens| == 1
    ensures ConsumeTokens(s, tokens) == ConsumeToken(s, tokens[0])
  {
    assert tokens[1..] == [];
  }

  /** The block of a class whose head is on the line, with or without its opening brace. */
  lemma ClassBecomesTop(s: Stack, line: Line)
    requires ClassStands(AfterNamespaces(s, line), line)
    requires var tokens := line.classDecl.value.rest.tokens; tokens == [] || (|tokens| == 1 && tokens[0].OpenBrace?)
    ensures var d := line.classDecl.value;
            StepLine(s, line) == AfterNamespaces(s, line) +
              [BlockView(Class(d.name, d.isStruct), d.rest.tokens != [], 0, NoAsm,
                         if d.rest.access.Some? then d.rest.access.value else if d.isStruct then "public" else "private",
                         line.bareColon)]
  {
    var t, d := AfterNamespaces(s, line), line.classDecl.value;
    var begun := BeginTop(t + [NewClass(d)], line, d.rest);
    assert begun[..|t|] == t && |begun| == |t| + 1 && !begun[|t|].seenOpenBrace;
    assert begun == t + [begun[|t|]];
    if d.rest.tokens != [] { OneToken(begun, d.rest.tokens); }
  }

  /** An opening brace on a line without declarations, when no block waits for one. */
  lemma BraceOpensBlock(s: Stack, line: Line, externC: bool, asm: bool)
    requires SeenOpenBrace(s) && line.namespaces == [] && line.classDecl.None?
    requires line.rest == Rest(None, [OpenBrace(externC, asm)])
    ensures StepLine(s, line) == Counted(s, line) +
              [BlockView(if externC then ExternC else Generic, true, 0,
                         if !externC && asm then BlockAsm else NoAsm, "", false)]
  {
    var c := Counted(s, line);
    assert BeginTop(c, line, line.rest) == c && SeenOpenBrace(c);
    OneToken(c, line.rest.tokens);
  }

  /** An access keyword counts for the class on top, and for nothing else. */
  lemma TopAccess(s: Stack, line: Line)
    requires s != [] && line.namespaces == [] && !DeclaresClass(Counted(s, line), line)
    ensures FollowTop(s, line).access ==
              if Top(s).kind.Class? && line.rest.access.Some? then line.rest.access.value else Top(s).access
  {
    var (declared, rest) := Declare(s, line);
    DeclaredAbove(s, line);
    assert declared == Counted(s, line) && rest == line.rest;
    FollowOpens(BeginTop(declared, line, rest), |s| - 1, rest.tokens);
  }

  // ----- Inline assembly

  /** The block on top after the parentheses of some lines. */
  function CountLines(b: BlockView, lines: seq<Line>): BlockView
    decreases |lines|
  {
    if lines == [] then b else CountParentheses(CountLines(b, lines[..|lines| - 1]), lines[|lines| - 1])
  }

  function Balance(lines: seq<Line>): int {
    if lines == [] then 0 else Balance(lines[..|lines| - 1]) + lines[|lines| - 1].parenthesesChange
  }

  /** Assembly begins on a line that brings the count to one and looks like it. */
  lemma AssemblyBegins(b: BlockView, line: Line)
    requires b.inlineAsm == NoAsm || b.inlineAsm == EndAsm
    ensures var c := CountParentheses(b, line);
            c.inlineAsm == if c.openParentheses == 1 && b.openParentheses != 1 && line.startsAsm then InsideAsm else NoAsm
  {
  }

  /** It goes on until a line brings the count back to zero, and has ended then. */
  lemma {:induction false} AssemblyLasts(b: BlockView, lines: seq<Line>)
    requires b.inlineAsm == InsideAsm
    requires forall k :: 0 < k < |lines| ==> b.openParentheses + Balance(lines[..k]) != 0
    ensures var c := CountLines(b, lines);
            && c.openParentheses == b.openParentheses + Balance(lines)
            && (lines != [] ==> c.inlineAsm == if c.openParentheses == 0 then EndAsm else InsideAsm)
    decreases |lines|
  {
    if lines != [] {
      var n := |lines| - 1;
      forall k | 0 < k < n ensures b.openParentheses + Balance(lines[..n][..k]) != 0 { assert lines[..n][..k] == lines[..k]; }
      AssemblyLasts(b, lines[..n]);
      if n == 0 { assert lines[..n] == []; }
    }
  }

  // ----- Checkpoints

  datatype Checkpoint = Checkpoint(beforeIf: Stack, beforeElse: Stack, seenElse: bool)

  datatype State = State(stack: Stack, pp: seq<Checkpoint>)

  function Preprocess(s: State, d: Directive): State {
    var n := |s.pp|;
    match d
    case NoDirective => s
    case If => s.(pp := s.pp + [Checkpoint(s.stack, [], false)])
    case Else =>
      if n == 0 then s else
      var top := s.pp[n - 1];
      State(top.beforeIf, if top.seenElse then s.pp else s.pp[n - 1 := top.(seenElse := true, beforeElse := s.stack)])
    case Endif =>
      if n == 0 then s else
      State(if s.pp[n - 1].seenElse then s.pp[n - 1].beforeElse else s.stack, s.pp[..n - 1])
  }

  function Update(s: State, line: Line): State {
    var p := Preprocess(s, line.directive);
    p.(stack := StepLine(p.stack, line))
  }

  // ----- What a line does to the block that was on top before it

  /** The directive puts another stack in place of the current one. */
  predicate Replaces(s: State, d: Directive) {
    s.pp != [] && (d == Else || (d == Endif && s.pp[|s.pp| - 1].seenElse))
  }

  /** The last values of the block at height `i`, which keeps them when it is popped. */
  function Follow(s: Stack, i: nat, tokens: seq<Token>): BlockView
    requires i < |s|
    decreases |tokens|
  {
    if tokens == [] then s[i] else
    var t := ConsumeToken(s, tokens[0]);
    if i < |t| then Follow(t, i, tokens[1..]) else s[i]
  }

  /** The values, after a line, of the block that was on top. */
  function FollowTop(s: Stack, line: Line): BlockView
    requires s != []
  {
    var (declared, rest) := Declare(s, line);
    DeclaredAbove(s, line);
    Follow(BeginTop(declared, line, rest), |s| - 1, rest.tokens)
  }

  lemma {:induction false} NamespacesAbove(s: Stack, ds: seq<NamespaceDecl>)
    ensures s <= PushNamespaces(s, ds)
    decreases |ds|
  {
    if ds != [] { NamespacesAbove(s + [NewNamespace(ds[0])], ds[1..]); }
  }

  lemma DeclaredAbove(s: Stack, line: Line)
    ensures |s| <= |Declare(s, line).0|
    ensures s != [] ==> Declare(s, line).0[|s| - 1] == CountParentheses(Top(s), line)
  {
    var counted := Counted(s, line);
    NamespacesAbove(counted, line.namespaces);
  }

  lemma {:induction false} FollowKeepsCount(s: Stack, i: nat, tokens: seq<Token>)
    requires i < |s|
    ensures Follow(s, i, tokens).openParentheses == s[i].openParentheses
    ensures Follow(s, i, tokens).inlineAsm == s[i].inlineAsm
    decreases |tokens|
  {
    if tokens != [] {
      var t := ConsumeToken(s, tokens[0]);
      if i < |t| { FollowKeepsCount(t, i, tokens[1..]); }
    }
  }

  /** After the count of the line, nothing changes the count or the assembly state of that block. */
  lemma FollowTopCounts(s: Stack, line: Line)
    requires s != []
    ensures FollowTop(s, line).openParentheses == Top(s).openParentheses + line.parenthesesChange
    ensures FollowTop(s, line).inlineAsm == CountParentheses(Top(s), line).inlineAsm
  {
    var (declared, rest) := Declare(s, line);
    DeclaredAbove(s, line);
    FollowKeepsCount(BeginTop(declared, line, rest), |s| - 1, rest.tokens);
  }

  /** The block at height `i` gets its opening brace. */
  predicate OpenedBy(s: Stack, i: nat, tokens: seq<Token>)
    requires i < |s|
    decreases |tokens|
  {
    && tokens != []
    && ((tokens[0].OpenBrace? && |s| == i + 1 && !s[i].seenOpenBrace)
        || var t := ConsumeToken(s, tokens[0]); i < |t| && OpenedBy(t, i, tokens[1..]))
  }

  /** Tokens do nothing else to a block. */
  lemma {:induction false} FollowOpens(s: Stack, i: nat, tokens: seq<Token>)
    requires i < |s|
    ensures Follow(s, i, tokens) == if OpenedBy(s, i, tokens) then s[i].(seenOpenBrace := true) else s[i]
    ensures OpenedBy(s, i, tokens) ==> !s[i].seenOpenBrace
    decreases |tokens|
  {
    if tokens != [] {
      var t := ConsumeToken(s, tokens[0]);
      if i < |t| { FollowOpens(t, i, tokens[1..]); }
    }
  }

  /** The line has no parentheses to count, and the assembly state is not a passing one. */
  predicate CountKeeps(b: BlockView, line: Line) {
    && line.parenthesesChange == 0 && b.inlineAsm != EndAsm
    && !(b.inlineAsm == InsideAsm && b.openParentheses == 0)
  }

  /** No base clause is new, and no access keyword is another one. */
  predicate BeginKeeps(b: BlockView, line: Line, rest: Rest) {
    b.kind.Class? ==>
      && (!b.seenOpenBrace && line.bareColon ==> b.isDerived)
      && (rest.access.Some? ==> rest.access.value == b.access)
  }

  /** The line leaves all fields of the block on top as they are. */
  predicate LeavesTop(s: Stack, line: Line)
    requires s != []
  {
    var (declared, rest) := Declare(s, line);
    DeclaredAbove(s, line);
    && CountKeeps(Top(s), line)
    && (|declared| == |s| ==> BeginKeeps(Top(s), line, rest))
    && !OpenedBy(BeginTop(declared, line, rest), |s| - 1, rest.tokens)
  }

  lemma FollowTopUnchanged(s: Stack, line: Line)
    requires s != []
    ensures FollowTop(s, line) == Top(s) <==> LeavesTop(s, line)
  {
    var (declared, rest) := Declare(s, line);
    var b, i := CountParentheses(Top(s), line), |s| - 1;
    DeclaredAbove(s, line);
    var begun := BeginTop(declared, line, rest);
    assert begun[i] == if |declared| == |s| then SetAccess(CheckBegin(b, line), rest) else b;
    FollowOpens(begun, i, rest.tokens);
    assert b == Top(s) <==> CountKeeps(Top(s), line);
    assert BeginKeeps(b, line, rest) <==> SetAccess(CheckBegin(b, line), rest) == b;
  }

  /** The fields, after a line, of the block that was on top before it. */
  function TopAfter(s: State, line: Line): BlockView
    requires s.stack != []
  {
    if Replaces(s, line.directive) then Top(s.stack) else FollowTop(s.stack, line)
  }

  /** When its parenthesis count differs, and when any field does. */
  lemma TopChanges(s: State, line: Line)
    requires s.stack != []
    ensures TopAfter(s, line).openParentheses != Top(s.stack).openParentheses <==>
              line.parenthesesChange != 0 && !Replaces(s, line.directive)
    ensures TopAfter(s, line) == Top(s.stack) <==> Replaces(s, line.directive) || LeavesTop(s.stack, line)
  {
    FollowTopCounts(s.stack, line);
    FollowTopUnchanged(s.stack, line);
  }

  // ----- Line after line

  function Run(s: State, lines: seq<Line>): State
    decreases |lines|
  {
    if lines == [] then s else Run(Update(s, lines[0]), lines[1..])
  }

  lemma {:induction false} RunConcat(s: State, u: seq<Line>, v: seq<Line>)
    ensures Run(s, u + v) == Run(Run(s, u), v)
    decreases |u|
  {
    if u == [] {
      assert u + v == v;
    } else {
      assert (u + v)[1..] == u[1..] + v;
      RunConcat(Update(s, u[0]), u[1..], v);
    }
  }

  // ----- One conditional group

  /**
    Lines that open and close their own conditionals, seen from `depth` levels inside them.
    At level zero an `#else` is allowed only where `others` says so, and `#endif` never.
  */
  predicate Inner(lines: seq<Line>, depth: nat, others: bool) {
    if lines == [] then depth == 0 else
    match lines[0].directive
    case NoDirective => Inner(lines[1..], depth, others)
    case If => Inner(lines[1..], depth + 1, others)
    case Else => (depth > 0 || others) && Inner(lines[1..], depth, others)
    case Endif => depth > 0 && Inner(lines[1..], depth - 1, others)
  }

  /** The depth of the conditionals after a directive. */
  function DepthAfter(d: Directive, depth: nat): int {
    match d case If => depth + 1 case Endif => depth - 1 case _ => depth
  }

  lemma PreprocessKeeps(s: State, d: Directive, depth: nat, others: bool)
    requires depth < |s.pp| && (d == Else ==> depth > 0 || others) && (d == Endif ==> depth > 0)
    requires others ==> s.pp[|s.pp| - depth - 1].seenElse
    ensures var pp, e := Preprocess(s, d).pp, DepthAfter(d, depth);
            && 0 <= e < |pp| && pp[..|pp| - e] == s.pp[..|s.pp| - depth]
            && (others ==> pp[|pp| - e - 1].seenElse)
  {
  }

  /** Inner lines leave the checkpoints that were there before them alone. */
  lemma {:induction false} InnerKeepsCheckpoints(s: State, lines: seq<Line>, depth: nat, others: bool)
    requires Inner(lines, depth, others) && depth < |s.pp|
    requires others ==> s.pp[|s.pp| - depth - 1].seenElse
    ensures Run(s, lines).pp == s.pp[..|s.pp| - depth]
    decreases |lines|
  {
    if lines != [] {
      var d := lines[0].directive;
      PreprocessKeeps(s, d, depth, others);
      InnerKeepsCheckpoints(Update(s, lines[0]), lines[1..], DepthAfter(d, depth), others);
    }
  }

  /** The lines from the first `#else` or `#elif` up to the `#endif` have no lasting effect. */
  lemma ElsePartHasNoEffect(s: State, open: Line, body: seq<Line>, other: Line, tail: seq<Line>, close: Line)
    requires open.directive == If && other.directive == Else && close.directive == Endif
    requires Inner(body, 0, false) && Inner(tail, 0, true)
    ensures Run(s, [open] + body + [other] + tail + [close]) == Run(s, [open] + body + [close])
  {
    var a := [open] + body;
    var s2 := Run(s, a);
    var s4 := Run(Update(s2, other), tail);
    ConditionalOpens(s, open, body);
    assert Run(s, a + [other] + tail) == s4 by {
      RunSnoc(s, a, other);
      RunConcat(s, a + [other], tail);
    }
    assert Preprocess(s4, Endif) == Preprocess(s2, Endif) by { EndifRestores(s2, other, tail); }
    RunSnoc(s, a + [other] + tail, close);
    RunSnoc(s, a, close);
  }

  lemma ConditionalOpens(s: State, open: Line, body: seq<Line>)
    requires open.directive == If && Inner(body, 0, false)
    ensures Run(s, [open] + body).pp == s.pp + [Checkpoint(s.stack, [], false)]
  {
    RunCons(s, open, body);
    InnerKeepsCheckpoints(Update(s, open), body, 0, false);
  }

  // ----- What the lines of an `#else` part see

  /** The line without its directive. */
  function Ordinary(line: Line): Line {
    line.(directive := NoDirective)
  }

  /** What a directive does to the stack and the checkpoints `x` above some others. */
  lemma PreprocessAbove(stack: Stack, a: seq<Checkpoint>, x: seq<Checkpoint>, d: Directive)
    requires d == Else || d == Endif ==> x != []
    ensures var above := Preprocess(State(stack, x), d);
            Preprocess(State(stack, a + x), d) == State(above.stack, a + above.pp)
  {
    if x != [] {
      var n := |x| - 1;
      assert (a + x)[|a| + n] == x[n] && (a + x)[..|a| + n] == a + x[..n];
      var c := x[n].(seenElse := true, beforeElse := stack);
      assert (a + x)[|a| + n := c] == a + x[n := c];
    }
    var c := Checkpoint(stack, [], false);
    assert (a + x) + [c] == a + (x + [c]);
  }

  /** Lines that open and close their own conditionals never look at the ones around them. */
  lemma {:induction false} InnerIgnoresOuter(stack: Stack, a: seq<Checkpoint>, x: seq<Checkpoint>, lines: seq<Line>)
    requires Inner(lines, |x|, false)
    ensures Run(State(stack, a + x), lines).stack == Run(State(stack, x), lines).stack
    decreases |lines|
  {
    if lines != [] {
      var d := lines[0].directive;
      PreprocessAbove(stack, a, x, d);
      var above := Preprocess(State(stack, x), d);
      InnerIgnoresOuter(StepLine(above.stack, lines[0]), a, above.pp, lines[1..]);
    }
  }

  /** From an `#else` or `#elif` on, as if the line were an ordinary one in front of the `#if`. */
  lemma BranchAlone(s: State, s2: State, other: Line, tail: seq<Line>)
    requires other.directive == Else && s2.pp != [] && s2.pp[|s2.pp| - 1].beforeIf == s.stack && Inner(tail, 0, false)
    ensures Update(s2, other).stack == StepLine(s.stack, other)
    ensures Run(Update(s2, other), tail).stack == Run(s, [Ordinary(other)] + tail).stack
  {
    var t, u := Update(s2, other), Update(s, Ordinary(other));
    assert t.stack == StepLine(s.stack, other);
    assert u.stack == StepLine(s.stack, other) by { OrdinaryStep(s, other); }
    assert Run(s, [Ordinary(other)] + tail) == Run(u, tail) by { RunCons(s, Ordinary(other), tail); }
    TailAlone(t, u, tail);
  }

  lemma OrdinaryStep(s: State, line: Line)
    ensures Update(s, Ordinary(line)).stack == StepLine(s.stack, line)
  {
    DeclareOrdinary(s.stack, line);
    var (declared, rest) := Declare(s.stack, line);
    assert BeginTop(declared, Ordinary(line), rest) == BeginTop(declared, line, rest);
  }

  lemma DeclareOrdinary(s: Stack, line: Line)
    ensures Declare(s, Ordinary(line)) == Declare(s, line)
  {
    if s != [] { assert CountParentheses(Top(s), Ordinary(line)) == CountParentheses(Top(s), line); }
    assert AfterNamespaces(s, Ordinary(line)) == AfterNamespaces(s, line);
  }

  lemma TailAlone(s: State, t: State, tail: seq<Line>)
    requires s.stack == t.stack && Inner(tail, 0, false)
    ensures Run(s, tail).stack == Run(t, tail).stack
  {
    InnerIgnoresOuter(s.stack, s.pp, [], tail);
    InnerIgnoresOuter(t.stack, t.pp, [], tail);
    assert s == State(s.stack, s.pp + []) && t == State(t.stack, t.pp + []);
  }

  /**
    The lines of an `#else` part, the line with the `#else` or `#elif` included, change the stack as if
    the `#if` and its branch were not there, and as if that line were an ordinary one.
  */
  lemma ElseSeesNoBranch(s: State, open: Line, body: seq<Line>, other: Line, tail: seq<Line>)
    requires open.directive == If && other.directive == Else
    requires Inner(body, 0, false) && Inner(tail, 0, false)
    ensures Run(s, [open] + body + [other]).stack == StepLine(s.stack, other)
    ensures Run(s, [open] + body + [other] + tail).stack == Run(s, [Ordinary(other)] + tail).stack
  {
    var a := [open] + body;
    ConditionalOpens(s, open, body);
    RunSnoc(s, a, other);
    RunConcat(s, a + [other], tail);
    BranchAlone(s, Run(s, a), other, tail);
  }

  /** The same in the middle of a file. */
  lemma ElseInFile(before: seq<Line>, open: Line, body: seq<Line>, other: Line, tail: seq<Line>)
    requires open.directive == If && other.directive == Else
    requires Inner(body, 0, false) && Inner(tail, 0, false)
    ensures Run(START, before + ([open] + body + [other] + tail)).stack == Run(START, before + ([Ordinary(other)] + tail)).stack
  {
    RunConcat(START, before, [open] + body + [other] + tail);
    RunConcat(START, before, [Ordinary(other)] + tail);
    ElseSeesNoBranch(Run(START, before), open, body, other, tail);
  }

  /** The same for a later `#elif` or `#else`: the branches before it are all gone. */
  lemma LaterBranchSeesNone(s: State, open: Line, body: seq<Line>, other: Line, middle: seq<Line>, later: Line, tail: seq<Line>)
    requires open.directive == If && other.directive == Else && later.directive == Else
    requires Inner(body, 0, false) && Inner(middle, 0, true) && Inner(tail, 0, false)
    ensures Run(s, [open] + body + [other] + middle + [later]).stack == StepLine(s.stack, later)
    ensures Run(s, [open] + body + [other] + middle + [later] + tail).stack == Run(s, [Ordinary(later)] + tail).stack
  {
    var b := [open] + body + [other];
    var s3, s4 := Run(s, b), Run(s, b + middle);
    ElseCheckpoint(s, open, body, other);
    assert s4.pp == s3.pp by {
      RunConcat(s, b, middle);
      InnerKeepsCheckpoints(s3, middle, 0, true);
    }
    assert Run(s, b + middle + [later]) == Update(s4, later) by { RunSnoc(s, b + middle, later); }
    assert Run(s, b + middle + [later] + tail) == Run(Update(s4, later), tail) by { RunConcat(s, b + middle + [later], tail); }
    BranchAlone(s, s4, later, tail);
  }

  lemma ElseCheckpoint(s: State, open: Line, body: seq<Line>, other: Line)
    requires open.directive == If && other.directive == Else && Inner(body, 0, false)
    ensures var pp := Run(s, [open] + body + [other]).pp;
            |pp| == |s.pp| + 1 && pp[|s.pp|].seenElse && pp[|s.pp|].beforeIf == s.stack
  {
    ConditionalOpens(s, open, body);
    RunSnoc(s, [open] + body, other);
  }

  lemma RunCons(s: State, line: Line, lines: seq<Line>)
    ensures Run(s, [line] + lines) == Run(Update(s, line), lines)
  {
    assert ([line] + lines)[1..] == lines;
  }

  lemma RunSnoc(s: State, lines: seq<Line>, line: Line)
    ensures Run(s, lines + [line]) == Update(Run(s, lines), line)
  {
    RunConcat(s, lines, [line]);
    assert [line][1..] == [];
  }

  /** After the first `#else`, an `#endif` gives back the stack and the checkpoints from before that. */
  lemma EndifRestores(s: State, other: Line, tail: seq<Line>)
    requires other.directive == Else && s.pp != [] && !s.pp[|s.pp| - 1].seenElse && Inner(tail, 0, true)
    ensures Preprocess(Run(Update(s, other), tail), Endif) == Preprocess(s, Endif)
  {
    InnerKeepsCheckpoints(Update(s, other), tail, 0, true);
  }

  // ----- The whole file

  predicate Hidden(seen: seq<bool>) { true in seen }

  /** Which of the open conditionals have reached an `#else`, after one more directive. */
  function Track(seen: seq<bool>, d: Directive): seq<bool> {
    match d
    case NoDirective => seen
    case If => seen + [false]
    case Else => if seen == [] then seen else seen[|seen| - 1 := true]
    case Endif => if seen == [] then seen else seen[..|seen| - 1]
  }

  /** The file with every `#else` part deleted: a line stays if, after it, no open conditional is in one. */
  function Strip(seen: seq<bool>, lines: seq<Line>): seq<Line>
    decreases |lines|
  {
    if lines == [] then [] else
    var now := Track(seen, lines[0].directive);
    (if Hidden(now) then [] else [lines[0]]) + Strip(now, lines[1..])
  }

  function Flags(pp: seq<Checkpoint>): (f: seq<bool>)
    ensures |f| == |pp| && forall i :: 0 <= i < |pp| ==> f[i] == pp[i].seenElse
  {
    seq(|pp|, i requires 0 <= i < |pp| => pp[i].seenElse)
  }

  /** The outermost conditional that is in its `#else` part. */
  function FirstSeen(pp: seq<Checkpoint>): (k: nat)
    ensures k <= |pp| && (k < |pp| ==> pp[k].seenElse) && forall i :: 0 <= i < k ==> !pp[i].seenElse
  {
    if pp == [] || pp[0].seenElse then 0 else FirstSeen(pp[1..]) + 1
  }

  lemma FirstSeenUnique(pp: seq<Checkpoint>, k: nat)
    requires k <= |pp| && (k < |pp| ==> pp[k].seenElse) && forall i :: 0 <= i < k ==> !pp[i].seenElse
    ensures FirstSeen(pp) == k
  {
  }

  predicate Clean(pp: seq<Checkpoint>) {
    forall i :: 0 <= i < |pp| && !pp[i].seenElse ==> pp[i].beforeElse == []
  }

  /** The stripped run waits, with the stack it will resume with, where the full run entered an `#else` part. */
  ghost predicate Simulates(full: State, short: State) {
    var k := FirstSeen(full.pp);
    && Clean(full.pp)
    && if k == |full.pp| then short == full
       else
         && short.stack == full.pp[k].beforeElse
         && short.pp == full.pp[..k] + [Checkpoint(full.pp[k].beforeIf, [], false)]
  }

  lemma HiddenIffSeen(pp: seq<Checkpoint>)
    ensures Hidden(Flags(pp)) <==> FirstSeen(pp) < |pp|
  {
    if FirstSeen(pp) < |pp| { assert Flags(pp)[FirstSeen(pp)]; }
  }

  lemma FlagsTrack(s: State, d: Directive)
    ensures Flags(Preprocess(s, d).pp) == Track(Flags(s.pp), d)
  {
  }

  lemma SimulationIf(full: State, short: State, next: State)
    requires Simulates(full, short) && next == Preprocess(full, If)
    ensures Simulates(next, if FirstSeen(next.pp) == |next.pp| then Preprocess(short, If) else short)
  {
    var n, k := |full.pp|, FirstSeen(full.pp);
    FirstSeenUnique(next.pp, if k == n then n + 1 else k);
  }

  lemma SimulationElse(full: State, short: State, next: State)
    requires Simulates(full, short) && full.pp != [] && next == Preprocess(full, Else)
    ensures FirstSeen(next.pp) < |next.pp| && Simulates(next, short)
  {
    var n, k := |full.pp|, FirstSeen(full.pp);
    FirstSeenUnique(next.pp, if k == n then n - 1 else k);
  }

  lemma SimulationEndif(full: State, short: State, next: State)
    requires Simulates(full, short) && full.pp != [] && next == Preprocess(full, Endif)
    ensures Simulates(next, if FirstSeen(next.pp) == |next.pp| then Preprocess(short, Endif) else short)
  {
    var n, k := |full.pp|, FirstSeen(full.pp);
    FirstSeenUnique(next.pp, if k >= n - 1 then n - 1 else k);
  }

  /** A directive, on both sides while the full run is outside all `#else` parts. */
  lemma SimulationDirective(full: State, short: State, d: Directive)
    requires Simulates(full, short)
    ensures var next := Preprocess(full, d);
            Simulates(next, if FirstSeen(next.pp) == |next.pp| then Preprocess(short, d) else short)
  {
    match d
    case NoDirective =>
    case If => SimulationIf(full, short, Preprocess(full, If));
    case Else => if full.pp != [] { SimulationElse(full, short, Preprocess(full, Else)); }
    case Endif => if full.pp != [] { SimulationEndif(full, short, Preprocess(full, Endif)); }
  }

  lemma {:induction false} SimulationRun(full: State, short: State, lines: seq<Line>)
    requires Simulates(full, short)
    ensures Simulates(Run(full, lines), Run(short, Strip(Flags(full.pp), lines)))
    decreases |lines|
  {
    if lines != [] {
      var line, next := lines[0], Update(full, lines[0]);
      SimulationDirective(full, short, line.directive);
      FlagsTrack(full, line.directive);
      HiddenIffSeen(next.pp);
      var short' := if Hidden(Flags(next.pp)) then short else Update(short, line);
      SimulationRun(next, short', lines[1..]);
      RunConcat(short, if Hidden(Flags(next.pp)) then [] else [line], Strip(Flags(next.pp), lines[1..]));
      assert Run(short, [line]) == Update(short, line) by { assert [line][1..] == []; }
    }
  }

  const START := State([], [])

  /** Whenever no conditional is in its `#else` part, a file and the file without its `#else` parts agree. */
  lemma StripPreservesNesting(lines: seq<Line>)
    ensures var full, short := Run(START, lines), Run(START, Strip([], lines));
            && Simulates(full, short)
            && (!Hidden(Flags(full.pp)) ==> short == full)
  {
    assert Flags(START.pp) == [];
    SimulationRun(START, START, lines);
    HiddenIffSeen(Run(START, lines).pp);
  }
}
