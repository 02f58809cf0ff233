/**
  The nesting state of the linter as it is in memory: blocks are objects that later lines
  change in place, and checkpoints hold copies of them.  Every method is shown to do to the
  objects what module Preprocessor says about values, which is where the deep copies matter.
*/
module Nesting {
  import opened Options
  import opened Preprocessor

  class Block {
    const kind: Kind
    var seenOpenBrace: bool
    var openParentheses: int
    var inlineAsm: Asm
    var access: string
    var isDerived: bool

    constructor (v: BlockView)
      ensures View() == v
    {
      kind := v.kind;
      seenOpenBrace := v.seenOpenBrace;
      openParentheses := v.openParentheses;
      inlineAsm := v.inlineAsm;
      access := v.access;
      isDerived := v.isDerived;
    }

    function View(): BlockView
      reads this
    {
      BlockView(kind, seenOpenBrace, openParentheses, inlineAsm, access, isDerived)
    }

    /** Counts the parentheses of a line, and enters or leaves an inline assembly block. */
    method CountParentheses(line: Line)
      modifies this
      ensures View() == Preprocessor.CountParentheses(old(View()), line)
    {
      openParentheses := openParentheses + line.parenthesesChange;
      if inlineAsm == NoAsm || inlineAsm == EndAsm {
        if line.parenthesesChange != 0 && openParentheses == 1 && line.startsAsm {
          inlineAsm := InsideAsm;
        } else {
          inlineAsm := NoAsm;
        }
      } else if inlineAsm == InsideAsm && openParentheses == 0 {
        inlineAsm := EndAsm;
      }
    }

    /** The base clause, while the opening brace is still expected, and the access keyword of a class. */
    method Begin(line: Line, rest: Rest)
      modifies this
      ensures View() == SetAccess(CheckBegin(old(View()), line), rest)
    {
      if !seenOpenBrace && kind.Class? && line.bareColon {
        isDerived := true;
      }
      if kind.Class? && rest.access.Some? {
        access := rest.access.value;
      }
    }
  }

  ghost predicate Distinct<T>(s: seq<T>) {
    forall i, j :: 0 <= i < j < |s| ==> s[i] != s[j]
  }

  ghost predicate Apart(s: seq<Block>, t: seq<Block>) {
    forall b :: b in s ==> b !in t
  }

  /** The blocks have the given field values, in order. */
  ghost predicate ShowsStack(s: seq<Block>, v: Stack)
    reads s
  {
    |s| == |v| && forall i :: 0 <= i < |s| ==> s[i].View() == v[i]
  }

  /** `copy.deepcopy` of a stack. */
  method DeepCopy(s: seq<Block>, ghost v: Stack) returns (c: seq<Block>)
    requires ShowsStack(s, v)
    ensures Distinct(c) && fresh(c)
    ensures ShowsStack(c, v)
  {
    c := [];
    for k := 0 to |s|
      invariant |c| == k && Distinct(c) && fresh(c)
      invariant forall i :: 0 <= i < k ==> c[i].View() == s[i].View()
    {
      var b := new Block(s[k].View());
      c := c + [b];
    }
  }

  class PreprocessorInfo {
    const stackBeforeIf: seq<Block>
    var stackBeforeElse: seq<Block>
    var seenElse: bool

    constructor (stack: seq<Block>)
      ensures stackBeforeIf == stack && stackBeforeElse == [] && !seenElse
    {
      stackBeforeIf := stack;
      stackBeforeElse := [];
      seenElse := false;
    }

    ghost predicate Shows(c: Checkpoint)
      reads this, stackBeforeIf, stackBeforeElse
    {
      ShowsStack(stackBeforeIf, c.beforeIf) && ShowsStack(stackBeforeElse, c.beforeElse) && seenElse == c.seenElse
    }
  }

  class NestingState {
    var stack: seq<Block>
    var previousStackTop: Block?
    var ppStack: seq<PreprocessorInfo>
    ghost var blocks: set<Block>  // every block that the stack or a checkpoint holds

    constructor ()
      ensures Valid() && Shows(START) && fresh(blocks) && fresh(ppStack)
    {
      stack := [];
      previousStackTop := null;
      ppStack := [];
      blocks := {};
    }

    ghost predicate Holds(s: seq<Block>)
      reads this
    {
      forall b :: b in s ==> b in blocks
    }

    /** The stack and the checkpoints share no block, so that changing a block in place changes only the stack. */
    ghost predicate Valid()
      reads this, ppStack
    {
      && Distinct(stack) && Holds(stack) && Distinct(ppStack)
      && (forall i :: 0 <= i < |ppStack| ==> ValidCheckpoint(ppStack[i]))
      && (forall i, j :: 0 <= i < j < |ppStack| ==> Independent(ppStack[j], ppStack[i]))
    }

    ghost predicate ValidCheckpoint(p: PreprocessorInfo)
      reads this, p
    {
      && Holds(p.stackBeforeIf) && Holds(p.stackBeforeElse)
      && Distinct(p.stackBeforeElse)
      && Apart(stack, p.stackBeforeIf)
      && Apart(stack, p.stackBeforeElse)
    }

    static ghost predicate Independent(p: PreprocessorInfo, outer: PreprocessorInfo)
      reads p, outer
    {
      Apart(p.stackBeforeElse, outer.stackBeforeIf) && Apart(p.stackBeforeElse, outer.stackBeforeElse)
    }

    /** The objects have the values of the given state. */
    ghost predicate Shows(v: State)
      requires Valid()
      reads this, ppStack, blocks
    {
      && ShowsStack(stack, v.stack)
      && |ppStack| == |v.pp|
      && forall i :: 0 <= i < |ppStack| ==> ppStack[i].Shows(v.pp[i])
    }

    method PushInfo(info: PreprocessorInfo)
      requires Valid() && info !in ppStack && info.stackBeforeElse == []
      requires forall b :: b in info.stackBeforeIf ==> b !in blocks
      modifies this`ppStack, this`blocks
      ensures Valid() && blocks == old(blocks) + set b | b in info.stackBeforeIf
      ensures ppStack == old(ppStack) + [info]
    {
      ppStack := ppStack + [info];
      blocks := blocks + set b | b in info.stackBeforeIf;
      ghost var n := |ppStack| - 1;
      assert ValidCheckpoint(ppStack[n]);
      assert forall i :: 0 <= i < n ==> ppStack[i] == old(ppStack)[i] && ValidCheckpoint(ppStack[i]);
    }

    method PushCheckpoint(info: PreprocessorInfo, ghost v: State)
      requires Valid() && Shows(v) && info !in ppStack
      requires ShowsStack(info.stackBeforeIf, v.stack) && info.stackBeforeElse == [] && !info.seenElse
      requires forall b :: b in info.stackBeforeIf ==> b !in blocks
      modifies this`ppStack, this`blocks
      ensures Valid() && blocks == old(blocks) + set b | b in info.stackBeforeIf
      ensures ppStack == old(ppStack) + [info]
      ensures Shows(Preprocess(v, If))
    {
      PushInfo(info);
      ghost var n := |ppStack| - 1;
      assert ppStack[n].Shows(Checkpoint(v.stack, [], false));
      assert forall i :: 0 <= i < n ==> ppStack[i] == old(ppStack)[i] && ppStack[i].Shows(v.pp[i]);
    }

    method BeginIf(ghost v: State)
      requires Valid() && Shows(v)
      modifies this
      ensures Valid() && fresh(blocks - old(blocks)) && old(blocks) <= blocks
      ensures stack == old(stack) && previousStackTop == old(previousStackTop)
      ensures |ppStack| == |old(ppStack)| + 1 && ppStack[..|old(ppStack)|] == old(ppStack)
      ensures fresh(ppStack[|old(ppStack)|])
      ensures Shows(Preprocess(v, If))
    {
      var saved := DeepCopy(stack, v.stack);
      var info := new PreprocessorInfo(saved);
      PushCheckpoint(info, v);
    }

    /** The assignments of the first `#else`, which share nothing with what is already there. */
    method SetBeforeElse(kept: seq<Block>)
      requires Valid() && ppStack != [] && Distinct(kept) && forall b :: b in kept ==> b !in blocks
      modifies this`blocks, ppStack[|ppStack| - 1]
      ensures Valid() && blocks == old(blocks) + set b | b in kept
      ensures var top := ppStack[|ppStack| - 1]; top.seenElse && top.stackBeforeElse == kept
    {
      var top := ppStack[|ppStack| - 1];
      top.seenElse := true;
      top.stackBeforeElse := kept;
      blocks := blocks + set b | b in kept;
      ghost var n := |ppStack| - 1;
      assert ValidCheckpoint(top);
      assert forall i :: 0 <= i < n ==> ppStack[i] != top && ValidCheckpoint(ppStack[i]) && Independent(top, ppStack[i]);
    }

    /** Remembers a copy of the stack in front of the first `#else` of the innermost conditional. */
    method KeepBeforeElse(kept: seq<Block>, ghost v: State)
      requires Valid() && Shows(v) && ppStack != []
      requires Distinct(kept) && ShowsStack(kept, v.stack) && forall b :: b in kept ==> b !in blocks
      modifies this`blocks, ppStack[|ppStack| - 1]
      ensures Valid() && blocks == old(blocks) + set b | b in kept
      ensures Shows(v.(pp := v.pp[|v.pp| - 1 := v.pp[|v.pp| - 1].(seenElse := true, beforeElse := v.stack)]))
    {
      SetBeforeElse(kept);
      ghost var n := |ppStack| - 1;
      assert forall i :: 0 <= i < n ==> ppStack[i] != ppStack[n] && ppStack[i].Shows(v.pp[i]);
    }

    method RestoreBeforeIf(ghost v: State)
      requires Valid() && Shows(v) && ppStack != []
      modifies this`stack, this`blocks
      ensures Valid() && fresh(blocks - old(blocks)) && old(blocks) <= blocks && fresh(stack)
      ensures Shows(v.(stack := v.pp[|v.pp| - 1].beforeIf))
    {
      stack := DeepCopy(ppStack[|ppStack| - 1].stackBeforeIf, v.pp[|v.pp| - 1].beforeIf);
      blocks := blocks + set b | b in stack;
    }

    /** The checkpoint of the first `#else`; later ones leave it alone. */
    method KeepFirst(ghost v: State)
      requires Valid() && Shows(v) && ppStack != []
      modifies this`blocks, ppStack[|ppStack| - 1]
      ensures Valid() && fresh(blocks - old(blocks)) && old(blocks) <= blocks
      ensures Shows(v.(pp := Preprocess(v, Else).pp))
    {
      if !ppStack[|ppStack| - 1].seenElse {
        var kept := DeepCopy(stack, v.stack);
        KeepBeforeElse(kept, v);
      }
    }

    method BeginElse(ghost v: State)
      requires Valid() && Shows(v)
      modifies this, ppStack
      ensures Valid() && fresh(blocks - old(blocks)) && old(blocks) <= blocks
      ensures ppStack == old(ppStack) && previousStackTop == old(previousStackTop)
      ensures if Replaces(v, Else) then fresh(stack) else stack == old(stack)
      ensures Shows(Preprocess(v, Else))
    {
      if ppStack != [] {
        KeepFirst(v);
        RestoreBeforeIf(v.(pp := Preprocess(v, Else).pp));
      }
    }

    method EndIf(ghost v: State)
      requires Valid() && Shows(v)
      modifies this
      ensures Valid() && blocks == old(blocks)
      ensures previousStackTop == old(previousStackTop)
      ensures forall i :: 0 <= i < |ppStack| ==> ppStack[i] in old(ppStack)
      ensures if Replaces(v, Endif) then Apart(old(stack), stack) else stack == old(stack)
      ensures Shows(Preprocess(v, Endif))
    {
      if ppStack != [] {
        var top := ppStack[|ppStack| - 1];
        if top.seenElse {
          stack := top.stackBeforeElse;
        }
        ppStack := ppStack[..|ppStack| - 1];
      }
    }

    method UpdatePreprocessor(d: Directive, ghost v: State)
      requires Valid() && Shows(v)
      modifies this, ppStack
      ensures Valid() && Shows(Preprocess(v, d)) && fresh(blocks - old(blocks)) && old(blocks) <= blocks
      ensures d == Else && v.pp != [] ==> ShowsStack(stack, v.pp[|v.pp| - 1].beforeIf)
      ensures if Replaces(v, d) then Apart(old(stack), stack) else stack == old(stack)
      ensures previousStackTop == old(previousStackTop)
      ensures forall i :: 0 <= i < |ppStack| ==> ppStack[i] in old(ppStack) || fresh(ppStack[i])
    {
      match d
      case NoDirective =>
      case If => BeginIf(v);
      case Else => BeginElse(v);
      case Endif => EndIf(v);
    }

    method CountParentheses(line: Line, ghost v: State)
      requires Valid() && Shows(v) && stack != []
      modifies stack[|stack| - 1]
      ensures Valid() && Shows(v.(stack := SetTop(v.stack, Preprocessor.CountParentheses(Top(v.stack), line))))
    {
      var top := stack[|stack| - 1];
      assert forall i :: 0 <= i < |ppStack| ==>
          ValidCheckpoint(ppStack[i]) && top !in ppStack[i].stackBeforeIf && top !in ppStack[i].stackBeforeElse;
      top.CountParentheses(line);
    }

    method Push(b: BlockView, ghost v: State)
      requires Valid() && Shows(v)
      modifies this`stack, this`blocks
      ensures Valid() && Shows(v.(stack := v.stack + [b]))
      ensures |stack| == |old(stack)| + 1 && stack[..|stack| - 1] == old(stack)
      ensures fresh(stack[|stack| - 1]) && blocks == old(blocks) + {stack[|stack| - 1]}
    {
      var block := new Block(b);
      stack := stack + [block];
      blocks := blocks + {block};
    }

    method Pop(ghost v: State)
      requires Valid() && Shows(v) && stack != []
      modifies this`stack
      ensures Valid() && Shows(v.(stack := v.stack[..|v.stack| - 1]))
      ensures stack == old(stack)[..|old(stack)| - 1]
    {
      stack := stack[..|stack| - 1];
    }

    method DeclareNamespaces(ds: seq<NamespaceDecl>, ghost v: State)
      requires Valid() && Shows(v)
      modifies this`stack, this`blocks
      ensures Valid() && Shows(v.(stack := PushNamespaces(v.stack, ds))) && fresh(blocks - old(blocks))
      ensures old(stack) <= stack && (forall j :: |old(stack)| <= j < |stack| ==> fresh(stack[j])) && old(blocks) <= blocks
    {
      ghost var u := v;
      for k := 0 to |ds|
        invariant Valid() && Shows(u) && fresh(blocks - old(blocks))
        invariant old(stack) <= stack && (forall j :: |old(stack)| <= j < |stack| ==> fresh(stack[j])) && old(blocks) <= blocks
        invariant u.pp == v.pp && PushNamespaces(v.stack, ds) == PushNamespaces(u.stack, ds[k..])
      {
        Push(NewNamespace(ds[k]), u);
        u := u.(stack := u.stack + [NewNamespace(ds[k])]);
        assert ds[k..][1..] == ds[k + 1..];
      }
    }

    method BeginBlock(line: Line, rest: Rest, ghost v: State)
      requires Valid() && Shows(v) && stack != []
      modifies stack[|stack| - 1]
      ensures Valid() && Shows(v.(stack := SetTop(v.stack, SetAccess(CheckBegin(Top(v.stack), line), rest))))
    {
      var top := stack[|stack| - 1];
      assert forall i :: 0 <= i < |ppStack| ==>
          ValidCheckpoint(ppStack[i]) && top !in ppStack[i].stackBeforeIf && top !in ppStack[i].stackBeforeElse;
      top.Begin(line, rest);
    }

    method MarkOpenBrace(ghost v: State)
      requires Valid() && Shows(v) && stack != []
      modifies stack[|stack| - 1]
      ensures Valid() && Shows(v.(stack := SetTop(v.stack, Top(v.stack).(seenOpenBrace := true))))
    {
      var top := stack[|stack| - 1];
      assert forall i :: 0 <= i < |ppStack| ==>
          ValidCheckpoint(ppStack[i]) && top !in ppStack[i].stackBeforeIf && top !in ppStack[i].stackBeforeElse;
      top.seenOpenBrace := true;
    }

    method Consume(token: Token, ghost v: State)
      requires Valid() && Shows(v)
      modifies this`stack, this`blocks, blocks
      ensures Valid() && Shows(v.(stack := ConsumeToken(v.stack, token))) && fresh(blocks - old(blocks))
      ensures old(blocks) <= blocks
      ensures forall j :: 0 <= j < |stack| ==> if j < |old(stack)| then stack[j] == old(stack)[j] else fresh(stack[j])
      ensures forall b :: b in old(blocks) && b !in stack ==> b.View() == old(b.View())
    {
      var seen := stack == [] || stack[|stack| - 1].seenOpenBrace;
      if token.OpenBrace? {
        if !seen {
          MarkOpenBrace(v);
        } else {
          Push(NewBlock(token), v);
        }
      } else if token == Semicolon || token == CloseParenthesis {
        if !seen { Pop(v); }
      } else if stack != [] {
        Pop(v);
      }
    }

    /** A block is still at height `i`, or popped with the values that it had. */
    ghost predicate Tracks(b: Block, i: nat, s: Stack, tokens: seq<Token>, last: BlockView)
      reads this, b
    {
      if b in stack then i < |stack| == |s| && stack[i] == b && Follow(s, i, tokens) == last else b.View() == last
    }

    method ConsumeAll(tokens: seq<Token>, ghost v: State)
      requires Valid() && Shows(v)
      modifies this`stack, this`blocks, blocks
      ensures Valid() && Shows(v.(stack := ConsumeTokens(v.stack, tokens))) && fresh(blocks - old(blocks))
      ensures forall i :: 0 <= i < |old(stack)| ==> old(stack)[i].View() == Follow(v.stack, i, tokens)
      ensures forall b :: b in old(blocks) && b !in old(stack) ==> b.View() == old(b.View())
    {
      ghost var u := v;
      assert tokens[0..] == tokens;
      for k := 0 to |tokens|
        invariant Valid() && Shows(u) && fresh(blocks - old(blocks)) && old(blocks) <= blocks
        invariant u.pp == v.pp && ConsumeTokens(v.stack, tokens) == ConsumeTokens(u.stack, tokens[k..])
        invariant forall j :: 0 <= j < |stack| ==> stack[j] in old(stack) || fresh(stack[j])
        invariant forall b :: b in old(blocks) && b !in old(stack) ==> b.View() == old(b.View())
        invariant forall i :: 0 <= i < |old(stack)| ==>
                    Tracks(old(stack)[i], i, u.stack, tokens[k..], Follow(v.stack, i, tokens))
      {
        Consume(tokens[k], u);
        u := u.(stack := ConsumeToken(u.stack, tokens[k]));
        assert tokens[k..][1..] == tokens[k + 1..];
      }
    }

    method DeclareClass(line: Line, ghost v: State) returns (rest: Rest)
      requires Valid() && Shows(v)
      modifies this`stack, this`blocks
      ensures Valid() && fresh(blocks - old(blocks)) && old(blocks) <= blocks
      ensures if DeclaresClass(v.stack, line)
              then Shows(v.(stack := v.stack + [NewClass(line.classDecl.value)])) && rest == line.classDecl.value.rest
              else Shows(v) && rest == line.rest
      ensures old(stack) <= stack && forall j :: |old(stack)| <= j < |stack| ==> fresh(stack[j])
    {
      rest := line.rest;
      if line.classDecl.Some? && (stack == [] || stack[|stack| - 1].openParentheses == 0)
         && !line.classDecl.value.inTemplateArguments {
        Push(NewClass(line.classDecl.value), v);
        rest := line.classDecl.value.rest;
      }
    }

    method DeclareLine(line: Line, ghost v: State) returns (rest: Rest)
      requires Valid() && Shows(v)
      modifies this`stack, this`blocks, stack
      ensures Valid() && fresh(blocks - old(blocks)) && old(blocks) <= blocks
      ensures Shows(v.(stack := Declare(v.stack, line).0)) && rest == Declare(v.stack, line).1
      ensures old(stack) <= stack && forall j :: |old(stack)| <= j < |stack| ==> fresh(stack[j])
    {
      ghost var u := v;
      if stack != [] {
        CountParentheses(line, u);
        u := u.(stack := SetTop(u.stack, Preprocessor.CountParentheses(Top(u.stack), line)));
      }
      DeclareNamespaces(line.namespaces, u);
      rest := DeclareClass(line, v.(stack := AfterNamespaces(v.stack, line)));
    }

    /** Everything `Update` does after the directive. */
    method ApplyLine(line: Line, ghost v: State)
      requires Valid() && Shows(v)
      modifies this`stack, this`blocks, blocks
      ensures Valid() && Shows(v.(stack := StepLine(v.stack, line))) && fresh(blocks - old(blocks))
      ensures old(stack) != [] ==> old(stack)[|old(stack)| - 1].View() == FollowTop(v.stack, line)
      ensures forall b :: b in old(blocks) && b !in old(stack) ==> b.View() == old(b.View())
    {
      var rest := DeclareLine(line, v);
      ghost var u := v.(stack := Declare(v.stack, line).0);
      if stack != [] {
        BeginBlock(line, rest, u);
        u := u.(stack := SetTop(u.stack, SetAccess(CheckBegin(Top(u.stack), line), rest)));
      }
      ConsumeAll(rest.tokens, u);
    }

    /** The same, for one block that is on top of the stack or not in it. */
    method ApplyBelow(line: Line, ghost v: State, ghost top: Block?, ghost replaced: bool)
      requires Valid() && Shows(v)
      requires top != null ==> top in blocks && if replaced then top !in stack else stack != [] && top == stack[|stack| - 1]
      modifies this`stack, this`blocks, blocks
      ensures Valid() && Shows(v.(stack := StepLine(v.stack, line))) && fresh(blocks - old(blocks))
      ensures top != null ==> top.View() == if replaced then old(top.View()) else FollowTop(v.stack, line)
    {
      ApplyLine(line, v);
    }

    /** The part of `Update` up to the directive. */
    method RememberTop(line: Line, ghost v: State)
      requires Valid() && Shows(v)
      modifies this, ppStack
      ensures Valid() && Shows(Preprocess(v, line.directive)) && fresh(blocks - old(blocks))
      ensures previousStackTop == if old(stack) == [] then null else old(stack)[|old(stack)| - 1]
      ensures previousStackTop != null ==>
                && previousStackTop in blocks && v.stack != [] && previousStackTop.View() == Top(v.stack)
                && if Replaces(v, line.directive) then previousStackTop !in stack
                   else stack != [] && previousStackTop == stack[|stack| - 1]
      ensures forall i :: 0 <= i < |ppStack| ==> ppStack[i] in old(ppStack) || fresh(ppStack[i])
    {
      previousStackTop := if stack == [] then null else stack[|stack| - 1];
      UpdatePreprocessor(line.directive, v);
    }

    method Update(line: Line, ghost v: State)
      requires Valid() && Shows(v)
      modifies this, ppStack, blocks
      ensures Valid() && Shows(Preprocessor.Update(v, line)) && fresh(blocks - old(blocks))
      ensures previousStackTop == if old(stack) == [] then null else old(stack)[|old(stack)| - 1]
      ensures previousStackTop != null ==> v.stack != [] && previousStackTop.View() == TopAfter(v, line)
      ensures forall i :: 0 <= i < |ppStack| ==> ppStack[i] in old(ppStack) || fresh(ppStack[i])
    {
      RememberTop(line, v);
      ApplyBelow(line, Preprocess(v, line.directive), previousStackTop, Replaces(v, line.directive));
    }

    /** For example: after a line with one open parenthesis the remembered block is not as it was. */
    method OpenParenthesis(ghost v: State)
      requires Valid() && Shows(v) && stack != []
      modifies this, ppStack, blocks
      ensures previousStackTop == old(stack[|stack| - 1])
      ensures previousStackTop.openParentheses == old(stack[|stack| - 1].openParentheses) + 1
    {
      var line := Line(NoDirective, 1, false, [], None, false, Rest(None, []));
      assert TopAfter(v, line).openParentheses == Top(v.stack).openParentheses + 1 by {
        FollowTopCounts(v.stack, line);
      }
      Update(line, v);
    }

    /** The calls of `Update`, line after line. */
    method UpdateLines(lines: seq<Line>, ghost v: State)
      requires Valid() && Shows(v)
      modifies this, ppStack, blocks
      ensures Valid() && Shows(Run(v, lines))
    {
      ghost var u := v;
      for k := 0 to |lines|
        invariant Valid() && Shows(u)
        invariant fresh(blocks - old(blocks))
        invariant forall i :: 0 <= i < |ppStack| ==> ppStack[i] in old(ppStack) || fresh(ppStack[i])
        invariant Run(v, lines) == Run(u, lines[k..])
      {
        ghost var next := Preprocessor.Update(u, lines[k]);
        assert Run(u, lines[k..]) == Run(next, lines[k + 1..]) by { assert lines[k..][1..] == lines[k + 1..]; }
        Update(lines[k], u);
        u := next;
      }
      assert lines[|lines|..] == [];
    }

    /**
      Reading a file up to a place inside the `#else` part of a conditional: the objects show the
      stack of the file without the `#if` and its branch.
    */
    method UpdateElse(before: seq<Line>, open: Line, body: seq<Line>, other: Line, tail: seq<Line>)
      requires Valid() && Shows(START)
      requires open.directive == If && other.directive == Else
      requires Inner(body, 0, false) && Inner(tail, 0, false)
      modifies this, ppStack, blocks
      ensures Valid() && ShowsStack(stack, Run(START, before + ([Ordinary(other)] + tail)).stack)
    {
      UpdateLines(before + ([open] + body + [other] + tail), START);
      ElseInFile(before, open, body, other, tail);
    }

    /** Reading a file: the objects end up as the run over values says, whatever was changed in place. */
    method UpdateAll(lines: seq<Line>)
      requires Valid() && Shows(START)
      modifies this, ppStack, blocks
      ensures Valid() && Shows(Run(START, lines))
      ensures !Hidden(Flags(Run(START, lines).pp)) ==> Shows(Run(START, Strip([], lines)))
    {
      UpdateLines(lines, START);
      StripPreservesNesting(lines);
    }
  }
}
