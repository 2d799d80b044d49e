/**
 * The `#ifdef`/`#ifndef`/`#else`/`#endif` pass of src/preprocessor/mod.rs
 * (`process_conditionals`), as a function over the statement list: a stack
 * of open frames, and the statements kept so far. The method
 * `Preprocessor.ProcessConditionals` of module `Preprocessing` runs the
 * same pass with a loop and is proved to return `Conditionals`.
 */
module Conditionals {
  import opened Wrappers
  import opened Spans
  import opened Ast
  import opened Substitution

  /**
   * `ConditionalType`: which directive opened a frame. The names differ
   * from the source's `IfDef`/`IfNDef`, which are statements here.
   */
  datatype ConditionalType = IfDefined | IfNotDefined

  /** `ConditionalInfo`: one open frame. */
  datatype ConditionalInfo = ConditionalInfo(conditionResult: bool, seenElse: bool, conditionalType: ConditionalType, span: Span)

  /** A frame is in its active branch: the condition held and no `#else` was seen, or it failed and one was. */
  predicate InActiveBranch(f: ConditionalInfo)
  {
    if f.seenElse then !f.conditionResult else f.conditionResult
  }

  /** What `should_include_statement_with_info` decides: every open frame is in its active branch. */
  predicate Active(stack: seq<ConditionalInfo>)
  {
    forall k :: 0 <= k < |stack| ==> InActiveBranch(stack[k])
  }

  predicate IsConditional(s: Statement)
  {
    s.IfDef? || s.IfNDef? || s.Else? || s.EndIf?
  }

  predicate NoConditional(stmts: seq<Statement>)
  {
    forall k :: 0 <= k < |stmts| ==> !IsConditional(stmts[k])
  }

  /** The pass's state: the open frames, innermost last, and the statements kept. */
  datatype Scan = Scan(stack: seq<ConditionalInfo>, kept: seq<Statement>)

  /** The frame a directive opens: `#ifdef` holds when the name is defined, `#ifndef` when it is not. */
  function Frame(s: Statement, defs: Definitions): (f: ConditionalInfo)
    requires (s.IfDef? || s.IfNDef?) && s.symbol.Identifier?
    ensures !f.seenElse && f.span == s.span
    ensures f.conditionResult <==> (s.symbol.name in defs <==> s.IfDef?)
  {
    if s.IfDef? then ConditionalInfo(s.symbol.name in defs, false, IfDefined, s.span)
    else ConditionalInfo(s.symbol.name !in defs, false, IfNotDefined, s.span)
  }

  /** One iteration of the pass's loop. */
  function Step(sc: Scan, s: Statement, defs: Definitions): (r: Result<Scan, PreprocessError>)
  {
    match s
    case IfDef(e, sp) =>
      if e.Identifier? then Ok(sc.(stack := sc.stack + [Frame(s, defs)])) else Err(InvalidConditionalExpr(sp))
    case IfNDef(e, sp) =>
      if e.Identifier? then Ok(sc.(stack := sc.stack + [Frame(s, defs)])) else Err(InvalidConditionalExpr(sp))
    case Else(sp) =>
      if sc.stack == [] || sc.stack[|sc.stack| - 1].seenElse then Err(UnmatchedElse(sp))
      else
        var top := sc.stack[|sc.stack| - 1];
        Ok(sc.(stack := sc.stack[..|sc.stack| - 1] + [top.(seenElse := true)]))
    case EndIf(sp) =>
      if sc.stack == [] then Err(UnmatchedEndif(sp)) else Ok(sc.(stack := sc.stack[..|sc.stack| - 1]))
    case _ =>
      Ok(if Active(sc.stack) then sc.(kept := sc.kept + [s]) else sc)
  }

  /** The loop over `stmts` from state `sc`, stopping at the first error. */
  function Run(stmts: seq<Statement>, sc: Scan, defs: Definitions): (r: Result<Scan, PreprocessError>)
    decreases |stmts|
  {
    if stmts == [] then Ok(sc)
    else
      var next :- Step(sc, stmts[0], defs);
      Run(stmts[1..], next, defs)
  }

  /** The pass over `rest` after an earlier part of it ended in `r`. */
  function RunAfter(r: Result<Scan, PreprocessError>, rest: seq<Statement>, defs: Definitions): Result<Scan, PreprocessError>
  {
    match r
    case Ok(sc) => Run(rest, sc, defs)
    case Err(e) => Err(e)
  }

  /** The error for a frame left open at the end. */
  function Unclosed(f: ConditionalInfo): (e: PreprocessError)
  {
    match f.conditionalType
    case IfDefined => UnmatchedIfdef(f.span)
    case IfNotDefined => UnmatchedIfndef(f.span)
  }

  /** `process_conditionals`: the kept statements, or the first mismatch. */
  function Conditionals(stmts: seq<Statement>, defs: Definitions): (r: Result<seq<Statement>, PreprocessError>)
  {
    var sc :- Run(stmts, Scan([], []), defs);
    if sc.stack == [] then Ok(sc.kept) else Err(Unclosed(sc.stack[|sc.stack| - 1]))
  }

  /** `k` in front of a successful list of statements; an error passes through. */
  function Prefixed(k: seq<Statement>, r: Result<seq<Statement>, PreprocessError>): Result<seq<Statement>, PreprocessError>
  {
    match r
    case Ok(v) => Ok(k + v)
    case Err(e) => Err(e)
  }

  /**
   * `a` is a subsequence of `b`: its elements appear in `b` in the same
   * order (not necessarily next to each other).
   */
  predicate Subsequence(a: seq<Statement>, b: seq<Statement>)
    decreases |b|
  {
    |a| <= |b|
    && (a == [] || (a[0] == b[0] && Subsequence(a[1..], b[1..])) || Subsequence(a, b[1..]))
  }

  lemma {:induction false} SubsequenceMembers(a: seq<Statement>, b: seq<Statement>)
    requires Subsequence(a, b)
    ensures forall x :: x in a ==> x in b
    decreases |b|
  {
    if a != [] {
      if a[0] == b[0] && Subsequence(a[1..], b[1..]) {
        SubsequenceMembers(a[1..], b[1..]);
        assert forall x :: x in a ==> x == a[0] || x in a[1..];
      } else {
        SubsequenceMembers(a, b[1..]);
      }
    }
  }

  /** A frame pushed onto the stack: the statements are active exactly when they were and the frame is. */
  lemma ActivePush(stack: seq<ConditionalInfo>, f: ConditionalInfo)
    ensures Active(stack + [f]) <==> Active(stack) && InActiveBranch(f)
  {
    if Active(stack) && InActiveBranch(f) {
      forall k | 0 <= k < |stack + [f]|
        ensures InActiveBranch((stack + [f])[k])
      {
        if k < |stack| {
          assert (stack + [f])[k] == stack[k];
        }
      }
    }
    if Active(stack + [f]) {
      assert (stack + [f])[|stack|] == f;
      forall k | 0 <= k < |stack|
        ensures InActiveBranch(stack[k])
      {
        assert (stack + [f])[k] == stack[k];
      }
    }
  }

  /** The pass runs over a concatenation one part after the other. */
  lemma {:induction false} RunAppend(a: seq<Statement>, b: seq<Statement>, sc: Scan, defs: Definitions)
    ensures Run(a + b, sc, defs) == RunAfter(Run(a, sc, defs), b, defs)
    decreases |a|
  {
    if a != [] {
      assert (a + b)[0] == a[0] && (a + b)[1..] == a[1..] + b;
      var next := Step(sc, a[0], defs);
      if next.Ok? {
        RunAppend(a[1..], b, next.value, defs);
        assert Run(a + b, sc, defs) == Run(a[1..] + b, next.value, defs);
        assert Run(a, sc, defs) == Run(a[1..], next.value, defs);
      } else {
        assert Run(a + b, sc, defs) == Err(next.error);
        assert Run(a, sc, defs) == Err(next.error);
      }
    } else {
      assert a + b == b;
    }
  }

  /**
   * Statements with no conditional directive leave the stack alone, and
   * all of them are kept exactly when the stack is active.
   */
  lemma {:induction false} RunPlain(stmts: seq<Statement>, sc: Scan, defs: Definitions)
    requires NoConditional(stmts)
    ensures Run(stmts, sc, defs) == Ok(sc.(kept := sc.kept + (if Active(sc.stack) then stmts else [])))
    decreases |stmts|
  {
    if stmts != [] {
      assert !IsConditional(stmts[0]);
      var next := if Active(sc.stack) then sc.(kept := sc.kept + [stmts[0]]) else sc;
      assert Step(sc, stmts[0], defs) == Ok(next);
      assert NoConditional(stmts[1..]) by {
        forall k | 0 <= k < |stmts[1..]|
          ensures !IsConditional(stmts[1..][k])
        {
          assert stmts[1..][k] == stmts[k + 1];
        }
      }
      RunPlain(stmts[1..], next, defs);
      if Active(sc.stack) {
        assert sc.kept + [stmts[0]] + stmts[1..] == sc.kept + stmts;
      }
    } else {
      assert sc.kept + [] == sc.kept;
    }
  }

  /** A list without conditional directives passes through unchanged. */
  lemma ConditionalsIdentity(stmts: seq<Statement>, defs: Definitions)
    requires NoConditional(stmts)
    ensures Conditionals(stmts, defs) == Ok(stmts)
  {
    RunPlain(stmts, Scan([], []), defs);
    assert Active([]);
    assert [] + stmts == stmts;
  }

  /** What is kept already does not influence the rest of the pass. */
  lemma {:induction false} RunKeptPrefix(stmts: seq<Statement>, stack: seq<ConditionalInfo>, k: seq<Statement>, defs: Definitions)
    ensures var r, r0 := Run(stmts, Scan(stack, k), defs), Run(stmts, Scan(stack, []), defs);
      r.Ok? == r0.Ok?
      && (r.Ok? ==> r.value == r0.value.(kept := k + r0.value.kept))
      && (r.Err? ==> r.error == r0.error)
    decreases |stmts|
  {
    if stmts != [] {
      var s := stmts[0];
      var n, n0 := Step(Scan(stack, k), s, defs), Step(Scan(stack, []), s, defs);
      if n0.Ok? {
        assert n.Ok? && n.value.stack == n0.value.stack && n.value.kept == k + n0.value.kept;
        RunKeptPrefix(stmts[1..], n0.value.stack, k + n0.value.kept, defs);
        RunKeptPrefix(stmts[1..], n0.value.stack, n0.value.kept, defs);
      }
    }
  }

  /** The pass from the empty state, with `k` already kept, is `k` in front of the pass itself. */
  lemma ConditionalsAfter(rest: seq<Statement>, k: seq<Statement>, defs: Definitions)
    ensures (match Run(rest, Scan([], k), defs)
             case Ok(sc) => if sc.stack == [] then Ok(sc.kept) else Err(Unclosed(sc.stack[|sc.stack| - 1]))
             case Err(e) => Err(e))
      == Prefixed(k, Conditionals(rest, defs))
  {
    RunKeptPrefix(rest, [], k, defs);
  }

  /** The pass over `[s] + rest`: one step, then the rest. */
  lemma StepThen(s: Statement, rest: seq<Statement>, sc: Scan, defs: Definitions)
    ensures Run([s] + rest, sc, defs) == RunAfter(Step(sc, s, defs), rest, defs)
  {
    assert ([s] + rest)[0] == s && ([s] + rest)[1..] == rest;
  }

  /** The pass over `a + rest` with `a` free of conditional directives. */
  lemma PlainThen(a: seq<Statement>, rest: seq<Statement>, sc: Scan, defs: Definitions)
    requires NoConditional(a)
    ensures Run(a + rest, sc, defs) == Run(rest, sc.(kept := sc.kept + (if Active(sc.stack) then a else [])), defs)
  {
    RunPlain(a, sc, defs);
    RunAppend(a, rest, sc, defs);
  }

  lemma StepOpen(sc: Scan, open: Statement, defs: Definitions)
    requires (open.IfDef? || open.IfNDef?) && open.symbol.Identifier?
    ensures Step(sc, open, defs) == Ok(sc.(stack := sc.stack + [Frame(open, defs)]))
  {
  }

  lemma StepElse(stack: seq<ConditionalInfo>, f: ConditionalInfo, kept: seq<Statement>, sp: Span, defs: Definitions)
    requires !f.seenElse
    ensures Step(Scan(stack + [f], kept), Else(sp), defs) == Ok(Scan(stack + [f.(seenElse := true)], kept))
  {
    assert (stack + [f])[..|stack|] == stack;
  }

  lemma StepEndIf(stack: seq<ConditionalInfo>, f: ConditionalInfo, kept: seq<Statement>, sp: Span, defs: Definitions)
    ensures Step(Scan(stack + [f], kept), EndIf(sp), defs) == Ok(Scan(stack, kept))
  {
    assert (stack + [f])[..|stack|] == stack;
  }

  /** The opening directive and the first branch: the frame is pushed and `a` kept when it is active. */
  lemma OpenBranch(open: Statement, a: seq<Statement>, rest: seq<Statement>, sc: Scan, defs: Definitions)
    requires (open.IfDef? || open.IfNDef?) && open.symbol.Identifier?
    requires NoConditional(a)
    ensures var f := Frame(open, defs);
      Run([open] + (a + rest), sc, defs)
        == Run(rest, Scan(sc.stack + [f], sc.kept + (if Active(sc.stack) && f.conditionResult then a else [])), defs)
  {
    var f := Frame(open, defs);
    ActivePush(sc.stack, f);
    StepOpen(sc, open, defs);
    StepThen(open, a + rest, sc, defs);
    PlainThen(a, rest, Scan(sc.stack + [f], sc.kept), defs);
  }

  /** `#else`, the second branch and `#endif`: `b` kept when the frame failed, and the frame popped. */
  lemma ElseBranch(stack: seq<ConditionalInfo>, f: ConditionalInfo, ka: seq<Statement>, esp: Span,
                   b: seq<Statement>, fsp: Span, rest: seq<Statement>, defs: Definitions)
    requires !f.seenElse && NoConditional(b)
    ensures Run([Else(esp)] + (b + ([EndIf(fsp)] + rest)), Scan(stack + [f], ka), defs)
      == Run(rest, Scan(stack, ka + (if Active(stack) && !f.conditionResult then b else [])), defs)
  {
    var g := f.(seenElse := true);
    var kb := ka + (if Active(stack) && !f.conditionResult then b else []);
    ActivePush(stack, g);
    StepElse(stack, f, ka, esp, defs);
    StepThen(Else(esp), b + ([EndIf(fsp)] + rest), Scan(stack + [f], ka), defs);
    PlainThen(b, [EndIf(fsp)] + rest, Scan(stack + [g], ka), defs);
    StepEndIf(stack, g, kb, fsp, defs);
    StepThen(EndIf(fsp), rest, Scan(stack + [g], kb), defs);
  }

  /**
   * A block `open a #else b #endif` on top of `sc`'s stack: `a` is kept when
   * the enclosing frames are active and the frame's condition holds, `b`
   * when they are active and it does not; the stack is as before.
   */
  lemma BlockRun(open: Statement, a: seq<Statement>, esp: Span, b: seq<Statement>, fsp: Span,
                 rest: seq<Statement>, sc: Scan, defs: Definitions)
    requires (open.IfDef? || open.IfNDef?) && open.symbol.Identifier?
    requires NoConditional(a) && NoConditional(b)
    ensures var c := Frame(open, defs).conditionResult;
      Run([open] + a + [Else(esp)] + b + [EndIf(fsp)] + rest, sc, defs)
        == Run(rest, Scan(sc.stack, sc.kept + (if Active(sc.stack) && c then a else [])
                                            + (if Active(sc.stack) && !c then b else [])), defs)
  {
    var f := Frame(open, defs);
    var tail := [Else(esp)] + (b + ([EndIf(fsp)] + rest));
    assert [open] + a + [Else(esp)] + b + [EndIf(fsp)] + rest == [open] + (a + tail);
    OpenBranch(open, a, tail, sc, defs);
    var ka := sc.kept + (if Active(sc.stack) && f.conditionResult then a else []);
    ElseBranch(sc.stack, f, ka, esp, b, fsp, rest, defs);
  }

  /** The statements a block keeps at the outermost level: one branch or the other. */
  lemma OutermostChoice(c: bool, a: seq<Statement>, b: seq<Statement>)
    ensures [] + (if Active([]) && c then a else []) + (if Active([]) && !c then b else []) == (if c then a else b)
  {
    assert Active([]);
    if c {
      assert [] + a + [] == a;
    } else {
      assert [] + [] + b == b;
    }
  }

  /**
   * `#ifdef NAME a #else b #endif rest`: `a` is kept when NAME is defined
   * and `b` when it is not, and `rest` follows.
   */
  lemma IfDefElseSelects(n: string, sp: Span, a: seq<Statement>, esp: Span, b: seq<Statement>, fsp: Span,
                         rest: seq<Statement>, defs: Definitions)
    requires NoConditional(a) && NoConditional(b)
    ensures Conditionals([IfDef(Identifier(n), sp)] + a + [Else(esp)] + b + [EndIf(fsp)] + rest, defs)
      == Prefixed(if n in defs then a else b, Conditionals(rest, defs))
  {
    BlockRun(IfDef(Identifier(n), sp), a, esp, b, fsp, rest, Scan([], []), defs);
    OutermostChoice(n in defs, a, b);
    ConditionalsAfter(rest, if n in defs then a else b, defs);
  }

  /** `#ifndef NAME a #else b #endif rest`: `a` is kept when NAME is not defined. */
  lemma IfNDefElseSelects(n: string, sp: Span, a: seq<Statement>, esp: Span, b: seq<Statement>, fsp: Span,
                          rest: seq<Statement>, defs: Definitions)
    requires NoConditional(a) && NoConditional(b)
    ensures Conditionals([IfNDef(Identifier(n), sp)] + a + [Else(esp)] + b + [EndIf(fsp)] + rest, defs)
      == Prefixed(if n !in defs then a else b, Conditionals(rest, defs))
  {
    BlockRun(IfNDef(Identifier(n), sp), a, esp, b, fsp, rest, Scan([], []), defs);
    OutermostChoice(n !in defs, a, b);
    ConditionalsAfter(rest, if n !in defs then a else b, defs);
  }

  /** `#ifdef NAME a #endif rest`: without an `#else`, `a` is kept or dropped. */
  lemma IfDefSelects(n: string, sp: Span, a: seq<Statement>, fsp: Span, rest: seq<Statement>, defs: Definitions)
    requires NoConditional(a)
    ensures Conditionals([IfDef(Identifier(n), sp)] + a + [EndIf(fsp)] + rest, defs)
      == Prefixed(if n in defs then a else [], Conditionals(rest, defs))
  {
    var open := IfDef(Identifier(n), sp);
    var f := Frame(open, defs);
    ActivePush([], f);
    assert Active([]);
    var ka := if n in defs then a else [];
    assert [] + [f] == [f] && [] + ka == ka;
    assert [open] + a + [EndIf(fsp)] + rest == [open] + (a + ([EndIf(fsp)] + rest));
    StepOpen(Scan([], []), open, defs);
    StepThen(open, a + ([EndIf(fsp)] + rest), Scan([], []), defs);
    PlainThen(a, [EndIf(fsp)] + rest, Scan([f], []), defs);
    StepEndIf([], f, ka, fsp, defs);
    StepThen(EndIf(fsp), rest, Scan([f], ka), defs);
    ConditionalsAfter(rest, ka, defs);
  }

  /** `#else` with no open frame fails with UnmatchedElse. */
  lemma ElseWithoutFrame(a: seq<Statement>, sp: Span, rest: seq<Statement>, defs: Definitions)
    requires NoConditional(a)
    ensures Conditionals(a + [Else(sp)] + rest, defs) == Err(UnmatchedElse(sp))
  {
    assert a + [Else(sp)] + rest == a + ([Else(sp)] + rest);
    PlainThen(a, [Else(sp)] + rest, Scan([], []), defs);
    StepThen(Else(sp), rest, Scan([], [] + (if Active([]) then a else [])), defs);
  }

  /** `#endif` with no open frame fails with UnmatchedEndif. */
  lemma EndifWithoutFrame(a: seq<Statement>, sp: Span, rest: seq<Statement>, defs: Definitions)
    requires NoConditional(a)
    ensures Conditionals(a + [EndIf(sp)] + rest, defs) == Err(UnmatchedEndif(sp))
  {
    assert a + [EndIf(sp)] + rest == a + ([EndIf(sp)] + rest);
    PlainThen(a, [EndIf(sp)] + rest, Scan([], []), defs);
    StepThen(EndIf(sp), rest, Scan([], [] + (if Active([]) then a else [])), defs);
  }

  /** After the first `#else` of a frame, a second one fails with UnmatchedElse. */
  lemma ElseAfterElse(stack: seq<ConditionalInfo>, f: ConditionalInfo, ka: seq<Statement>, e1: Span,
                      b: seq<Statement>, e2: Span, rest: seq<Statement>, defs: Definitions)
    requires !f.seenElse && NoConditional(b)
    ensures Run([Else(e1)] + (b + ([Else(e2)] + rest)), Scan(stack + [f], ka), defs) == Err(UnmatchedElse(e2))
  {
    var g := f.(seenElse := true);
    StepElse(stack, f, ka, e1, defs);
    StepThen(Else(e1), b + ([Else(e2)] + rest), Scan(stack + [f], ka), defs);
    var kb := ka + (if Active(stack + [g]) then b else []);
    PlainThen(b, [Else(e2)] + rest, Scan(stack + [g], ka), defs);
    StepThen(Else(e2), rest, Scan(stack + [g], kb), defs);
  }

  /** A second `#else` in one frame fails with UnmatchedElse, at the second one. */
  lemma SecondElse(open: Statement, a: seq<Statement>, e1: Span, b: seq<Statement>, e2: Span,
                   rest: seq<Statement>, defs: Definitions)
    requires (open.IfDef? || open.IfNDef?) && open.symbol.Identifier?
    requires NoConditional(a) && NoConditional(b)
    ensures Conditionals([open] + a + [Else(e1)] + b + [Else(e2)] + rest, defs) == Err(UnmatchedElse(e2))
  {
    var f := Frame(open, defs);
    var tail := [Else(e1)] + (b + ([Else(e2)] + rest));
    assert [open] + a + [Else(e1)] + b + [Else(e2)] + rest == [open] + (a + tail);
    OpenBranch(open, a, tail, Scan([], []), defs);
    var ka := [] + (if Active([]) && f.conditionResult then a else []);
    ElseAfterElse([], f, ka, e1, b, e2, rest, defs);
    assert [] + [f] == [f];
  }

  /**
   * Frames still open at the end: the error names the innermost one, with
   * its own kind and span, whatever the frames below it are.
   */
  lemma UnclosedInnermost(pre: seq<Statement>, open: Statement, a: seq<Statement>, defs: Definitions)
    requires (open.IfDef? || open.IfNDef?) && open.symbol.Identifier?
    requires Run(pre, Scan([], []), defs).Ok? && NoConditional(a)
    ensures Conditionals(pre + [open] + a, defs)
      == Err(if open.IfDef? then UnmatchedIfdef(open.span) else UnmatchedIfndef(open.span))
  {
    var sc := Run(pre, Scan([], []), defs).value;
    var f := Frame(open, defs);
    assert pre + [open] + a == pre + ([open] + a);
    assert a + [] == a;
    RunAppend(pre, [open] + a, Scan([], []), defs);
    StepOpen(sc, open, defs);
    StepThen(open, a, sc, defs);
    PlainThen(a, [], sc.(stack := sc.stack + [f]), defs);
  }

  /** A conditional directive whose operand is not an identifier fails with InvalidConditionalExpr. */
  lemma NonIdentifierCondition(a: seq<Statement>, open: Statement, rest: seq<Statement>, defs: Definitions)
    requires (open.IfDef? || open.IfNDef?) && !open.symbol.Identifier?
    requires NoConditional(a)
    ensures Conditionals(a + [open] + rest, defs) == Err(InvalidConditionalExpr(open.span))
  {
    assert a + [open] + rest == a + ([open] + rest);
    PlainThen(a, [open] + rest, Scan([], []), defs);
    StepThen(open, rest, Scan([], [] + (if Active([]) then a else [])), defs);
  }

  /**
   * The kept statements are a subsequence of the input with no
   * conditional directive: order is preserved, and nothing is added.
   */
  lemma {:induction false} RunKeepsOrder(stmts: seq<Statement>, sc: Scan, defs: Definitions)
    requires Run(stmts, sc, defs).Ok?
    ensures var kept := Run(stmts, sc, defs).value.kept;
      |sc.kept| <= |kept| && kept[..|sc.kept|] == sc.kept
      && Subsequence(kept[|sc.kept|..], stmts) && NoConditional(kept[|sc.kept|..])
    decreases |stmts|
  {
    if stmts != [] {
      var s := stmts[0];
      var next := Step(sc, s, defs).value;
      RunKeepsOrder(stmts[1..], next, defs);
      var kept := Run(stmts, sc, defs).value.kept;
      if next.kept == sc.kept {
        assert kept[|sc.kept|..] == kept[|next.kept|..];
      } else {
        assert next.kept == sc.kept + [s] && !IsConditional(s);
        assert kept[|sc.kept|..][0] == s;
        assert kept[|sc.kept|..][1..] == kept[|next.kept|..];
      }
    }
  }

  /** `process_conditionals` keeps statements in order and leaves no conditional directive. */
  lemma ConditionalsKeepOrder(stmts: seq<Statement>, defs: Definitions)
    requires Conditionals(stmts, defs).Ok?
    ensures Subsequence(Conditionals(stmts, defs).value, stmts)
    ensures NoConditional(Conditionals(stmts, defs).value)
    ensures forall s :: s in Conditionals(stmts, defs).value ==> s in stmts
  {
    RunKeepsOrder(stmts, Scan([], []), defs);
    var kept := Run(stmts, Scan([], []), defs).value.kept;
    assert kept[0..] == kept;
    SubsequenceMembers(kept, stmts);
  }

  /** The number of frames `stmts` opens minus the number it closes. */
  function Depth(stmts: seq<Statement>): int
  {
    if stmts == [] then 0
    else (if stmts[0].IfDef? || stmts[0].IfNDef? then 1 else if stmts[0].EndIf? then -1 else 0) + Depth(stmts[1..])
  }

  /** Every successful run keeps the stack height equal to the depth, never below zero on any prefix. */
  lemma {:induction false} RunDepth(stmts: seq<Statement>, sc: Scan, defs: Definitions)
    requires Run(stmts, sc, defs).Ok?
    ensures |Run(stmts, sc, defs).value.stack| == |sc.stack| + Depth(stmts)
    ensures forall k :: 0 <= k <= |stmts| ==> |sc.stack| + Depth(stmts[..k]) >= 0
    decreases |stmts|
  {
    if stmts == [] {
      assert forall k :: 0 <= k <= 0 ==> stmts[..k] == [];
    } else {
      var next := Step(sc, stmts[0], defs).value;
      RunDepth(stmts[1..], next, defs);
      var d := if stmts[0].IfDef? || stmts[0].IfNDef? then 1 else if stmts[0].EndIf? then -1 else 0;
      assert |next.stack| == |sc.stack| + d;
      forall k | 0 <= k <= |stmts|
        ensures |sc.stack| + Depth(stmts[..k]) >= 0
      {
        if k > 0 {
          assert stmts[..k][0] == stmts[0] && stmts[..k][1..] == stmts[1..][..k - 1];
        } else {
          assert stmts[..k] == [];
        }
      }
    }
  }

  /**
   * An accepted program is balanced: as many frames are closed as opened,
   * and no prefix closes more than it opened.
   */
  lemma AcceptedIsBalanced(stmts: seq<Statement>, defs: Definitions)
    requires Conditionals(stmts, defs).Ok?
    ensures Depth(stmts) == 0
    ensures forall k :: 0 <= k <= |stmts| ==> Depth(stmts[..k]) >= 0
  {
    RunDepth(stmts, Scan([], []), defs);
  }
}
