/**
 * What the preprocessor promises, stated over `Preprocess` and its passes
 * (module `Preprocessing`): definitions are all collected before any
 * conditional is decided, `#error` fails only when it is kept, includes
 * never repeat a path, and the final pass leaves nothing to substitute.
 */
module PreprocessorProperties {
  import opened Wrappers
  import opened Spans
  import opened Ast
  import opened Bits
  import opened Registers
  import opened Substitution
  import opened Conditionals
  import opened Preprocessing

  /** No `#include`, and every `#define` has an identifier key: the first pass cannot fail. */
  predicate SimpleDefines(prog: seq<Statement>)
  {
    forall k :: 0 <= k < |prog| ==> !prog[k].Include? && (prog[k].Define? ==> prog[k].key.Identifier?)
  }

  /** The statements of `prog` that are not definitions, in order. */
  function Body(prog: seq<Statement>): seq<Statement>
  {
    if prog == [] then []
    else (if prog[0].Define? then [] else [prog[0]]) + Body(prog[1..])
  }

  /** `defs` after the definitions of `prog`, in order: a later one replaces an earlier one. */
  function Assign(defs: Definitions, prog: seq<Statement>): Definitions
    decreases |prog|
  {
    if prog == [] then defs
    else
      var s := prog[0];
      Assign(if s.Define? && s.key.Identifier? then defs[s.key.name := s.value] else defs, prog[1..])
  }

  /**
   * The first pass over a prefix without includes or bad keys gathers its
   * non-definitions and records its definitions, and then goes on with
   * the rest.
   */
  lemma {:induction false} CollectPrefix(files: Files, pre: seq<Statement>, rest: seq<Statement>, acc: seq<Statement>, env: Env, fl: FloatArith)
    requires SimpleDefines(pre)
    ensures Collect(files, pre + rest, acc, env, fl)
      == Collect(files, rest, acc + Body(pre), Env(Assign(env.definitions, pre), env.included), fl)
    decreases |pre|
  {
    if pre == [] {
      assert pre + rest == rest && acc + [] == acc;
    } else {
      var s := pre[0];
      assert (pre + rest)[0] == s && (pre + rest)[1..] == pre[1..] + rest;
      var acc' := if s.Define? then acc else acc + [s];
      var env' := if s.Define? then env.(definitions := env.definitions[s.key.name := s.value]) else env;
      CollectPrefix(files, pre[1..], rest, acc', env', fl);
      assert acc' + Body(pre[1..]) == acc + Body(pre);
    }
  }

  /**
   * All definitions come first: for a program without includes or bad
   * keys, the conditional and final passes run on the non-definitions
   * with every definition of the program already recorded, wherever in
   * the program it stands.
   */
  lemma DefinesFirst(files: Files, prog: seq<Statement>, env: Env, fl: FloatArith)
    requires SimpleDefines(prog)
    ensures var defs := Assign(env.definitions, prog);
      Preprocess(files, prog, env, fl) == (AfterCollect(Body(prog), defs, fl), Env(defs, env.included))
  {
    CollectPrefix(files, prog, [], [], env, fl);
    assert prog + [] == prog && [] + Body(prog) == Body(prog);
  }

  /** A name is defined afterwards iff it was before or some `#define` of the program names it. */
  lemma {:induction false} AssignDefines(defs: Definitions, prog: seq<Statement>, n: string)
    ensures n in Assign(defs, prog)
      <==> n in defs || exists k :: 0 <= k < |prog| && prog[k].Define? && prog[k].key == Identifier(n)
    decreases |prog|
  {
    if prog != [] {
      var s := prog[0];
      var next := if s.Define? && s.key.Identifier? then defs[s.key.name := s.value] else defs;
      AssignDefines(next, prog[1..], n);
      if exists k :: 0 <= k < |prog[1..]| && prog[1..][k].Define? && prog[1..][k].key == Identifier(n) {
        var k :| 0 <= k < |prog[1..]| && prog[1..][k].Define? && prog[1..][k].key == Identifier(n);
        assert prog[k + 1] == prog[1..][k];
      }
      if exists k :: 0 <= k < |prog| && prog[k].Define? && prog[k].key == Identifier(n) {
        var k :| 0 <= k < |prog| && prog[k].Define? && prog[k].key == Identifier(n);
        if k > 0 {
          assert prog[1..][k - 1] == prog[k];
        }
      }
    }
  }

  /** `#define` with a key that is not an identifier fails with InvalidDefineKey, after any well-formed prefix. */
  lemma DefineKeyRejected(files: Files, pre: seq<Statement>, k: Expression, v: Expression, sp: Span,
                          rest: seq<Statement>, env: Env, fl: FloatArith)
    requires SimpleDefines(pre) && !k.Identifier?
    ensures Preprocess(files, pre + [Define(k, v, sp)] + rest, env, fl).0 == Err(InvalidDefineKey(sp))
  {
    assert pre + [Define(k, v, sp)] + rest == pre + ([Define(k, v, sp)] + rest);
    CollectPrefix(files, pre, [Define(k, v, sp)] + rest, [], env, fl);
  }

  /** `#include` of something that is not a string fails with InvalidIncludePath. */
  lemma IncludePathRejected(files: Files, pre: seq<Statement>, p: Expression, sp: Span,
                            rest: seq<Statement>, env: Env, fl: FloatArith)
    requires SimpleDefines(pre) && !p.StringLiteral?
    ensures Preprocess(files, pre + [Include(p, sp)] + rest, env, fl).0 == Err(InvalidIncludePath(sp))
  {
    assert pre + [Include(p, sp)] + rest == pre + ([Include(p, sp)] + rest);
    CollectPrefix(files, pre, [Include(p, sp)] + rest, [], env, fl);
  }

  /** The final pass on a single statement that needs no change. */
  lemma RewriteSingle(s: Statement, t: Statement, defs: Definitions, fl: FloatArith)
    requires RewriteStatement(s, defs, fl) == Ok(Some(t))
    ensures RewriteAll([s], defs, fl) == Ok([t])
  {
    assert [s][1..] == [] && [t] + [] == [t];
  }

  /** When the conditional pass keeps only a `nop`, the output is that `nop`. */
  lemma KeptNop(stmts: seq<Statement>, sp: Span, defs: Definitions, fl: FloatArith)
    requires Conditionals.Conditionals(stmts, defs) == Ok([Nop(sp)])
    ensures AfterCollect(stmts, defs, fl) == Ok([Nop(sp)])
  {
    RewriteSingle(Nop(sp), Nop(sp), defs, fl);
  }

  /** `Body` and `Assign` of a concatenation: the first part, then the second. */
  lemma {:induction false} SplitDefinitions(defs: Definitions, a: seq<Statement>, b: seq<Statement>)
    ensures Body(a + b) == Body(a) + Body(b)
    ensures Assign(defs, a + b) == Assign(Assign(defs, a), b)
    decreases |a|
  {
    if a == [] {
      assert a + b == b;
    } else {
      var s := a[0];
      assert (a + b)[0] == s && (a + b)[1..] == a[1..] + b;
      SplitDefinitions(if s.Define? && s.key.Identifier? then defs[s.key.name := s.value] else defs, a[1..], b);
      assert (if s.Define? then [] else [s]) + (Body(a[1..]) + Body(b)) == Body(a) + Body(b);
    }
  }

  /** Without a `#define`, the first pass gathers everything and records nothing. */
  lemma {:induction false} NoDefinitions(defs: Definitions, prog: seq<Statement>)
    requires forall k :: 0 <= k < |prog| ==> !prog[k].Define?
    ensures Body(prog) == prog && Assign(defs, prog) == defs
    decreases |prog|
  {
    if prog != [] {
      NoDefinitions(defs, prog[1..]);
      assert [prog[0]] + prog[1..] == prog;
    }
  }

  /** One `#define` with an identifier key: nothing gathered, one name recorded. */
  lemma OneDefinition(defs: Definitions, n: string, v: Expression, sp: Span)
    ensures Body([Define(Identifier(n), v, sp)]) == []
    ensures Assign(defs, [Define(Identifier(n), v, sp)]) == defs[n := v]
  {
    assert [Define(Identifier(n), v, sp)][1..] == [];
  }

  /** `#ifdef N nop #endif #define N v`: the later definition makes the earlier `#ifdef` hold. */
  lemma DefineAfterIfdef(n: string, v: Expression, s1: Span, s2: Span, s3: Span, s4: Span,
                         files: Files, env: Env, fl: FloatArith)
    requires n !in env.definitions
    ensures Preprocess(files, [IfDef(Identifier(n), s1), Nop(s2), EndIf(s3), Define(Identifier(n), v, s4)], env, fl).0
      == Ok([Nop(s2)])
  {
    var block := [IfDef(Identifier(n), s1), Nop(s2), EndIf(s3)];
    var prog := block + [Define(Identifier(n), v, s4)];
    var defs := env.definitions[n := v];
    assert prog == [IfDef(Identifier(n), s1), Nop(s2), EndIf(s3), Define(Identifier(n), v, s4)];
    DefinesFirst(files, prog, env, fl);
    SplitDefinitions(env.definitions, block, [Define(Identifier(n), v, s4)]);
    NoDefinitions(env.definitions, block);
    OneDefinition(env.definitions, n, v, s4);
    assert Body(prog) == [IfDef(Identifier(n), s1)] + [Nop(s2)] + [EndIf(s3)] + [];
    DefinedLaterSelected(n, s1, s2, s3, defs);
    KeptNop(Body(prog), s2, defs, fl);
  }

  /** The conditional pass over what the first pass gathers in `DefineAfterIfdef`. */
  lemma DefinedLaterSelected(n: string, s1: Span, s2: Span, s3: Span, defs: Definitions)
    requires n in defs
    ensures Conditionals.Conditionals([IfDef(Identifier(n), s1)] + [Nop(s2)] + [EndIf(s3)] + [], defs) == Ok([Nop(s2)])
  {
    IfDefSelects(n, s1, [Nop(s2)], s3, [], defs);
    assert Conditionals.Conditionals([], defs) == Ok([]);
    assert [Nop(s2)] + [] == [Nop(s2)];
  }

  /** A definition in second place is recorded and left out of the body. */
  lemma SkipDefinition(defs: Definitions, first: Statement, b: string, v: Expression, sp: Span, tail: seq<Statement>)
    requires !first.Define?
    ensures Body([first, Define(Identifier(b), v, sp)] + tail) == [first] + Body(tail)
    ensures Assign(defs, [first, Define(Identifier(b), v, sp)] + tail) == Assign(defs[b := v], tail)
  {
    var d := Define(Identifier(b), v, sp);
    assert [first, d] + tail == [first] + ([d] + tail);
    Unfold(defs, first, [d] + tail);
    Unfold(defs, d, tail);
    assert [first] + ([] + Body(tail)) == [first] + Body(tail);
  }

  /** `Body` and `Assign` of a statement followed by the rest. */
  lemma Unfold(defs: Definitions, s: Statement, rest: seq<Statement>)
    ensures Body([s] + rest) == (if s.Define? then [] else [s]) + Body(rest)
    ensures Assign(defs, [s] + rest) == Assign(if s.Define? && s.key.Identifier? then defs[s.key.name := s.value] else defs, rest)
  {
    assert ([s] + rest)[0] == s && ([s] + rest)[1..] == rest;
  }

  /** The first pass over the program of `DefineInDroppedBranch`. */
  lemma DroppedBranchBody(defs: Definitions, a: string, b: string, v: Expression,
                          s1: Span, s2: Span, s3: Span, s4: Span, s5: Span, s6: Span)
    ensures var prog := [IfDef(Identifier(a), s1), Define(Identifier(b), v, s2), EndIf(s3),
                         IfDef(Identifier(b), s4), Nop(s5), EndIf(s6)];
      && Body(prog) == [IfDef(Identifier(a), s1)] + [] + [EndIf(s3)] + [IfDef(Identifier(b), s4), Nop(s5), EndIf(s6)]
      && Assign(defs, prog) == defs[b := v]
  {
    var tail := [EndIf(s3), IfDef(Identifier(b), s4), Nop(s5), EndIf(s6)];
    assert [IfDef(Identifier(a), s1), Define(Identifier(b), v, s2), EndIf(s3), IfDef(Identifier(b), s4), Nop(s5), EndIf(s6)]
      == [IfDef(Identifier(a), s1), Define(Identifier(b), v, s2)] + tail;
    SkipDefinition(defs, IfDef(Identifier(a), s1), b, v, s2, tail);
    NoDefinitions(defs[b := v], tail);
  }

  /** The conditional pass over what the first pass gathers in `DefineInDroppedBranch`. */
  lemma DroppedBranchSelected(a: string, b: string, s1: Span, s3: Span, s4: Span, s5: Span, s6: Span, defs: Definitions)
    requires a !in defs && b in defs
    ensures Conditionals.Conditionals([IfDef(Identifier(a), s1)] + [] + [EndIf(s3)]
                                      + [IfDef(Identifier(b), s4), Nop(s5), EndIf(s6)], defs) == Ok([Nop(s5)])
  {
    var second := [IfDef(Identifier(b), s4), Nop(s5), EndIf(s6)];
    IfDefSelects(a, s1, [], s3, second, defs);
    assert second == [IfDef(Identifier(b), s4)] + [Nop(s5)] + [EndIf(s6)] + [];
    IfDefSelects(b, s4, [Nop(s5)], s6, [], defs);
    assert Conditionals.Conditionals([], defs) == Ok([]);
    assert [Nop(s5)] + [] == [Nop(s5)] && [] + [Nop(s5)] == [Nop(s5)];
  }

  /**
   * A `#define` inside a branch that is dropped still takes effect:
   * `#ifdef A #define B v #endif #ifdef B nop #endif` keeps the `nop`
   * when A is not defined.
   */
  lemma DefineInDroppedBranch(a: string, b: string, v: Expression, s1: Span, s2: Span, s3: Span,
                              s4: Span, s5: Span, s6: Span, files: Files, env: Env, fl: FloatArith)
    requires a !in env.definitions && a != b
    ensures Preprocess(files, [IfDef(Identifier(a), s1), Define(Identifier(b), v, s2), EndIf(s3),
                               IfDef(Identifier(b), s4), Nop(s5), EndIf(s6)], env, fl).0
      == Ok([Nop(s5)])
  {
    var prog := [IfDef(Identifier(a), s1), Define(Identifier(b), v, s2), EndIf(s3),
                 IfDef(Identifier(b), s4), Nop(s5), EndIf(s6)];
    var defs := env.definitions[b := v];
    DefinesFirst(files, prog, env, fl);
    DroppedBranchBody(env.definitions, a, b, v, s1, s2, s3, s4, s5, s6);
    DroppedBranchSelected(a, b, s1, s3, s4, s5, s6, defs);
    KeptNop(Body(prog), s5, defs, fl);
  }

  /** `#error "msg"` alone fails with an error carrying msg. */
  lemma ErrorDirectiveFails(m: string, sp: Span, files: Files, env: Env, fl: FloatArith)
    ensures Preprocess(files, [Error(StringLiteral(m), sp)], env, fl).0 == Err(ErrorMessage(m, sp))
  {
    var prog := [Error(StringLiteral(m), sp)];
    DefinesFirst(files, prog, env, fl);
    NoDefinitions(env.definitions, prog);
    assert NoConditional(prog);
    ConditionalsIdentity(prog, env.definitions);
  }

  /** `#error` with an argument that is not a string fails with the fixed message. */
  lemma ErrorWithoutString(e: Expression, sp: Span, files: Files, env: Env, fl: FloatArith)
    requires !e.StringLiteral?
    ensures Preprocess(files, [Error(e, sp)], env, fl).0 == Err(ErrorMessage(NotAStringMessage, sp))
  {
    var prog := [Error(e, sp)];
    DefinesFirst(files, prog, env, fl);
    NoDefinitions(env.definitions, prog);
    assert NoConditional(prog);
    ConditionalsIdentity(prog, env.definitions);
  }

  /** An `#error` in a branch that is dropped never fires. */
  lemma DroppedErrorSilent(n: string, e: Expression, s1: Span, s2: Span, s3: Span, files: Files, env: Env, fl: FloatArith)
    requires n !in env.definitions
    ensures Preprocess(files, [IfDef(Identifier(n), s1), Error(e, s2), EndIf(s3)], env, fl).0 == Ok([])
  {
    var prog := [IfDef(Identifier(n), s1), Error(e, s2), EndIf(s3)];
    DefinesFirst(files, prog, env, fl);
    NoDefinitions(env.definitions, prog);
    assert prog == [IfDef(Identifier(n), s1)] + [Error(e, s2)] + [EndIf(s3)] + [];
    IfDefSelects(n, s1, [Error(e, s2)], s3, [], env.definitions);
    assert Conditionals.Conditionals([], env.definitions) == Ok([]);
  }

  /** The final pass stops at the first kept `#error`, whatever follows it. */
  lemma {:induction false} RewriteStopsAtError(a: seq<Statement>, m: Expression, sp: Span, b: seq<Statement>,
                                               defs: Definitions, fl: FloatArith)
    requires RewriteAll(a, defs, fl).Ok?
    ensures RewriteAll(a + [Error(m, sp)] + b, defs, fl)
      == Err(ErrorMessage(if m.StringLiteral? then m.chars else NotAStringMessage, sp))
    decreases |a|
  {
    var all := a + [Error(m, sp)] + b;
    if a == [] {
      assert all[0] == Error(m, sp);
    } else {
      assert all[0] == a[0] && all[1..] == a[1..] + [Error(m, sp)] + b;
      RewriteStopsAtError(a[1..], m, sp, b, defs, fl);
    }
  }

  /** A statement the final pass has nothing to do to: not a directive it acts on, and every operand expanded. */
  predicate Settled(s: Statement, defs: Definitions)
  {
    && !s.Error? && !s.Include? && !IsConditional(s)
    && forall k :: 0 <= k < |Operands(s)| ==> Expanded(Operands(s)[k], defs)
  }

  /** The final pass keeps a settled statement as it is. */
  lemma RewriteSettled(s: Statement, defs: Definitions, fl: FloatArith)
    requires Settled(s, defs)
    ensures RewriteStatement(s, defs, fl) == Ok(Some(s))
  {
    var ops := Operands(s);
    forall k | 0 <= k < |ops|
      ensures SubstituteExpr(ops[k], defs, fl) == Ok(ops[k])
    {
      SubstituteExpanded(ops[k], defs, {}, fl);
    }
    var r := SubstituteAll(ops, defs, fl);
    assert r.Ok?;
    assert r.value == ops;
    WithOperandsRoundTrip(s, ops);
  }

  /** What the final pass makes of a statement is settled. */
  lemma RewriteGivesSettled(s: Statement, t: Statement, defs: Definitions, fl: FloatArith)
    requires RewriteStatement(s, defs, fl) == Ok(Some(t))
    ensures Settled(t, defs)
  {
    assert Rewritten(s, t, defs, fl);
  }

  /** The final pass leaves settled statements unchanged. */
  lemma {:induction false} RewriteAllSettled(stmts: seq<Statement>, defs: Definitions, fl: FloatArith)
    requires forall k :: 0 <= k < |stmts| ==> Settled(stmts[k], defs)
    ensures RewriteAll(stmts, defs, fl) == Ok(stmts)
    decreases |stmts|
  {
    if stmts != [] {
      var tail := stmts[1..];
      SettledTail(stmts, defs);
      RewriteSettled(stmts[0], defs, fl);
      RewriteAllSettled(tail, defs, fl);
      RewriteKeepsBoth(stmts, defs, fl);
    }
  }

  /** Everything the final pass outputs is settled. */
  lemma {:induction false} RewriteAllGivesSettled(stmts: seq<Statement>, defs: Definitions, fl: FloatArith)
    requires RewriteAll(stmts, defs, fl).Ok?
    ensures forall k :: 0 <= k < |RewriteAll(stmts, defs, fl).value| ==> Settled(RewriteAll(stmts, defs, fl).value[k], defs)
    decreases |stmts|
  {
    if stmts != [] {
      var t := RewriteStatement(stmts[0], defs, fl).value;
      RewriteAllGivesSettled(stmts[1..], defs, fl);
      if t.Some? {
        RewriteGivesSettled(stmts[0], t.value, defs, fl);
      }
      var rest := RewriteAll(stmts[1..], defs, fl).value;
      assert RewriteAll(stmts, defs, fl).value == Emitted(t) + rest;
      SettledAppend(Emitted(t), rest, defs);
    }
  }

  lemma RewriteKeepsBoth(stmts: seq<Statement>, defs: Definitions, fl: FloatArith)
    requires stmts != []
    requires RewriteStatement(stmts[0], defs, fl) == Ok(Some(stmts[0]))
    requires RewriteAll(stmts[1..], defs, fl) == Ok(stmts[1..])
    ensures RewriteAll(stmts, defs, fl) == Ok(stmts)
  {
    assert [stmts[0]] + stmts[1..] == stmts;
  }

  lemma SettledTail(stmts: seq<Statement>, defs: Definitions)
    requires stmts != []
    requires forall k :: 0 <= k < |stmts| ==> Settled(stmts[k], defs)
    ensures Settled(stmts[0], defs)
    ensures forall k :: 0 <= k < |stmts[1..]| ==> Settled(stmts[1..][k], defs)
  {
    forall k | 0 <= k < |stmts[1..]|
      ensures Settled(stmts[1..][k], defs)
    {
      assert stmts[1..][k] == stmts[k + 1];
    }
  }

  lemma SettledAppend(a: seq<Statement>, b: seq<Statement>, defs: Definitions)
    requires forall k :: 0 <= k < |a| ==> Settled(a[k], defs)
    requires forall k :: 0 <= k < |b| ==> Settled(b[k], defs)
    ensures forall k :: 0 <= k < |a + b| ==> Settled((a + b)[k], defs)
  {
    forall k | 0 <= k < |a + b|
      ensures Settled((a + b)[k], defs)
    {
      if k >= |a| {
        assert (a + b)[k] == b[k - |a|];
      } else {
        assert (a + b)[k] == a[k];
      }
    }
  }

  /** Running the final pass again on its own output changes nothing. */
  lemma RewriteIdempotent(stmts: seq<Statement>, defs: Definitions, fl: FloatArith)
    requires RewriteAll(stmts, defs, fl).Ok?
    ensures RewriteAll(RewriteAll(stmts, defs, fl).value, defs, fl) == RewriteAll(stmts, defs, fl)
  {
    RewriteAllGivesSettled(stmts, defs, fl);
    RewriteAllSettled(RewriteAll(stmts, defs, fl).value, defs, fl);
  }

  /**
   * No defined name is left in a successful run's output, for the
   * definitions the run ends with, and nothing is left to fold.
   */
  lemma OutputSettled(files: Files, prog: seq<Statement>, env: Env, fl: FloatArith)
    requires Preprocess(files, prog, env, fl).0.Ok?
    ensures var r := Preprocess(files, prog, env, fl);
      forall k :: 0 <= k < |r.0.value| ==> Settled(r.0.value[k], r.1.definitions)
  {
    var c := Collect(files, prog, [], env, fl);
    var defs := c.1.definitions;
    var kept := Conditionals.Conditionals(c.0.value, defs).value;
    RewriteAllGivesSettled(kept, defs, fl);
  }

  /** `#include` of a path that is not among the files fails with IncludeFileNotFound. */
  lemma IncludeMissing(p: string, sp: Span, rest: seq<Statement>, files: Files, env: Env, fl: FloatArith)
    requires p !in files
    ensures Preprocess(files, [Include(StringLiteral(p), sp)] + rest, env, fl).0 == Err(IncludeFileNotFound(p, sp))
  {
    var prog := [Include(StringLiteral(p), sp)] + rest;
    assert prog[0] == Include(StringLiteral(p), sp);
    assert IncludeFile(files, p, sp, env, fl) == (Err(IncludeFileNotFound(p, sp)), env);
    assert Collect(files, prog, [], env, fl) == (Err(IncludeFileNotFound(p, sp)), env);
  }

  /** A file that includes itself fails with CircularInclude at its own `#include`. */
  lemma IncludeSelf(p: string, s0: Span, s1: Span, rest: seq<Statement>, files: Files, env: Env, fl: FloatArith)
    requires p in files && p !in env.included
    requires files[p] == [Include(StringLiteral(p), s1)] + rest
    ensures Preprocess(files, [Include(StringLiteral(p), s0)], env, fl).0 == Err(CircularInclude(p, s1))
  {
    var inner := Env(env.definitions, env.included + {p});
    var e := CircularInclude(p, s1);
    assert files[p][0] == Include(StringLiteral(p), s1);
    assert IncludeFile(files, p, s1, inner, fl) == (Err(e), inner);
    assert Collect(files, files[p], [], inner, fl) == (Err(e), inner);
    assert Preprocess(files, files[p], inner, fl) == (Err(e), inner);
    assert IncludeFile(files, p, s0, env, fl) == (Err(e), inner);
    assert Collect(files, [Include(StringLiteral(p), s0)], [], env, fl) == (Err(e), inner);
  }

  /**
   * Two files that include each other: including the first fails with
   * CircularInclude at the second file's `#include` of the first.
   */
  lemma IncludeCycle(a: string, b: string, s0: Span, sa: Span, sb: Span, ra: seq<Statement>, rb: seq<Statement>,
                     files: Files, env: Env, fl: FloatArith)
    requires a in files && b in files && a != b && a !in env.included && b !in env.included
    requires files[a] == [Include(StringLiteral(b), sa)] + ra
    requires files[b] == [Include(StringLiteral(a), sb)] + rb
    ensures Preprocess(files, [Include(StringLiteral(a), s0)], env, fl).0 == Err(CircularInclude(a, sb))
  {
    var inA := Env(env.definitions, env.included + {a});
    var inB := Env(env.definitions, env.included + {a} + {b});
    var e := CircularInclude(a, sb);
    assert files[a][0] == Include(StringLiteral(b), sa) && files[b][0] == Include(StringLiteral(a), sb);
    assert inA.included + {b} == inB.included;
    assert IncludeFile(files, a, sb, inB, fl) == (Err(e), inB);
    assert Collect(files, files[b], [], inB, fl) == (Err(e), inB);
    assert Preprocess(files, files[b], inB, fl) == (Err(e), inB);
    assert IncludeFile(files, b, sa, inA, fl) == (Err(e), inB);
    assert Collect(files, files[a], [], inA, fl) == (Err(e), inB);
    assert Preprocess(files, files[a], inA, fl) == (Err(e), inB);
    assert IncludeFile(files, a, s0, env, fl) == (Err(e), inA);
    assert Collect(files, [Include(StringLiteral(a), s0)], [], env, fl) == (Err(e), inA);
  }

  /**
   * Included paths are never forgotten: including the same file twice in
   * a row fails at the second `#include` with CircularInclude, even though
   * the inclusions are not nested.
   */
  lemma IncludeTwice(p: string, s1: Span, s2: Span, files: Files, env: Env, fl: FloatArith)
    requires p in files && p !in env.included
    requires Preprocess(files, files[p], Env(env.definitions, env.included + {p}), fl).0.Ok?
    ensures Preprocess(files, [Include(StringLiteral(p), s1), Include(StringLiteral(p), s2)], env, fl).0
      == Err(CircularInclude(p, s2))
  {
    var prog := [Include(StringLiteral(p), s1), Include(StringLiteral(p), s2)];
    var first := IncludeFile(files, p, s1, env, fl);
    assert first.0.Ok? && p in first.1.included;
    assert prog[1..] == [Include(StringLiteral(p), s2)];
    assert Collect(files, prog, [], env, fl) == Collect(files, prog[1..], first.0.value, first.1, fl);
  }

  /** Including a file that holds one `#define` succeeds with no statements and records the name. */
  lemma IncludeOneDefinition(p: string, n: string, e: Expression, s0: Span, s1: Span, files: Files, env: Env, fl: FloatArith)
    requires p in files && p !in env.included
    requires files[p] == [Define(Identifier(n), e, s1)]
    ensures var r := IncludeFile(files, p, s0, env, fl);
      r.0 == Ok([]) && n in r.1.definitions && r.1.definitions[n] == e
  {
    var inner := Env(env.definitions, env.included + {p});
    var subDefs := env.definitions[n := e];
    DefinesFirst(files, files[p], inner, fl);
    OneDefinition(inner.definitions, n, e, s1);
    assert Conditionals.Conditionals([], subDefs) == Ok([]);
    assert Preprocess(files, files[p], inner, fl) == (Ok([]), Env(subDefs, inner.included));
  }

  /** `mov r, N` with N defined as an integer becomes `mov r, value`. */
  lemma MovSubstituted(n: string, x: i64, r: Register, sp: Span, defs: Definitions, fl: FloatArith)
    requires n in defs && defs[n] == IntegerLiteral(x)
    ensures AfterCollect([Mov(RegisterExpr(r), Identifier(n), sp)], defs, fl) == Ok([Mov(RegisterExpr(r), IntegerLiteral(x), sp)])
  {
    var mov := Mov(RegisterExpr(r), Identifier(n), sp);
    var out := Mov(RegisterExpr(r), IntegerLiteral(x), sp);
    ConditionalsIdentity([mov], defs);
    assert SubstituteExpr(Identifier(n), defs, fl) == Ok(IntegerLiteral(x)) by {
      var none: set<string> := {};
      assert none + {n} == {n};
      assert Substitute(IntegerLiteral(x), defs, {n}, fl) == Ok(IntegerLiteral(x));
    }
    RegisterKept(r, defs, fl);
    var ops := [RegisterExpr(r), IntegerLiteral(x)];
    var r0 := SubstituteAll(Operands(mov), defs, fl);
    assert Operands(mov) == [RegisterExpr(r), Identifier(n)];
    assert r0.Ok? && |r0.value| == 2 && r0.value[0] == ops[0] && r0.value[1] == ops[1];
    assert r0.value == ops;
    assert WithOperands(mov, ops) == out;
    assert RewriteStatement(mov, defs, fl) == Ok(Some(out));
    RewriteSingle(mov, out, defs, fl);
  }

  /**
   * A definition made in an included file is visible after the
   * `#include`: with `#define N 42` in the file, `mov q0, N` becomes
   * `mov q0, 42`.
   */
  lemma IncludedDefinitionVisible(p: string, n: string, x: i64, r: Register, s0: Span, s1: Span, s2: Span,
                                  files: Files, env: Env, fl: FloatArith)
    requires p in files && p !in env.included
    requires files[p] == [Define(Identifier(n), IntegerLiteral(x), s1)]
    ensures Preprocess(files, [Include(StringLiteral(p), s0), Mov(RegisterExpr(r), Identifier(n), s2)], env, fl).0
      == Ok([Mov(RegisterExpr(r), IntegerLiteral(x), s2)])
  {
    var mov := Mov(RegisterExpr(r), Identifier(n), s2);
    var prog := [Include(StringLiteral(p), s0), mov];
    IncludeOneDefinition(p, n, IntegerLiteral(x), s0, s1, files, env, fl);
    var after := IncludeFile(files, p, s0, env, fl).1;
    assert prog[1..] == [mov] + [];
    CollectPrefix(files, [mov], [], [], after, fl);
    NoDefinitions(after.definitions, [mov]);
    var none: seq<Statement> := [];
    assert [] + [mov] == [mov] && none + none == none;
    assert Env(after.definitions, after.included) == after;
    assert Collect(files, prog[1..], [], after, fl) == (Ok([mov]), after);
    assert Collect(files, prog, [], env, fl) == (Ok([mov]), after);
    MovSubstituted(n, x, r, s2, after.definitions, fl);
  }

  /** A register operand is left as it is. */
  lemma RegisterKept(r: Register, defs: Definitions, fl: FloatArith)
    ensures SubstituteExpr(RegisterExpr(r), defs, fl) == Ok(RegisterExpr(r))
  {
    assert Substitute(RegisterExpr(r), defs, {}, fl) == Ok(RegisterExpr(r));
  }
}
