/**
 * `Preprocessor::process` (src/preprocessor/mod.rs): the first pass that
 * records `#define`s and splices in `#include`d files, the conditional
 * pass, and the final pass that substitutes definitions into every
 * operand. The functions state what a run computes, including the
 * preprocessor's definitions and included files afterwards; the class
 * `Preprocessor` runs it with the source's loops and is proved to agree.
 *
 * Included files are a map from path to the statements the parser made
 * of them: the search through the include directories, reading and
 * parsing are outside the model.
 */
module Preprocessing {
  import opened Wrappers
  import opened Spans
  import opened Ast
  import opened Substitution
  import opened Conditionals

  /** The files `#include` can name: path to parsed statements. */
  type Files = map<string, seq<Statement>>

  /** The preprocessor's state besides the program: definitions and the paths already included. */
  datatype Env = Env(definitions: Definitions, included: set<string>)

  /** What a run returns: the statements or the error, and the state it leaves. */
  type Outcome = (Result<seq<Statement>, PreprocessError>, Env)

  /** The message of an `#error` whose argument is not a string literal. */
  const NotAStringMessage := "Expected string literal in #error directive"

  /** The statements the preprocessor consumes: none is left in its output. */
  predicate IsDirective(s: Statement)
  {
    s.Define? || s.Include? || s.Error? || IsConditional(s)
  }

  predicate NoDirective(stmts: seq<Statement>)
  {
    forall k :: 0 <= k < |stmts| ==> !IsDirective(stmts[k])
  }

  /** What the first pass leaves: no `#define` and no `#include`. */
  predicate Collected(stmts: seq<Statement>)
  {
    forall k :: 0 <= k < |stmts| ==> !stmts[k].Define? && !stmts[k].Include?
  }

  lemma CollectedAppend(a: seq<Statement>, b: seq<Statement>)
    requires Collected(a) && NoDirective(b)
    ensures Collected(a + b)
  {
    forall k | 0 <= k < |a + b|
      ensures !(a + b)[k].Define? && !(a + b)[k].Include?
    {
      if k >= |a| {
        assert (a + b)[k] == b[k - |a|];
      }
    }
  }

  /**
   * The first loop of `process` over `prog`, with `acc` the statements
   * gathered so far: a `#define` with an identifier key records its value,
   * an `#include` of a string splices in the processed file, anything else
   * is gathered. The state at the first error is the one returned.
   */
  function Collect(files: Files, prog: seq<Statement>, acc: seq<Statement>, env: Env, fl: FloatArith): (r: Outcome)
    ensures r.1.included >= env.included
    ensures Collected(acc) && r.0.Ok? ==> Collected(r.0.value)
    decreases files.Keys - env.included, |prog|
  {
    if prog == [] then (Ok(acc), env)
    else
      var s := prog[0];
      if s.Define? then
        if s.key.Identifier? then Collect(files, prog[1..], acc, env.(definitions := env.definitions[s.key.name := s.value]), fl)
        else (Err(InvalidDefineKey(s.span)), env)
      else if s.Include? then
        if s.path.StringLiteral? then
          var inc := IncludeFile(files, s.path.chars, s.span, env, fl);
          if inc.0.Err? then (Err(inc.0.error), inc.1)
          else
            assert Collected(acc) ==> Collected(acc + inc.0.value) by {
              if Collected(acc) { CollectedAppend(acc, inc.0.value); }
            }
            Collect(files, prog[1..], acc + inc.0.value, inc.1, fl)
        else (Err(InvalidIncludePath(s.span)), env)
      else Collect(files, prog[1..], acc + [s], env, fl)
  }

  /**
   * `process_include`: a path that is not among the files, or one already
   * included, fails; otherwise the path is recorded and the file is run by
   * a preprocessor that starts from a copy of this state. On success its
   * definitions and included paths are merged back; on failure they are
   * dropped, but the path stays recorded.
   */
  function IncludeFile(files: Files, p: string, sp: Span, env: Env, fl: FloatArith): (r: Outcome)
    ensures r.1.included >= env.included
    ensures r.0.Ok? ==> p in r.1.included && NoDirective(r.0.value)
    decreases files.Keys - env.included, 0
  {
    if p !in files then (Err(IncludeFileNotFound(p, sp)), env)
    else if p in env.included then (Err(CircularInclude(p, sp)), env)
    else
      var inner := Env(env.definitions, env.included + {p});
      assert files.Keys - inner.included < files.Keys - env.included by {
        assert p in files.Keys - env.included;
      }
      var sub := Preprocess(files, files[p], inner, fl);
      if sub.0.Err? then (Err(sub.0.error), inner)
      else (sub.0, Env(inner.definitions + sub.1.definitions, inner.included + sub.1.included))
  }

  /**
   * `process`: the first pass, then the conditional pass with the
   * definitions the first pass ended with, then the final pass. The output
   * holds no directive.
   */
  function Preprocess(files: Files, prog: seq<Statement>, env: Env, fl: FloatArith): (r: Outcome)
    ensures r.1.included >= env.included
    ensures r.0.Ok? ==> NoDirective(r.0.value)
    decreases files.Keys - env.included, |prog| + 1
  {
    var collected := Collect(files, prog, [], env, fl);
    if collected.0.Err? then (Err(collected.0.error), collected.1)
    else (AfterCollect(collected.0.value, collected.1.definitions, fl), collected.1)
  }

  /** The conditional pass and the final pass, on the statements the first pass gathered. */
  function AfterCollect(stmts: seq<Statement>, defs: Definitions, fl: FloatArith): (r: Result<seq<Statement>, PreprocessError>)
    ensures Collected(stmts) && r.Ok? ==> NoDirective(r.value)
  {
    match Conditionals.Conditionals(stmts, defs)
    case Err(e) => Err(e)
    case Ok(kept) =>
      assert Collected(stmts) ==> Collected(kept) by {
        ConditionalsKeepOrder(stmts, defs);
        if Collected(stmts) {
          forall k | 0 <= k < |kept|
            ensures !kept[k].Define? && !kept[k].Include?
          {
            assert kept[k] in stmts;
            var j :| 0 <= j < |stmts| && stmts[j] == kept[k];
          }
        }
      }
      RewriteAll(kept, defs, fl)
  }

  /**
   * `t` is `s` with every operand substituted: same kind of statement,
   * same span, and each operand the substitution of the one it replaces.
   */
  predicate Rewritten(s: Statement, t: Statement, defs: Definitions, fl: FloatArith)
  {
    && |Operands(t)| == |Operands(s)|
    && t == WithOperands(s, Operands(t))
    && SameDirective(s, t)
    && t.span == s.span
    && forall k :: 0 <= k < |Operands(s)| ==> SubstituteExpr(Operands(s)[k], defs, fl) == Ok(Operands(t)[k])
  }

  /**
   * One iteration of the final loop of `process`: `#error` fails with its
   * message, `#include` and the conditional directives are dropped, and
   * every other statement has its operands substituted in order, stopping
   * at the first failure.
   */
  function RewriteStatement(s: Statement, defs: Definitions, fl: FloatArith): (r: Result<Option<Statement>, PreprocessError>)
    ensures r == Ok(None) <==> s.Include? || IsConditional(s)
    ensures s.Error? ==> r.Err? && r.error.ErrorMessage? && r.error.span == s.span
    ensures s.Error? && s.message.StringLiteral? ==> r.error.message == s.message.chars
    ensures r.Ok? && r.value.Some? ==> Rewritten(s, r.value.value, defs, fl)
    ensures r.Err? && !s.Error? ==>
      exists k :: 0 <= k < |Operands(s)| && SubstituteExpr(Operands(s)[k], defs, fl) == Err(r.error)
  {
    if s.Error? then
      Err(ErrorMessage(if s.message.StringLiteral? then s.message.chars else NotAStringMessage, s.span))
    else if s.Include? || IsConditional(s) then Ok(None)
    else
      var ops :- SubstituteAll(Operands(s), defs, fl);
      WithOperandsRoundTrip(s, ops);
      Ok(Some(WithOperands(s, ops)))
  }

  /** The final loop of `process`: each statement in turn, stopping at the first error. */
  function RewriteAll(stmts: seq<Statement>, defs: Definitions, fl: FloatArith): (r: Result<seq<Statement>, PreprocessError>)
    ensures r.Ok? ==> |r.value| <= |stmts|
    ensures r.Ok? && Collected(stmts) ==> NoDirective(r.value)
    decreases |stmts|
  {
    if stmts == [] then Ok([])
    else
      var t :- RewriteStatement(stmts[0], defs, fl);
      var rest :- RewriteAll(stmts[1..], defs, fl);
      assert Collected(stmts) ==> Collected(stmts[1..]) && !stmts[0].Define?;
      Ok((if t.Some? then [t.value] else []) + rest)
  }

  /** What one statement's rewrite adds to the output. */
  function Emitted(t: Option<Statement>): seq<Statement>
  {
    if t.Some? then [t.value] else []
  }

  /** The final pass over `stmts`: its first statement's rewrite, then the rest. */
  lemma RewriteFirst(stmts: seq<Statement>, defs: Definitions, fl: FloatArith, done: seq<Statement>)
    requires stmts != []
    ensures RewriteStatement(stmts[0], defs, fl).Err? ==> RewriteAll(stmts, defs, fl) == Err(RewriteStatement(stmts[0], defs, fl).error)
    ensures RewriteStatement(stmts[0], defs, fl).Ok? ==>
      Prefixed(done, RewriteAll(stmts, defs, fl))
        == Prefixed(done + Emitted(RewriteStatement(stmts[0], defs, fl).value), RewriteAll(stmts[1..], defs, fl))
  {
    var t := RewriteStatement(stmts[0], defs, fl);
    var rest := RewriteAll(stmts[1..], defs, fl);
    if t.Ok? && rest.Ok? {
      assert done + (Emitted(t.value) + rest.value) == (done + Emitted(t.value)) + rest.value;
    }
  }

  /** A `db` statement's rewrite is the substitution of its values. */
  lemma RewriteDb(s: Statement, defs: Definitions, fl: FloatArith)
    requires s.Db?
    ensures var vs := SubstituteAll(s.values, defs, fl);
      RewriteStatement(s, defs, fl) == if vs.Ok? then Ok(Some(Db(vs.value, s.span))) else Err(vs.error)
  {
    assert !s.Error? && !s.Include? && !IsConditional(s);
    assert Operands(s) == s.values;
    var vs := SubstituteAll(s.values, defs, fl);
    if vs.Ok? {
      assert WithOperands(s, vs.value) == Db(vs.value, s.span);
    }
  }

  /**
   * `Preprocessor`: the program not yet taken, the definitions and the
   * paths included so far; the files and the float arithmetic are fixed.
   */
  class Preprocessor {
    var program: seq<Statement>
    var definitions: Definitions
    var includedFiles: set<string>
    const files: Files
    const floatArith: FloatArith

    /** The state the functions above talk about. */
    function State(): Env
      reads this
    {
      Env(definitions, includedFiles)
    }

    /**
     * A preprocessor with every field given: `Preprocessor::new` passes
     * the host's default definitions and no included path, and
     * `process_include` a copy of the including preprocessor's state.
     */
    constructor(program: seq<Statement>, definitions: Definitions, includedFiles: set<string>, files: Files, fl: FloatArith)
      ensures this.program == program && State() == Env(definitions, includedFiles)
      ensures this.files == files && floatArith == fl
    {
      this.program := program;
      this.definitions := definitions;
      this.includedFiles := includedFiles;
      this.files := files;
      floatArith := fl;
    }

    /**
     * `process`: the program is taken out of the preprocessor and run
     * through the three passes; the result and the new state are those
     * `Preprocess` gives.
     */
    method Process() returns (r: Result<seq<Statement>, PreprocessError>)
      modifies this
      ensures program == []
      ensures (r, State()) == Preprocess(files, old(program), old(State()), floatArith)
      decreases files.Keys - includedFiles, 2
    {
      var stmts := program;
      program := [];
      ghost var env0 := State();
      var processed: seq<Statement> := [];
      var i := 0;
      while i < |stmts|
        invariant 0 <= i <= |stmts|
        invariant program == [] && includedFiles >= env0.included
        invariant Collect(files, stmts, [], env0, floatArith) == Collect(files, stmts[i..], processed, State(), floatArith)
      {
        assert stmts[i..][0] == stmts[i] && stmts[i..][1..] == stmts[i + 1..];
        var s := stmts[i];
        if s.Define? {
          if s.key.Identifier? {
            definitions := definitions[s.key.name := s.value];
          } else {
            return Err(InvalidDefineKey(s.span));
          }
        } else if s.Include? {
          if s.path.StringLiteral? {
            var included := ProcessInclude(s.path.chars, s.span);
            if included.Err? {
              return Err(included.error);
            }
            processed := processed + included.value;
          } else {
            return Err(InvalidIncludePath(s.span));
          }
        } else {
          processed := processed + [s];
        }
        i := i + 1;
      }
      var kept := ProcessConditionals(processed);
      if kept.Err? {
        return Err(kept.error);
      }
      r := Rewrite(kept.value);
    }

    /**
     * `process_include`: the file is run by a new preprocessor that starts
     * from this one's definitions and included paths (with `path` added),
     * and on success both are merged back.
     */
    method ProcessInclude(path: string, span: Span) returns (r: Result<seq<Statement>, PreprocessError>)
      modifies this
      ensures program == old(program)
      ensures (r, State()) == IncludeFile(files, path, span, old(State()), floatArith)
      decreases files.Keys - includedFiles, 1
    {
      if path !in files {
        return Err(IncludeFileNotFound(path, span));
      }
      if path in includedFiles {
        return Err(CircularInclude(path, span));
      }
      assert path in files.Keys - includedFiles;
      includedFiles := includedFiles + {path};
      var sub := new Preprocessor(files[path], definitions, includedFiles, files, floatArith);
      var processed := sub.Process();
      if processed.Err? {
        return Err(processed.error);
      }
      definitions := definitions + sub.definitions;
      includedFiles := includedFiles + sub.includedFiles;
      return processed;
    }

    /** `process_conditionals`: the loop over the statements with a stack of open frames. */
    method ProcessConditionals(statements: seq<Statement>) returns (r: Result<seq<Statement>, PreprocessError>)
      ensures r == Conditionals.Conditionals(statements, definitions)
    {
      var result: seq<Statement> := [];
      var stack: seq<ConditionalInfo> := [];
      var i := 0;
      while i < |statements|
        invariant 0 <= i <= |statements|
        invariant Run(statements, Scan([], []), definitions) == Run(statements[i..], Scan(stack, result), definitions)
      {
        assert statements[i..][0] == statements[i] && statements[i..][1..] == statements[i + 1..];
        var s := statements[i];
        if s.IfDef? {
          if !s.symbol.Identifier? {
            return Err(InvalidConditionalExpr(s.span));
          }
          var isDefined := s.symbol.name in definitions;
          stack := stack + [ConditionalInfo(isDefined, false, IfDefined, s.span)];
        } else if s.IfNDef? {
          if !s.symbol.Identifier? {
            return Err(InvalidConditionalExpr(s.span));
          }
          var isDefined := s.symbol.name in definitions;
          stack := stack + [ConditionalInfo(!isDefined, false, IfNotDefined, s.span)];
        } else if s.Else? {
          if stack == [] || stack[|stack| - 1].seenElse {
            return Err(UnmatchedElse(s.span));
          }
          stack := stack[..|stack| - 1] + [stack[|stack| - 1].(seenElse := true)];
        } else if s.EndIf? {
          if stack == [] {
            return Err(UnmatchedEndif(s.span));
          }
          stack := stack[..|stack| - 1];
        } else {
          var keep := ShouldInclude(stack);
          if keep {
            result := result + [s];
          }
        }
        i := i + 1;
      }
      if stack != [] {
        var last := stack[|stack| - 1];
        match last.conditionalType
        case IfDefined => return Err(UnmatchedIfdef(last.span));
        case IfNotDefined => return Err(UnmatchedIfndef(last.span));
      }
      return Ok(result);
    }

    /**
     * `should_include_statement_with_info`: the frames from the innermost
     * out, answering false at the first one outside its active branch.
     */
    method ShouldInclude(stack: seq<ConditionalInfo>) returns (b: bool)
      ensures b == Active(stack)
    {
      var k := |stack|;
      while k > 0
        invariant 0 <= k <= |stack|
        invariant forall j :: k <= j < |stack| ==> InActiveBranch(stack[j])
      {
        k := k - 1;
        var info := stack[k];
        if info.seenElse {
          if info.conditionResult {
            return false;
          }
        } else {
          if !info.conditionResult {
            return false;
          }
        }
      }
      return true;
    }

    /** The final loop of `process`, on the statements the conditional pass kept. */
    method Rewrite(statements: seq<Statement>) returns (r: Result<seq<Statement>, PreprocessError>)
      ensures r == RewriteAll(statements, definitions, floatArith)
    {
      var finalStatements: seq<Statement> := [];
      var i := 0;
      ghost var all := RewriteAll(statements, definitions, floatArith);
      if all.Ok? {
        assert [] + all.value == all.value;
      }
      assert statements[0..] == statements;
      while i < |statements|
        invariant 0 <= i <= |statements|
        invariant RewriteAll(statements, definitions, floatArith)
          == Prefixed(finalStatements, RewriteAll(statements[i..], definitions, floatArith))
      {
        assert statements[i..][0] == statements[i] && statements[i..][1..] == statements[i + 1..];
        var s := statements[i];
        var t: Option<Statement>;
        if s.Db? {
          var values := SubstituteEach(s.values);
          RewriteDb(s, definitions, floatArith);
          if values.Err? {
            return Err(values.error);
          }
          t := Some(Db(values.value, s.span));
        } else {
          var rewritten := RewriteStatement(s, definitions, floatArith);
          if rewritten.Err? {
            return Err(rewritten.error);
          }
          t := rewritten.value;
        }
        assert t == RewriteStatement(s, definitions, floatArith).value;
        RewriteFirst(statements[i..], definitions, floatArith, finalStatements);
        finalStatements := finalStatements + Emitted(t);
        i := i + 1;
      }
      assert finalStatements + [] == finalStatements;
      return Ok(finalStatements);
    }

    /** The `db` loop of the final pass: each value substituted in turn, stopping at the first failure. */
    method SubstituteEach(exprs: seq<Expression>) returns (r: Result<seq<Expression>, PreprocessError>)
      ensures r == SubstituteAll(exprs, definitions, floatArith)
    {
      var newExprs: seq<Expression> := [];
      var i := 0;
      while i < |exprs|
        invariant 0 <= i <= |exprs| && |newExprs| == i
        invariant forall j :: 0 <= j < i ==> SubstituteExpr(exprs[j], definitions, floatArith) == Ok(newExprs[j])
      {
        var e := SubstituteExpr(exprs[i], definitions, floatArith);
        if e.Err? {
          return Err(e.error);
        }
        newExprs := newExprs + [e.value];
        i := i + 1;
      }
      ghost var all := SubstituteAll(exprs, definitions, floatArith);
      assert all.Ok?;
      assert all.value == newExprs;
      return Ok(newExprs);
    }
  }
}
