/**
 * The `Sum` evaluation (LinqGen.Generator/Instructions/Evaluations/
 * SumEvaluation.cs), with or without a selector. It renders three
 * fragments of a local evaluation: `T result = default;` before the loop,
 * `result += current;` (or `result += selector.Invoke(current);`) as the
 * loop body, and `return result;` after it.
 *
 * Values are unbounded integers. The generated `result += ...` is C#'s
 * unchecked arithmetic, which wraps on `int` overflow where LINQ's `Sum`
 * throws `OverflowException`; the sums stated here agree with both only
 * while every partial sum stays within the result type's range.
 */
module SumEval {
  import opened Wrappers
  import opened Types
  import opened Syntax
  import opened Semantics
  import Select
  import Linq

  /**
   * `new SumEvaluation(expression, id)`: the stub method's return type and,
   * when the method has a parameter, the selector's type and whether it is a
   * struct function.
   */
  datatype SumEvaluation = SumEvaluation(id: nat, returnType: string, selectorType: Option<TypeSym>, withStruct: bool)

  /** A parameter of the emitted method. */
  datatype Parameter = Parameter(typeRef: Select.TypeRef, name: Name)

  /** Only a selector can be a struct function. */
  predicate Valid(s: SumEvaluation)
  {
    s.withStruct ==> s.selectorType.Some?
  }

  /**
   * The constructor: a selector is used iff the method has at least one
   * parameter, and it is a struct selector iff `isStructFunction` holds of
   * that parameter's type.
   */
  function NewSumEvaluation(id: nat, returnType: string, parameterTypes: seq<TypeSym>,
                            isStructFunction: TypeSym -> bool): (s: SumEvaluation)
    ensures Valid(s) && s.id == id && s.returnType == returnType
    ensures s.selectorType.Some? <==> |parameterTypes| >= 1
    ensures s.selectorType.Some? ==>
      s.selectorType.value == parameterTypes[0] && s.withStruct == isStructFunction(parameterTypes[0])
  {
    if |parameterTypes| >= 1 then
      SumEvaluation(id, returnType, Some(parameterTypes[0]), isStructFunction(parameterTypes[0]))
    else
      SumEvaluation(id, returnType, None, false)
  }

  /** `GetTypeParameterInfos`: a `Selector` type parameter iff the selector is a struct. */
  function GetTypeParameterInfos(s: SumEvaluation): (r: seq<Select.TypeParameterInfo>)
    requires Valid(s)
    ensures |r| == (if s.withStruct then 1 else 0)
    ensures forall p :: p in r ==> p == Select.TypeParameterInfo("Selector", s.selectorType.value)
  {
    if s.withStruct then [Select.TypeParameterInfo("Selector", s.selectorType.value)] else []
  }

  /** The `selector` parameter's name: `IdentifierName("selector")`, not a stage-private name. */
  function SelectorParam(): Name { Plain("selector") }

  /** `GetParameters`: a `selector` parameter iff there is a selector, typed by `Selector` when struct. */
  function GetParameters(s: SumEvaluation): (r: seq<Parameter>)
    ensures |r| == (if s.selectorType.Some? then 1 else 0)
    ensures forall p :: p in r ==> p.name == SelectorParam()
    ensures forall p :: p in r ==>
      p.typeRef == if s.withStruct then Select.TypeName("Selector") else Select.Symbol(s.selectorType.value)
  {
    match s.selectorType
    case Some(t) => [Parameter(if s.withStruct then Select.TypeName("Selector") else Select.Symbol(t), SelectorParam())]
    case None => []
  }

  /** `VarName("result")` of the evaluation. */
  function ResultName(id: nat): Name { Var("result", id) }

  /** What one element adds to the sum: the element, or the selector's value for it. */
  function Term(s: SumEvaluation, fs: Funcs, x: int): int
  {
    if s.selectorType.Some? then Select.Apply(fs, SelectorParam(), [x]) else x
  }

  function Terms(s: SumEvaluation, fs: Funcs, xs: seq<int>): (ts: seq<int>)
    ensures |ts| == |xs| && forall k :: 0 <= k < |xs| ==> ts[k] == Term(s, fs, xs[k])
  {
    seq(|xs|, k requires 0 <= k < |xs| => Term(s, fs, xs[k]))
  }

  /** `RenderInitialization`: `result` is declared with the zero of the return type. */
  function RenderInitialization(s: SumEvaluation): (ss: seq<Stmt>)
    ensures StmtsWellFormed(ss) && !StmtsHavePlaceholder(ss)
    ensures forall fs, env, cur :: ExecStmts(ss, fs, env, cur) == env[ResultName(s.id) := 0]
  {
    var ss := [TypedDecl(s.returnType, ResultName(s.id), DefaultLit)];
    assert ss[1..] == [];
    ss
  }

  /** The value added per element: the placeholder, or `selector.Invoke(placeholder)`. */
  function AccumulatedValue(s: SumEvaluation): (e: Expr)
    ensures ExprWellFormed(e)
    ensures ExprNames(e) == if s.selectorType.Some? then {SelectorParam()} else {}
    ensures forall fs, env, cur :: Eval(e, fs, env, cur) == (Term(s, fs, cur), env)
  {
    if s.selectorType.Some? then
      var args := [Placeholder];
      assert args[1..] == [];
      assert ExprNames(Member(Ident(SelectorParam()), "Invoke")) == {SelectorParam()};
      assert forall fs, env, cur :: EvalArgs(args, fs, env, cur) == ([cur] + [], env);
      assert forall cur: int :: [cur] + [] == [cur];
      InvokeMember(SelectorParam(), args)
    else Placeholder
  }

  /** `RenderAccumulation`: each element adds its term to `result`, and nothing else changes. */
  function RenderAccumulation(s: SumEvaluation): (ss: seq<Stmt>)
    ensures StmtsWellFormed(ss)
    ensures StmtsNames(ss) == {ResultName(s.id)} + (if s.selectorType.Some? then {SelectorParam()} else {})
    ensures forall fs, env, cur ::
      ExecStmts(ss, fs, env, cur) == env[ResultName(s.id) := Lookup(env, ResultName(s.id)) + Term(s, fs, cur)]
  {
    var ss := [ExprStmt(AddAssign(Ident(ResultName(s.id)), AccumulatedValue(s)))];
    AccumulationStep(s, ss);
    ss
  }

  lemma AccumulationStep(s: SumEvaluation, ss: seq<Stmt>)
    requires ss == [ExprStmt(AddAssign(Ident(ResultName(s.id)), AccumulatedValue(s)))]
    ensures StmtsWellFormed(ss)
    ensures StmtsNames(ss) == {ResultName(s.id)} + (if s.selectorType.Some? then {SelectorParam()} else {})
    ensures forall fs, env, cur ::
      ExecStmts(ss, fs, env, cur) == env[ResultName(s.id) := Lookup(env, ResultName(s.id)) + Term(s, fs, cur)]
  {
    var r := ResultName(s.id);
    assert ss[1..] == [];
    assert ExprNames(Ident(r)) == {r};
    forall fs, env, cur
      ensures ExecStmts(ss, fs, env, cur) == env[r := Lookup(env, r) + Term(s, fs, cur)]
    {
      assert Eval(AccumulatedValue(s), fs, env, cur) == (Term(s, fs, cur), env);
      assert Exec(ss[0], fs, env, cur) == env[r := Lookup(env, r) + Term(s, fs, cur)];
    }
  }

  /** `RenderReturn`: `return result;`. */
  function RenderReturn(s: SumEvaluation): (ss: seq<Stmt>)
    ensures |ss| == 1 && ss[0].Return?
    ensures forall fs, env, cur :: Eval(ss[0].result, fs, env, cur).0 == Lookup(env, ResultName(s.id))
  {
    [Return(Ident(ResultName(s.id)))]
  }

  /**
   * A local evaluation runs its initialization, then the loop over the
   * upstream elements, and returns the value of its return expression.
   */
  function RunLocalEvaluation(init: seq<Stmt>, body: seq<Stmt>, result: Expr, fs: Funcs, env: Env, xs: seq<int>): int
  {
    Eval(result, fs, RunLoop(body, fs, ExecStmts(init, fs, env, 0), xs), 0).0
  }

  /** The accumulation loop adds the sum of the terms to `result`, and changes nothing else. */
  lemma {:induction false} SumLoop(s: SumEvaluation, fs: Funcs, env: Env, xs: seq<int>)
    requires ResultName(s.id) in env
    ensures RunLoop(RenderAccumulation(s), fs, env, xs) ==
            env[ResultName(s.id) := env[ResultName(s.id)] + Linq.Sum(Terms(s, fs, xs))]
    decreases |xs|
  {
    var r := ResultName(s.id);
    if xs == [] {
      assert env[r := env[r] + 0] == env;
    } else {
      var body := RenderAccumulation(s);
      var t := Term(s, fs, xs[0]);
      var rest := Linq.Sum(Terms(s, fs, xs[1..]));
      var next := env[r := env[r] + t];
      SumStep(s, fs, env, xs[0]);
      SumLoop(s, fs, next, xs[1..]);
      TermsSum(s, fs, xs);
      BumpTwice(env, r, t, rest);
      calc {
        RunLoop(body, fs, env, xs);
        RunLoop(body, fs, next, xs[1..]);
        next[r := next[r] + rest];
        env[r := env[r] + (t + rest)];
      }
    }
  }

  /** One pass of the loop: `result` gains the element's term, and the loop's scope drops nothing. */
  lemma SumStep(s: SumEvaluation, fs: Funcs, env: Env, x: int)
    requires ResultName(s.id) in env
    ensures Scope(ExecStmts(RenderAccumulation(s), fs, env, x), env.Keys) ==
            env[ResultName(s.id) := env[ResultName(s.id)] + Term(s, fs, x)]
  {
    var next := env[ResultName(s.id) := env[ResultName(s.id)] + Term(s, fs, x)];
    assert ExecStmts(RenderAccumulation(s), fs, env, x) == next;
    assert Scope(next, env.Keys) == next;
  }

  /** Adding `a` and then `b` to a variable adds `a + b`. */
  lemma BumpTwice(env: Env, r: Name, a: int, b: int)
    requires r in env
    ensures env[r := env[r] + a][r := env[r] + a + b] == env[r := env[r] + (a + b)]
  {
  }

  /** The sum of the terms is the first term plus the sum of the others. */
  lemma TermsSum(s: SumEvaluation, fs: Funcs, xs: seq<int>)
    requires xs != []
    ensures Linq.Sum(Terms(s, fs, xs)) == Term(s, fs, xs[0]) + Linq.Sum(Terms(s, fs, xs[1..]))
  {
    var t := Term(s, fs, xs[0]);
    assert Terms(s, fs, xs) == [t] + Terms(s, fs, xs[1..]);
    Linq.SumAppend([t], Terms(s, fs, xs[1..]));
    assert Linq.Sum([t]) == t by {
      assert [t][..0] == [];
    }
  }

  /**
   * The rendered `Sum` computes `Enumerable.Sum`: the left fold of `+` from
   * 0 over the elements, or over the selector's values for them; 0 for no
   * elements.
   */
  lemma SumEvaluationMeaning(s: SumEvaluation, fs: Funcs, env: Env, xs: seq<int>)
    ensures RunLocalEvaluation(RenderInitialization(s), RenderAccumulation(s), RenderReturn(s)[0].result, fs, env, xs)
            == Linq.Sum(Terms(s, fs, xs))
    ensures s.selectorType.None? ==>
      RunLocalEvaluation(RenderInitialization(s), RenderAccumulation(s), RenderReturn(s)[0].result, fs, env, xs)
      == Linq.Sum(xs)
  {
    var started := ExecStmts(RenderInitialization(s), fs, env, 0);
    SumLoop(s, fs, started, xs);
    if s.selectorType.None? {
      assert Terms(s, fs, xs) == xs;
    }
  }
}
