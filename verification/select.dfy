/**
 * The `Select` operation (LinqGen.Generator/Instructions/Operations/
 * SelectOperation.cs) in its four variants: with or without an element
 * index, and with a delegate or a struct function as the selector.
 */
module Select {
  import opened Wrappers
  import opened Types
  import opened Syntax
  import opened Semantics
  import Operations
  import CodeGenUtils
  import Linq

  /** A `TypeSyntax` the stage emits: a parsed symbol, a type-parameter name, or `int`. */
  datatype TypeRef = Symbol(sym: TypeSym) | TypeName(name: string) | IntType

  /** Where a member is declared: on the enumerable, on its enumerator, or on both. */
  datatype MemberKind = Enumerable | Enumerator | Both

  datatype TypeParameterInfo = TypeParameterInfo(name: string, constraint: TypeSym)

  datatype MemberInfo = MemberInfo(kind: MemberKind, typeRef: TypeRef, name: Name, init: Option<Expr>)

  /** Reading a type argument past the end of the list throws. */
  datatype ConstructionError = IndexOutOfRange

  datatype SelectOperation = SelectOperation(id: nat, selectorType: TypeSym, outputType: TypeSym,
                                             withIndex: bool, withStruct: bool)

  /** `VarName("selector")` and `VarName("index")` of the stage. */
  function SelectorName(id: nat): Name { Var("selector", id) }
  function IndexName(id: nat): Name { Var("index", id) }

  /**
   * The constructor: the selector type is the parameter type, and the output
   * element type is its type argument 1 (`Func<TIn, TOut>`) or, with an index,
   * 2 (`Func<TIn, int, TOut>`).
   */
  function NewSelectOperation(id: nat, parameterType: TypeSym, withIndex: bool, withStruct: bool)
    : (r: Result<SelectOperation, ConstructionError>)
    requires parameterType.Named?
    ensures r.Success? <==> |parameterType.args| > (if withIndex then 2 else 1)
    ensures r.Success? ==>
      && r.value.id == id && r.value.selectorType == parameterType
      && r.value.outputType == parameterType.args[if withIndex then 2 else 1]
      && r.value.withIndex == withIndex && r.value.withStruct == withStruct
  {
    var k := if withIndex then 2 else 1;
    if |parameterType.args| <= k then Failure(IndexOutOfRange)
    else Success(SelectOperation(id, parameterType, parameterType.args[k], withIndex, withStruct))
  }

  /** `GetTypeParameterInfos`: a `Selector` type parameter, constrained by the selector type, iff struct. */
  function GetTypeParameterInfos(s: SelectOperation): (r: seq<TypeParameterInfo>)
    ensures |r| == (if s.withStruct then 1 else 0)
    ensures forall p :: p in r ==> p == TypeParameterInfo("Selector", s.selectorType)
  {
    if s.withStruct then [TypeParameterInfo("Selector", s.selectorType)] else []
  }

  /**
   * `GetMemberInfos`: the selector on both enumerable and enumerator, typed
   * by the `Selector` parameter when struct and by the delegate type
   * otherwise; with an index, an enumerator `int index` starting at -1.
   */
  function GetMemberInfos(s: SelectOperation, isLocal: bool): (r: seq<MemberInfo>)
    ensures |r| == (if s.withIndex then 2 else 1)
    ensures r[0].kind == Both && r[0].name == SelectorName(s.id)
    ensures r[0].typeRef == if s.withStruct then TypeName("Selector") else Symbol(s.selectorType)
    ensures s.withIndex ==>
      && r[1].kind == Enumerator && r[1].typeRef == IntType && r[1].name == IndexName(s.id)
      && r[1].init.Some? && Eval(r[1].init.value, map[], map[], 0).0 == -1
  {
    var selector := MemberInfo(Both, if s.withStruct then TypeName("Selector") else Symbol(s.selectorType),
                               SelectorName(s.id), None);
    if s.withIndex then
      CodeGenUtils.LiteralMeansValue(-1, map[], map[], 0);
      [selector, MemberInfo(Enumerator, IntType, IndexName(s.id), Some(CodeGenUtils.LiteralExpression(-1)))]
    else [selector]
  }

  /** `RenderCurrent`: `selector.Invoke(current)`, or `selector.Invoke(current, ++index)`. */
  function RenderCurrent(s: SelectOperation): (e: Expr)
    ensures ExprWellFormed(e) && ExprHasPlaceholder(e)
    ensures ExprNames(e) == {SelectorName(s.id)} + (if s.withIndex then {IndexName(s.id)} else {})
  {
    var args := if s.withIndex then [Placeholder, PreIncrement(Ident(IndexName(s.id)))] else [Placeholder];
    var callee := Member(Ident(SelectorName(s.id)), "Invoke");
    assert ExprNames(callee) == {SelectorName(s.id)} && !ExprHasPlaceholder(callee);
    assert args[0] == Placeholder && ExprNames(args[0]) == {};
    IndexArgShape(IndexName(s.id));
    assert s.withIndex ==> args[1..] == [PreIncrement(Ident(IndexName(s.id)))];
    assert !s.withIndex ==> args[1..] == [];
    assert ArgsNames(args) == if s.withIndex then {IndexName(s.id)} else {};
    assert ArgsWellFormed(args) && ArgsHavePlaceholder(args);
    InvokeMember(SelectorName(s.id), args)
  }

  lemma IndexArgShape(idx: Name)
    ensures var rest := [PreIncrement(Ident(idx))];
            ArgsNames(rest) == {idx} && ArgsWellFormed(rest) && !ArgsHavePlaceholder(rest)
  {
    var rest := [PreIncrement(Ident(idx))];
    assert ExprNames(Ident(idx)) == {idx};
    assert ExprNames(rest[0]) == {idx} && ExprWellFormed(rest[0]) && !ExprHasPlaceholder(rest[0]);
    assert rest[1..] == [];
  }

  /** The stage as the fusion step sees it: no move-next fragment, a current binding, its own element type. */
  function AsStage(s: SelectOperation): (st: Operations.Stage)
    ensures st.id == s.id && st.moveNext.None? && st.current == Some(RenderCurrent(s))
    ensures st.outputType == Some(s.outputType)
  {
    Operations.Stage(s.id, None, Some(RenderCurrent(s)), Some(s.outputType))
  }

  /** Calling the stored function `f` on `vs`, as `Eval` does. */
  function Apply(fs: Funcs, f: Name, vs: seq<int>): int
  {
    if f in fs then fs[f](vs) else 0
  }

  /**
   * What the stage makes of the elements `xs` when its index counter holds
   * `i0` beforehand: element k becomes `selector(x)` or `selector(x, i0 + 1 + k)`.
   */
  function Selected(s: SelectOperation, fs: Funcs, i0: int, xs: seq<int>): (ys: seq<int>)
    ensures |ys| == |xs|
    ensures forall k :: 0 <= k < |xs| ==>
      ys[k] == Apply(fs, SelectorName(s.id), if s.withIndex then [xs[k], i0 + 1 + k] else [xs[k]])
  {
    seq(|xs|, k requires 0 <= k < |xs| =>
      Apply(fs, SelectorName(s.id), if s.withIndex then [xs[k], i0 + 1 + k] else [xs[k]]))
  }

  /** The selector as LINQ's `Select` sees it: a function of the element and its index. */
  function SelectorFn(s: SelectOperation, fs: Funcs): (int, int) -> int
  {
    if s.withIndex then (x, k) => Apply(fs, SelectorName(s.id), [x, k])
    else (x, k) => Apply(fs, SelectorName(s.id), [x])
  }

  /**
   * With the counter at its initial -1, the stage computes LINQ's `Select`:
   * the index variant passes element k the index k.
   */
  lemma SelectedIsLinqSelect(s: SelectOperation, fs: Funcs, xs: seq<int>)
    ensures Selected(s, fs, -1, xs) == Linq.SelectAt(xs, SelectorFn(s, fs))
  {
  }

  /** The current binding runs the selector once, bumping the index counter first in the index variant. */
  lemma CurrentEval(s: SelectOperation, fs: Funcs, env: Env, x: int)
    ensures var idx := IndexName(s.id);
            var i := Lookup(env, idx);
            Eval(RenderCurrent(s), fs, env, x) ==
              (Apply(fs, SelectorName(s.id), if s.withIndex then [x, i + 1] else [x]),
               if s.withIndex then env[idx := i + 1] else env)
  {
    var idx := IndexName(s.id);
    var i := Lookup(env, idx);
    var env1 := if s.withIndex then env[idx := i + 1] else env;
    var args := if s.withIndex then [Placeholder, PreIncrement(Ident(idx))] else [Placeholder];
    assert RenderCurrent(s) == Invoke(Member(Ident(SelectorName(s.id)), "Invoke"), args);
    if s.withIndex {
      assert args[1..] == [PreIncrement(Ident(idx))] && args[1..][1..] == [];
      assert [i + 1] + [] == [i + 1];
      assert EvalArgs(args[1..], fs, env, x) == ([i + 1], env1);
      assert [x] + [i + 1] == [x, i + 1];
      assert EvalArgs(args, fs, env, x) == ([x, i + 1], env1);
    } else {
      assert args[1..] == [];
      assert [x] + [] == [x];
      assert EvalArgs(args, fs, env, x) == ([x], env1);
    }
  }

  /** One pass of the spliced body: the selector runs once, and the downstream sees its result. */
  lemma SpliceStep(s: SelectOperation, body: seq<Stmt>, fs: Funcs, env: Env, x: int)
    requires StmtsWellFormed(body)
    requires Operations.CurrentName(s.id) !in StmtsNames(body) && Operations.CurrentName(s.id) !in env
    requires s.withIndex ==> IndexName(s.id) in env && IndexName(s.id) !in StmtsNames(body)
    ensures var i := Lookup(env, IndexName(s.id));
            var v := Apply(fs, SelectorName(s.id), if s.withIndex then [x, i + 1] else [x]);
            var after := Scope(ExecStmts(body, fs, env, v), env.Keys);
            Scope(ExecStmts(Operations.Splice(AsStage(s), body), fs, env, x), env.Keys) ==
              if s.withIndex then after[IndexName(s.id) := i + 1] else after
  {
    var c, idx := Operations.CurrentName(s.id), IndexName(s.id);
    var i := Lookup(env, idx);
    var v := Apply(fs, SelectorName(s.id), if s.withIndex then [x, i + 1] else [x]);
    SplicedExec(s, body, fs, env, x);
    var plain := ExecStmts(body, fs, env, v);
    ExecStmtsKeepsKeys(body, fs, env, v);
    if s.withIndex {
      ExecStmtsFrame(body, fs, env, v, idx, i + 1);
      assert Scope(plain[idx := i + 1][c := v], env.Keys) == Scope(plain, env.Keys)[idx := i + 1];
    } else {
      assert Scope(plain[c := v], env.Keys) == Scope(plain, env.Keys);
    }
  }

  /**
   * The spliced body binds the selector's value to the stage's current
   * variable, then runs the downstream body with that value as its element.
   */
  lemma SplicedExec(s: SelectOperation, body: seq<Stmt>, fs: Funcs, env: Env, x: int)
    requires StmtsWellFormed(body)
    requires Operations.CurrentName(s.id) !in StmtsNames(body) && Operations.CurrentName(s.id) !in env
    ensures var c, idx := Operations.CurrentName(s.id), IndexName(s.id);
            var i := Lookup(env, idx);
            var v := Apply(fs, SelectorName(s.id), if s.withIndex then [x, i + 1] else [x]);
            var env1 := if s.withIndex then env[idx := i + 1] else env;
            ExecStmts(Operations.Splice(AsStage(s), body), fs, env, x) == ExecStmts(body, fs, env1, v)[c := v]
  {
    var c, idx := Operations.CurrentName(s.id), IndexName(s.id);
    var i := Lookup(env, idx);
    var v := Apply(fs, SelectorName(s.id), if s.withIndex then [x, i + 1] else [x]);
    var env1 := if s.withIndex then env[idx := i + 1] else env;
    var spliced := Operations.Splice(AsStage(s), body);
    CurrentEval(s, fs, env, x);
    assert spliced == [LocalDecl(c, RenderCurrent(s))] + SubstStmts(body, Ident(c));
    assert ExecStmts(spliced, fs, env, x) == ExecStmts(SubstStmts(body, Ident(c)), fs, env1[c := v], x);
    ExecStmtsSubst(body, fs, env1[c := v], x, c, v);
    ExecStmtsFrame(body, fs, env1, v, c, v);
  }

  /** The selected elements, first and rest. */
  lemma SelectedCons(s: SelectOperation, fs: Funcs, i0: int, xs: seq<int>)
    requires xs != []
    ensures Selected(s, fs, i0, xs)[0] ==
            Apply(fs, SelectorName(s.id), if s.withIndex then [xs[0], i0 + 1] else [xs[0]])
    ensures Selected(s, fs, i0, xs)[1..] == Selected(s, fs, i0 + 1, xs[1..])
  {
  }

  /** Without an index the counter plays no part. */
  lemma SelectedIgnoresCounter(s: SelectOperation, fs: Funcs, i0: int, j0: int, xs: seq<int>)
    requires !s.withIndex
    ensures Selected(s, fs, i0, xs) == Selected(s, fs, j0, xs)
  {
  }

  /**
   * Fusion correctness for `Select`: looping the spliced body over the
   * source elements does what looping the downstream body over the selected
   * elements does; the only other effect is on the stage's index counter,
   * which advances once per element.
   */
  lemma SelectFusion(s: SelectOperation, body: seq<Stmt>, fs: Funcs, env: Env, xs: seq<int>)
    requires StmtsWellFormed(body)
    requires Operations.CurrentName(s.id) !in StmtsNames(body) && Operations.CurrentName(s.id) !in env
    requires s.withIndex ==> IndexName(s.id) in env && IndexName(s.id) !in StmtsNames(body)
    ensures var i := Lookup(env, IndexName(s.id));
            var out := RunLoop(body, fs, env, Selected(s, fs, i, xs));
            RunLoop(Operations.Splice(AsStage(s), body), fs, env, xs) ==
              if s.withIndex then out[IndexName(s.id) := i + |xs|] else out
  {
    if s.withIndex {
      IndexedFusion(s, body, fs, env, xs);
    } else {
      PlainFusion(s, body, fs, env, xs);
      SelectedIgnoresCounter(s, fs, 0, Lookup(env, IndexName(s.id)), xs);
    }
  }

  lemma {:induction false} PlainFusion(s: SelectOperation, body: seq<Stmt>, fs: Funcs, env: Env, xs: seq<int>)
    requires !s.withIndex && StmtsWellFormed(body)
    requires Operations.CurrentName(s.id) !in StmtsNames(body) && Operations.CurrentName(s.id) !in env
    ensures RunLoop(Operations.Splice(AsStage(s), body), fs, env, xs) ==
            RunLoop(body, fs, env, Selected(s, fs, 0, xs))
    decreases |xs|
  {
    if xs != [] {
      var i := Lookup(env, IndexName(s.id));
      var ys := Selected(s, fs, 0, xs);
      SpliceStep(s, body, fs, env, xs[0]);
      SelectedCons(s, fs, 0, xs);
      SelectedIgnoresCounter(s, fs, 1, 0, xs[1..]);
      var after := Scope(ExecStmts(body, fs, env, ys[0]), env.Keys);
      ExecStmtsKeepsKeys(body, fs, env, ys[0]);
      PlainFusion(s, body, fs, after, xs[1..]);
    }
  }

  lemma {:induction false} IndexedFusion(s: SelectOperation, body: seq<Stmt>, fs: Funcs, env: Env, xs: seq<int>)
    requires s.withIndex && StmtsWellFormed(body)
    requires Operations.CurrentName(s.id) !in StmtsNames(body) && Operations.CurrentName(s.id) !in env
    requires IndexName(s.id) in env && IndexName(s.id) !in StmtsNames(body)
    ensures var i := env[IndexName(s.id)];
            RunLoop(Operations.Splice(AsStage(s), body), fs, env, xs) ==
            RunLoop(body, fs, env, Selected(s, fs, i, xs))[IndexName(s.id) := i + |xs|]
    decreases |xs|
  {
    var idx := IndexName(s.id);
    var i := env[idx];
    if xs == [] {
      assert env[idx := i] == env;
    } else {
      var after := Scope(ExecStmts(body, fs, env, Selected(s, fs, i, xs)[0]), env.Keys);
      IndexedHead(s, body, fs, env, xs);
      IndexedFusion(s, body, fs, after[idx := i + 1], xs[1..]);
      IndexedStep(s, body, fs, env, xs);
    }
  }

  /** The inductive step of `IndexedFusion`: the claim for the rest of the elements gives it for all of them. */
  lemma IndexedStep(s: SelectOperation, body: seq<Stmt>, fs: Funcs, env: Env, xs: seq<int>)
    requires s.withIndex && xs != [] && IndexName(s.id) in env && IndexName(s.id) !in StmtsNames(body)
    requires var idx := IndexName(s.id);
             var i := env[idx];
             var ys := Selected(s, fs, i, xs);
             var after := Scope(ExecStmts(body, fs, env, ys[0]), env.Keys);
             var next := after[idx := i + 1];
             && after.Keys == env.Keys
             && RunLoop(Operations.Splice(AsStage(s), body), fs, env, xs) ==
                RunLoop(Operations.Splice(AsStage(s), body), fs, next, xs[1..])
             && RunLoop(body, fs, env, ys) == RunLoop(body, fs, after, ys[1..])
             && Selected(s, fs, i + 1, xs[1..]) == ys[1..]
             && RunLoop(Operations.Splice(AsStage(s), body), fs, next, xs[1..]) ==
                RunLoop(body, fs, next, ys[1..])[idx := i + 1 + |xs[1..]|]
    ensures var i := env[IndexName(s.id)];
            RunLoop(Operations.Splice(AsStage(s), body), fs, env, xs) ==
            RunLoop(body, fs, env, Selected(s, fs, i, xs))[IndexName(s.id) := i + |xs|]
  {
    var idx := IndexName(s.id);
    var i := env[idx];
    var ys := Selected(s, fs, i, xs);
    var after := Scope(ExecStmts(body, fs, env, ys[0]), env.Keys);
    RunLoopFrame(body, fs, after, ys[1..], idx, i + 1);
    Overwrite(RunLoop(body, fs, after, ys[1..]), idx, i + 1, i + |xs|);
  }

  /** A second update of the same variable replaces the first. */
  lemma Overwrite(m: Env, n: Name, a: int, b: int)
    ensures m[n := a][n := b] == m[n := b]
  {
  }

  /**
   * The first pass of the index variant: the downstream sees the selector's
   * value, the counter goes up by one, and the rest of the elements are
   * selected from the new counter value.
   */
  lemma IndexedHead(s: SelectOperation, body: seq<Stmt>, fs: Funcs, env: Env, xs: seq<int>)
    requires s.withIndex && StmtsWellFormed(body) && xs != []
    requires Operations.CurrentName(s.id) !in StmtsNames(body) && Operations.CurrentName(s.id) !in env
    requires IndexName(s.id) in env && IndexName(s.id) !in StmtsNames(body)
    ensures var idx := IndexName(s.id);
            var i := env[idx];
            var ys := Selected(s, fs, i, xs);
            var after := Scope(ExecStmts(body, fs, env, ys[0]), env.Keys);
            var next := after[idx := i + 1];
            && after.Keys == env.Keys && next.Keys == env.Keys && next[idx] == i + 1
            && RunLoop(Operations.Splice(AsStage(s), body), fs, env, xs) ==
               RunLoop(Operations.Splice(AsStage(s), body), fs, next, xs[1..])
            && RunLoop(body, fs, env, ys) == RunLoop(body, fs, after, ys[1..])
            && Selected(s, fs, i + 1, xs[1..]) == ys[1..]
  {
    var i := env[IndexName(s.id)];
    SelectedCons(s, fs, i, xs);
    var v := Selected(s, fs, i, xs)[0];
    SpliceStep(s, body, fs, env, xs[0]);
    ExecStmtsKeepsKeys(body, fs, env, v);
  }
}
