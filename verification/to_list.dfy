/**
 * The `ToList` local evaluation (LinqGen.Generator/Instructions/Evaluations/
 * Local/ToListEvaluation.cs): a pooled list sized by the upstream's count
 * when it has one, one `Add` per element, and a `List<T>` copy as the result.
 *
 * The list's contents are given a meaning of their own: the values the
 * `list.Add(...)` statements of the loop body append, pass by pass.
 */
module ToListEval {
  import opened Wrappers
  import opened Types
  import opened Syntax
  import Semantics
  import CodeGenUtils
  import Operations

  /**
   * `new ToListEvaluation(expression, id)` once linked to its upstream. The
   * upstream's `SupportCount` is a property of the whole chain that the
   * generations modelled here do not define, so it is carried as given.
   */
  datatype ToListEvaluation = ToListEvaluation(id: nat, upstream: Operations.Generation, upstreamSupportCount: bool)

  function ListDef(): TypeDef { TypeDef("List", ["T"]) }

  /** `ReturnType`: `List<T>` of the upstream's element type. */
  function ReturnType(t: ToListEvaluation): (r: TypeSym)
    ensures r.Named? && r.def == ListDef() && |r.args| == 1
    ensures Operations.PassesElementType(t.upstream) ==> r.args[0] == Operations.RootOf(t.upstream).elementType
    ensures t.upstream.Op? && t.upstream.stage.outputType.Some? ==> r.args[0] == t.upstream.stage.outputType.value
  {
    Named(ListDef(), [Operations.OutputElementType(t.upstream)])
  }

  /** `VarName("list")` of the evaluation, and the upstream's `Count` property. */
  function ListName(id: nat): Name { Var("list", id) }
  function CountProperty(): Name { Plain("Count") }

  /** The capacity hint: the upstream's count when it supports counting, else 0. */
  function CountExpression(t: ToListEvaluation): (e: Expr)
    ensures !ExprHasPlaceholder(e)
    ensures forall n: int ::
      Semantics.Eval(e, map[], map[CountProperty() := n], 0).0 == if t.upstreamSupportCount then n else 0
  {
    if t.upstreamSupportCount then Ident(CountProperty())
    else
      CodeGenUtils.LiteralMeansValue(0, map[], map[], 0);
      assert forall n: int :: Semantics.Eval(CodeGenUtils.LiteralExpression(0), map[], map[CountProperty() := n], 0).0 == 0 by {
        forall n: int {
          CodeGenUtils.LiteralMeansValue(0, map[], map[CountProperty() := n], 0);
        }
      }
      CodeGenUtils.LiteralExpression(0)
  }

  /** `RenderInitialization`: `using var list = new PooledList<T>(count hint);`. */
  function RenderInitialization(t: ToListEvaluation): (ss: seq<Stmt>)
    ensures |ss| == 1 && ss[0].UsingDecl? && ss[0].name == ListName(t.id)
    ensures ss[0].init.New? && ss[0].init.args == [CountExpression(t)]
  {
    [UsingDecl(ListName(t.id), New("PooledList", [CountExpression(t)]))]
  }

  /** `RenderAccumulation`: `list.Add(current);`. */
  function RenderAccumulation(t: ToListEvaluation): (ss: seq<Stmt>)
    ensures StmtsHavePlaceholder(ss)
    ensures forall x :: Appended(ss, ListName(t.id), x) == [x]
  {
    var ss := [ExprStmt(Invoke(Member(Ident(ListName(t.id)), "Add"), [Placeholder]))];
    AddAppends(ss, ListName(t.id));
    ss
  }

  lemma AddAppends(ss: seq<Stmt>, list: Name)
    requires ss == [ExprStmt(Invoke(Member(Ident(list), "Add"), [Placeholder]))]
    ensures StmtsHavePlaceholder(ss)
    ensures forall x :: Appended(ss, list, x) == [x]
  {
    assert ss[1..] == [];
    assert ArgsHavePlaceholder([Placeholder]);
    assert StmtHasPlaceholder(ss[0]);
    forall x ensures Appended(ss, list, x) == [x] {
      assert Appended(ss[1..], list, x) == [];
      assert Semantics.Eval(Placeholder, map[], map[], x).0 == x;
      assert [x] + [] == [x];
    }
  }

  /** `RenderResult`: `list.ToList()`, which hands back exactly what the stage's list holds. */
  function RenderResult(t: ToListEvaluation): (e: Expr)
    ensures !ExprHasPlaceholder(e)
    ensures forall contents :: ResultOf(e, ListName(t.id), contents) == Some(contents)
  {
    var callee := Member(Ident(ListName(t.id)), "ToList");
    assert !ExprHasPlaceholder(callee);
    Invoke(callee, [])
  }

  /** The values the `list.Add(e)` statements of `ss` append in one pass, with `cur` as the placeholder's value. */
  function Appended(ss: seq<Stmt>, list: Name, cur: int): seq<int>
  {
    if ss == [] then []
    else
      var s := ss[0];
      var added :=
        if s.ExprStmt? && s.expr.Invoke? && s.expr.callee == Member(Ident(list), "Add") && |s.expr.args| == 1
        then [Semantics.Eval(s.expr.args[0], map[], map[], cur).0]
        else [];
      added + Appended(ss[1..], list, cur)
  }

  /** The list's contents after the loop runs the body once per element of `xs`, starting empty. */
  function Collect(body: seq<Stmt>, list: Name, xs: seq<int>): seq<int>
  {
    if xs == [] then [] else Appended(body, list, xs[0]) + Collect(body, list, xs[1..])
  }

  /** `list.ToList()` copies the contents; anything else is not a result of this list. */
  function ResultOf(e: Expr, list: Name, contents: seq<int>): Option<seq<int>>
  {
    if e == Invoke(Member(Ident(list), "ToList"), []) then Some(contents) else None
  }

  /** The loop appends each upstream element exactly once, in order. */
  lemma {:induction false} CollectIsIdentity(t: ToListEvaluation, xs: seq<int>)
    ensures Collect(RenderAccumulation(t), ListName(t.id), xs) == xs
  {
    if xs != [] {
      CollectIsIdentity(t, xs[1..]);
      assert [xs[0]] + xs[1..] == xs;
    }
  }

  /** The rendered `ToList` returns a list holding exactly the upstream elements, in order. */
  lemma ToListMeaning(t: ToListEvaluation, xs: seq<int>)
    ensures ResultOf(RenderResult(t), ListName(t.id), Collect(RenderAccumulation(t), ListName(t.id), xs)) == Some(xs)
  {
    CollectIsIdentity(t, xs);
  }
}
