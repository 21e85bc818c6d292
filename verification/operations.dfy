/**
 * The stage graph as the emitter sees it (LinqGen.Generator/Instructions/
 * Operations/Operation.cs): a chain of operations ending in a root
 * generation. Each operation forwards capability queries, initialization
 * and disposal to its upstream, and splices its own fragments into the
 * iteration body before handing it upstream.
 *
 * Root generations (sources such as `Range` or a specialized array) are not
 * part of this model beyond what an operation asks of them: their
 * capabilities and their element type. What a chain produces for them to
 * render is a request naming the root and carrying the arguments that reach it.
 */
module Operations {
  import opened Wrappers
  import opened Types
  import opened Syntax

  /** What an operation can ask of the root generation at the end of its chain. */
  datatype RootInfo = RootInfo(id: nat, supportPartition: bool, elementType: TypeSym)

  /**
   * The fragments an operation contributes: `RenderMoveNext()`,
   * `RenderCurrent()` and, when it changes the element type, its own
   * `OutputElementType`.
   */
  datatype Stage = Stage(id: nat, moveNext: Option<Stmt>, current: Option<Expr>, outputType: Option<TypeSym>)

  datatype Generation = Root(root: RootInfo) | Op(stage: Stage, upstream: Generation)

  /** The initialization request that reaches the root: `RenderInitialization(isLocal, skipVar, takeVar)`. */
  datatype InitRequest = InitRequest(root: RootInfo, isLocal: bool, skip: Option<Expr>, take: Option<Expr>)

  /** The disposal request that reaches the root: `RenderDispose(isLocal)`. */
  datatype DisposeRequest = DisposeRequest(root: RootInfo, isLocal: bool)

  /** The iteration request that reaches the root: `RenderIteration(isLocal, statements)`. */
  datatype IterationRequest = IterationRequest(root: RootInfo, isLocal: bool, body: seq<Stmt>)

  function RootOf(g: Generation): RootInfo
  {
    match g
    case Root(r) => r
    case Op(_, up) => RootOf(up)
  }

  /** `SupportPartition`: an operation supports partition exactly when its upstream does. */
  function SupportPartition(g: Generation): (b: bool)
    ensures b == RootOf(g).supportPartition
  {
    match g
    case Root(r) => r.supportPartition
    case Op(_, up) => SupportPartition(up)
  }

  /** No stage between `g` and its root changes the element type. */
  predicate PassesElementType(g: Generation)
  {
    match g
    case Root(_) => true
    case Op(s, up) => s.outputType.None? && PassesElementType(up)
  }

  /**
   * `OutputElementType`: the upstream's by default; an operation that
   * computes a new element (such as `Select`) declares its own.
   */
  function OutputElementType(g: Generation): (t: TypeSym)
    ensures PassesElementType(g) ==> t == RootOf(g).elementType
    ensures g.Op? && g.stage.outputType.Some? ==> t == g.stage.outputType.value
  {
    match g
    case Root(r) => r.elementType
    case Op(s, up) => if s.outputType.Some? then s.outputType.value else OutputElementType(up)
  }

  /**
   * `RenderInitialization`: an operation hands `skipVar` and `takeVar` to its
   * upstream only when the upstream supports partition, and nulls both
   * otherwise; so through a chain of operations they reach the root exactly
   * when the root itself supports partition.
   */
  function RenderInitialization(g: Generation, isLocal: bool, skip: Option<Expr>, take: Option<Expr>): (r: InitRequest)
    ensures r.root == RootOf(g) && r.isLocal == isLocal
    ensures g.Root? ==> r.skip == skip && r.take == take
    ensures g.Op? ==>
      (r.skip, r.take) == if RootOf(g).supportPartition then (skip, take) else (None, None)
  {
    match g
    case Root(root) => InitRequest(root, isLocal, skip, take)
    case Op(_, up) =>
      if !SupportPartition(up) then RenderInitialization(up, isLocal, None, None)
      else RenderInitialization(up, isLocal, skip, take)
  }

  /** `RenderDispose`: forwarded unchanged to the root. */
  function RenderDispose(g: Generation, isLocal: bool): (r: DisposeRequest)
    ensures r == DisposeRequest(RootOf(g), isLocal)
  {
    match g
    case Root(root) => DisposeRequest(root, isLocal)
    case Op(_, up) => RenderDispose(up, isLocal)
  }

  /** `VarName("current")` of the stage with id `id`. */
  function CurrentName(id: nat): Name
  {
    Var("current", id)
  }

  /** How many fragments a stage contributes. */
  function FragmentCount(s: Stage): nat
  {
    (if s.moveNext.Some? then 1 else 0) + (if s.current.Some? then 1 else 0)
  }

  /**
   * The splice step of `RenderIteration`: with a current expression, every
   * placeholder of the downstream statements is rewritten to the stage's
   * `current` local and that local's declaration is put first; then a
   * move-next fragment, if any, is put before everything.
   */
  function Splice(s: Stage, stmts: seq<Stmt>): (r: seq<Stmt>)
    ensures |r| == FragmentCount(s) + |stmts|
    ensures s.moveNext.None? && s.current.None? ==> r == stmts
    ensures s.moveNext.Some? ==> r[0] == s.moveNext.value
    ensures s.current.Some? ==>
      var k := if s.moveNext.Some? then 1 else 0;
      && r[k] == LocalDecl(CurrentName(s.id), s.current.value)
      && r[k + 1..] == SubstStmts(stmts, Ident(CurrentName(s.id)))
      && !StmtsHavePlaceholder(r[k + 1..])
    ensures s.current.None? ==> r[|r| - |stmts|..] == stmts
  {
    var bound :=
      if s.current.Some? then
        var name := CurrentName(s.id);
        SubstStmtsRemoves(stmts, Ident(name));
        [LocalDecl(name, s.current.value)] + SubstStmts(stmts, Ident(name))
      else stmts;
    if s.moveNext.Some? then [s.moveNext.value] + bound else bound
  }

  /**
   * `RenderIteration`: each operation splices its fragments into the
   * statement list and hands the result to its upstream, so the body that
   * reaches the root is built from the terminal outwards.
   */
  function RenderIteration(g: Generation, isLocal: bool, stmts: seq<Stmt>): (r: IterationRequest)
    ensures r.root == RootOf(g) && r.isLocal == isLocal
  {
    match g
    case Root(root) => IterationRequest(root, isLocal, stmts)
    case Op(s, up) => RenderIteration(up, isLocal, Splice(s, stmts))
  }

  /** The fragments of all stages between `g` and its root. */
  function TotalFragments(g: Generation): nat
  {
    match g
    case Root(_) => 0
    case Op(s, up) => FragmentCount(s) + TotalFragments(up)
  }

  /** What one stage puts in front of the downstream statements: its move-next fragment, then its current-value declaration. */
  function OwnFragments(s: Stage): (r: seq<Stmt>)
    ensures |r| == FragmentCount(s)
  {
    (if s.moveNext.Some? then [s.moveNext.value] else []) +
    (if s.current.Some? then [LocalDecl(CurrentName(s.id), s.current.value)] else [])
  }

  /**
   * The statements every stage between `g` and its root contributes, source
   * first: each stage's own fragments, as rewritten by the stages upstream of
   * it.
   */
  function Fragments(g: Generation): seq<Stmt>
  {
    match g
    case Root(_) => []
    case Op(s, up) => Fragments(up) + Resolved(up, OwnFragments(s))
  }

  /**
   * The downstream statements after the rewrite that matters: that of the
   * nearest stage (from the terminal's side) that binds a current value.
   */
  function Resolved(g: Generation, stmts: seq<Stmt>): seq<Stmt>
  {
    match g
    case Root(_) => stmts
    case Op(s, up) =>
      if s.current.Some? then SubstStmts(stmts, Ident(CurrentName(s.id))) else Resolved(up, stmts)
  }

  /** Rewriting distributes over concatenation. */
  lemma {:induction false} SubstStmtsAppend(a: seq<Stmt>, b: seq<Stmt>, x: Expr)
    ensures SubstStmts(a + b, x) == SubstStmts(a, x) + SubstStmts(b, x)
  {
    if a != [] {
      assert (a + b)[0] == a[0] && (a + b)[1..] == a[1..] + b;
      SubstStmtsAppend(a[1..], b, x);
      calc {
        SubstStmts(a + b, x);
        [SubstStmt(a[0], x)] + SubstStmts(a[1..] + b, x);
        [SubstStmt(a[0], x)] + (SubstStmts(a[1..], x) + SubstStmts(b, x));
        SubstStmts(a, x) + SubstStmts(b, x);
      }
    } else {
      assert a + b == b;
    }
  }

  /** Rewriting placeholder-free statements changes nothing. */
  lemma {:induction false} SubstStmtsNoop(ss: seq<Stmt>, x: Expr)
    requires !StmtsHavePlaceholder(ss)
    ensures SubstStmts(ss, x) == ss
  {
    if ss != [] {
      SubstStmtNoop(ss[0], x);
      SubstStmtsNoop(ss[1..], x);
      assert ss == [ss[0]] + ss[1..];
    }
  }

  lemma {:induction false} SubstStmtNoop(s: Stmt, x: Expr)
    requires !StmtHasPlaceholder(s)
    ensures SubstStmt(s, x) == s
  {
    match s
    case ExprStmt(e) => SubstExprNoop(e, x);
    case LocalDecl(_, e) => SubstExprNoop(e, x);
    case TypedDecl(_, _, e) => SubstExprNoop(e, x);
    case UsingDecl(_, e) => SubstExprNoop(e, x);
    case If(c, t) => SubstExprNoop(c, x); SubstStmtNoop(t, x);
    case Return(e) => SubstExprNoop(e, x);
    case Block(body) => SubstStmtsNoop(body, x);
    case Loop(body) => SubstStmtsNoop(body, x);
  }

  /**
   * The shape of the body that reaches the root: the fragments of every
   * stage, source first, each rewritten by the stages upstream of it, then the
   * terminal's statements, rewritten once by the nearest stage that binds a
   * current value; stages further upstream leave them alone.
   */
  lemma {:induction false} IterationBodyShape(g: Generation, isLocal: bool, stmts: seq<Stmt>)
    ensures |Fragments(g)| == TotalFragments(g)
    ensures RenderIteration(g, isLocal, stmts).body == Fragments(g) + Resolved(g, stmts)
  {
    match g
    case Root(_) =>
    case Op(s, up) =>
      IterationBodyShape(up, isLocal, Splice(s, stmts));
      IterationBodyStep(s, up, isLocal, stmts);
  }

  /** One stage of `IterationBodyShape`: the shape of the upstream's body gives the shape of this stage's. */
  lemma IterationBodyStep(s: Stage, up: Generation, isLocal: bool, stmts: seq<Stmt>)
    requires |Fragments(up)| == TotalFragments(up)
    requires RenderIteration(up, isLocal, Splice(s, stmts)).body == Fragments(up) + Resolved(up, Splice(s, stmts))
    ensures |Fragments(Op(s, up))| == TotalFragments(Op(s, up))
    ensures RenderIteration(Op(s, up), isLocal, stmts).body == Fragments(Op(s, up)) + Resolved(Op(s, up), stmts)
  {
    var spliced := Splice(s, stmts);
    var own, tail := OwnFragments(s), spliced[FragmentCount(s)..];
    SpliceShape(s, stmts);
    ResolvedAppend(up, own, tail);
    ResolvedTail(s, up, stmts);
    var front, back, rest := Fragments(up), Resolved(up, own), Resolved(Op(s, up), stmts);
    assert Resolved(up, spliced) == back + rest;
    ConcatAssoc(front, back, rest);
  }

  lemma ConcatAssoc(a: seq<Stmt>, b: seq<Stmt>, c: seq<Stmt>)
    ensures a + (b + c) == (a + b) + c
  {
  }

  /** Past a stage's own fragments, the upstream leaves its splice as the stage's own rewrite of the downstream statements. */
  lemma ResolvedTail(s: Stage, up: Generation, stmts: seq<Stmt>)
    ensures Resolved(up, Splice(s, stmts)[FragmentCount(s)..]) == Resolved(Op(s, up), stmts)
  {
    SpliceShape(s, stmts);
    if s.current.Some? {
      ResolvedPlaceholderFree(up, Splice(s, stmts)[FragmentCount(s)..]);
    }
  }

  /** A stage's splice is its own fragments followed by the downstream statements, rewritten when it binds a current value. */
  lemma SpliceShape(s: Stage, stmts: seq<Stmt>)
    ensures Splice(s, stmts) == OwnFragments(s) + Splice(s, stmts)[FragmentCount(s)..]
    ensures Splice(s, stmts)[FragmentCount(s)..] ==
            if s.current.Some? then SubstStmts(stmts, Ident(CurrentName(s.id))) else stmts
  {
    var r := Splice(s, stmts);
    var own := OwnFragments(s);
    assert forall i :: 0 <= i < |own| ==> r[i] == own[i];
  }

  lemma {:induction false} ResolvedAppend(g: Generation, a: seq<Stmt>, b: seq<Stmt>)
    ensures Resolved(g, a + b) == Resolved(g, a) + Resolved(g, b)
    ensures |Resolved(g, a)| == |a|
  {
    match g
    case Root(_) =>
    case Op(s, up) =>
      if s.current.Some? {
        SubstStmtsAppend(a, b, Ident(CurrentName(s.id)));
      } else {
        ResolvedAppend(up, a, b);
      }
  }

  lemma {:induction false} ResolvedPlaceholderFree(g: Generation, ss: seq<Stmt>)
    requires !StmtsHavePlaceholder(ss)
    ensures Resolved(g, ss) == ss
  {
    match g
    case Root(_) =>
    case Op(s, up) =>
      if s.current.Some? {
        SubstStmtsNoop(ss, Ident(CurrentName(s.id)));
      } else {
        ResolvedPlaceholderFree(up, ss);
      }
  }
}
