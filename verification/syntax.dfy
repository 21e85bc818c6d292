/**
 * The fragment of C# syntax the generator emits for a pipeline, reduced to
 * what the fusion step inspects: statements and expressions over named
 * variables and the `CurrentPlaceholder` expression that stands for "the
 * element the upstream produces".
 */
module Syntax {
  /**
   * An identifier of the emitted code: `IdentifierName(text)` is `Plain`;
   * `VarName(text)` of a stage with id `id` is `Var(text, id)`, a name private
   * to that stage.
   */
  datatype Name = Plain(text: string) | Var(base: string, id: nat)

  datatype Expr =
    | Placeholder                                   // CurrentPlaceholder
    | Ident(name: Name)
    | IntLit(literal: int)
    | DefaultLit                                    // `default`
    | Negate(operand: Expr)                         // unary minus
    | Member(target: Expr, member: string)          // target.member
    | Invoke(callee: Expr, args: seq<Expr>)         // callee(args)
    | PreIncrement(operand: Expr)                   // ++operand
    | AddAssign(target: Expr, value: Expr)          // target += value
    | New(typeName: string, args: seq<Expr>)        // new T(args)

  datatype Stmt =
    | ExprStmt(expr: Expr)
    | LocalDecl(name: Name, init: Expr)              // var name = init;
    | TypedDecl(typeName: string, name: Name, init: Expr)  // T name = init;
    | UsingDecl(name: Name, init: Expr)              // using var name = init;
    | If(cond: Expr, thenStmt: Stmt)
    | Return(result: Expr)
    | Block(body: seq<Stmt>)
    /** The loop a root generation renders around the fused body, one pass per source element. */
    | Loop(body: seq<Stmt>)

  /** `selector.Invoke(args)`: a call through a stored delegate or struct function. */
  function InvokeMember(target: Name, args: seq<Expr>): Expr
  {
    Invoke(Member(Ident(target), "Invoke"), args)
  }

  /** The expression mentions the placeholder. */
  predicate ExprHasPlaceholder(e: Expr)
  {
    match e
    case Placeholder => true
    case Ident(_) => false
    case IntLit(_) => false
    case DefaultLit => false
    case Negate(a) => ExprHasPlaceholder(a)
    case Member(t, _) => ExprHasPlaceholder(t)
    case Invoke(c, args) => ExprHasPlaceholder(c) || ArgsHavePlaceholder(args)
    case PreIncrement(a) => ExprHasPlaceholder(a)
    case AddAssign(t, v) => ExprHasPlaceholder(t) || ExprHasPlaceholder(v)
    case New(_, args) => ArgsHavePlaceholder(args)
  }

  predicate ArgsHavePlaceholder(args: seq<Expr>)
  {
    if args == [] then false else ExprHasPlaceholder(args[0]) || ArgsHavePlaceholder(args[1..])
  }

  predicate StmtHasPlaceholder(s: Stmt)
  {
    match s
    case ExprStmt(e) => ExprHasPlaceholder(e)
    case LocalDecl(_, e) => ExprHasPlaceholder(e)
    case TypedDecl(_, _, e) => ExprHasPlaceholder(e)
    case UsingDecl(_, e) => ExprHasPlaceholder(e)
    case If(c, t) => ExprHasPlaceholder(c) || StmtHasPlaceholder(t)
    case Return(e) => ExprHasPlaceholder(e)
    case Block(body) => StmtsHavePlaceholder(body)
    case Loop(body) => StmtsHavePlaceholder(body)
  }

  predicate StmtsHavePlaceholder(ss: seq<Stmt>)
  {
    if ss == [] then false else StmtHasPlaceholder(ss[0]) || StmtsHavePlaceholder(ss[1..])
  }

  /** `PlaceholderRewriter`: every placeholder in `e` becomes `x`. */
  function SubstExpr(e: Expr, x: Expr): Expr
  {
    match e
    case Placeholder => x
    case Ident(_) => e
    case IntLit(_) => e
    case DefaultLit => e
    case Negate(a) => Negate(SubstExpr(a, x))
    case Member(t, m) => Member(SubstExpr(t, x), m)
    case Invoke(c, args) => Invoke(SubstExpr(c, x), SubstArgs(args, x))
    case PreIncrement(a) => PreIncrement(SubstExpr(a, x))
    case AddAssign(t, v) => AddAssign(SubstExpr(t, x), SubstExpr(v, x))
    case New(ty, args) => New(ty, SubstArgs(args, x))
  }

  function SubstArgs(args: seq<Expr>, x: Expr): (r: seq<Expr>)
    ensures |r| == |args|
  {
    if args == [] then [] else [SubstExpr(args[0], x)] + SubstArgs(args[1..], x)
  }

  function SubstStmt(s: Stmt, x: Expr): Stmt
  {
    match s
    case ExprStmt(e) => ExprStmt(SubstExpr(e, x))
    case LocalDecl(n, e) => LocalDecl(n, SubstExpr(e, x))
    case TypedDecl(t, n, e) => TypedDecl(t, n, SubstExpr(e, x))
    case UsingDecl(n, e) => UsingDecl(n, SubstExpr(e, x))
    case If(c, t) => If(SubstExpr(c, x), SubstStmt(t, x))
    case Return(e) => Return(SubstExpr(e, x))
    case Block(body) => Block(SubstStmts(body, x))
    case Loop(body) => Loop(SubstStmts(body, x))
  }

  /** `PlaceholderRewriter.VisitStatementSyntaxList`: the rewrite applied to each statement, in order. */
  function SubstStmts(ss: seq<Stmt>, x: Expr): (r: seq<Stmt>)
    ensures |r| == |ss|
  {
    if ss == [] then [] else [SubstStmt(ss[0], x)] + SubstStmts(ss[1..], x)
  }

  /** Rewriting with a placeholder-free expression leaves no placeholder behind. */
  lemma {:induction false} SubstExprRemoves(e: Expr, x: Expr)
    requires !ExprHasPlaceholder(x)
    ensures !ExprHasPlaceholder(SubstExpr(e, x))
  {
    match e
    case Placeholder =>
    case Ident(_) =>
    case IntLit(_) =>
    case DefaultLit =>
    case Negate(a) => SubstExprRemoves(a, x);
    case Member(t, _) => SubstExprRemoves(t, x);
    case Invoke(c, args) => SubstExprRemoves(c, x); SubstArgsRemoves(args, x);
    case PreIncrement(a) => SubstExprRemoves(a, x);
    case AddAssign(t, v) => SubstExprRemoves(t, x); SubstExprRemoves(v, x);
    case New(_, args) => SubstArgsRemoves(args, x);
  }

  lemma {:induction false} SubstArgsRemoves(args: seq<Expr>, x: Expr)
    requires !ExprHasPlaceholder(x)
    ensures !ArgsHavePlaceholder(SubstArgs(args, x))
  {
    if args != [] {
      SubstExprRemoves(args[0], x);
      SubstArgsRemoves(args[1..], x);
      assert SubstArgs(args, x)[1..] == SubstArgs(args[1..], x);
    }
  }

  lemma {:induction false} SubstStmtRemoves(s: Stmt, x: Expr)
    requires !ExprHasPlaceholder(x)
    ensures !StmtHasPlaceholder(SubstStmt(s, x))
  {
    match s
    case ExprStmt(e) => SubstExprRemoves(e, x);
    case LocalDecl(_, e) => SubstExprRemoves(e, x);
    case TypedDecl(_, _, e) => SubstExprRemoves(e, x);
    case UsingDecl(_, e) => SubstExprRemoves(e, x);
    case If(c, t) => SubstExprRemoves(c, x); SubstStmtRemoves(t, x);
    case Return(e) => SubstExprRemoves(e, x);
    case Block(body) => SubstStmtsRemoves(body, x);
    case Loop(body) => SubstStmtsRemoves(body, x);
  }

  /** After `PlaceholderRewriter` runs with a variable, no statement still refers to the placeholder. */
  lemma {:induction false} SubstStmtsRemoves(ss: seq<Stmt>, x: Expr)
    requires !ExprHasPlaceholder(x)
    ensures !StmtsHavePlaceholder(SubstStmts(ss, x))
  {
    if ss != [] {
      SubstStmtRemoves(ss[0], x);
      SubstStmtsRemoves(ss[1..], x);
      assert SubstStmts(ss, x)[1..] == SubstStmts(ss[1..], x);
    }
  }

  /** Rewriting code that has no placeholder changes nothing. */
  lemma {:induction false} SubstExprNoop(e: Expr, x: Expr)
    requires !ExprHasPlaceholder(e)
    ensures SubstExpr(e, x) == e
  {
    match e
    case Placeholder =>
    case Ident(_) =>
    case IntLit(_) =>
    case DefaultLit =>
    case Negate(a) => SubstExprNoop(a, x);
    case Member(t, _) => SubstExprNoop(t, x);
    case Invoke(c, args) => SubstExprNoop(c, x); SubstArgsNoop(args, x);
    case PreIncrement(a) => SubstExprNoop(a, x);
    case AddAssign(t, v) => SubstExprNoop(t, x); SubstExprNoop(v, x);
    case New(_, args) => SubstArgsNoop(args, x);
  }

  lemma {:induction false} SubstArgsNoop(args: seq<Expr>, x: Expr)
    requires !ArgsHavePlaceholder(args)
    ensures SubstArgs(args, x) == args
  {
    if args != [] {
      SubstExprNoop(args[0], x);
      SubstArgsNoop(args[1..], x);
      assert args == [args[0]] + args[1..];
    }
  }

  /**
   * Rewriting twice is rewriting once with the rewritten replacement: the
   * placeholder a stage leaves in its own `current` expression is resolved
   * by the next stage upstream.
   */
  lemma {:induction false} SubstExprCompose(e: Expr, x: Expr, y: Expr)
    ensures SubstExpr(SubstExpr(e, x), y) == SubstExpr(e, SubstExpr(x, y))
  {
    match e
    case Placeholder =>
    case Ident(_) =>
    case IntLit(_) =>
    case DefaultLit =>
    case Negate(a) => SubstExprCompose(a, x, y);
    case Member(t, _) => SubstExprCompose(t, x, y);
    case Invoke(c, args) => SubstExprCompose(c, x, y); SubstArgsCompose(args, x, y);
    case PreIncrement(a) => SubstExprCompose(a, x, y);
    case AddAssign(t, v) => SubstExprCompose(t, x, y); SubstExprCompose(v, x, y);
    case New(_, args) => SubstArgsCompose(args, x, y);
  }

  lemma {:induction false} SubstArgsCompose(args: seq<Expr>, x: Expr, y: Expr)
    ensures SubstArgs(SubstArgs(args, x), y) == SubstArgs(args, SubstExpr(x, y))
  {
    if args != [] {
      SubstExprCompose(args[0], x, y);
      SubstArgsCompose(args[1..], x, y);
      assert SubstArgs(args, x)[1..] == SubstArgs(args[1..], x);
    }
  }

  /** `ReturnDefaultStatement`: `return default;`. */
  function ReturnDefaultStatement(): (s: Stmt)
    ensures s == Return(DefaultLit)
    ensures !StmtHasPlaceholder(s)
  {
    Return(DefaultLit)
  }

  /** `ExceptionUtils.ThrowInvalidOperation()`. */
  function ThrowInvalidOperationCall(): Expr
  {
    Invoke(Member(Ident(Plain("ExceptionUtils")), "ThrowInvalidOperation"), [])
  }

  /** `ThrowInvalidOperationStatement`: `{ ExceptionUtils.ThrowInvalidOperation(); return default; }`. */
  function ThrowInvalidOperationStatement(): (s: Stmt)
    ensures s.Block? && |s.body| == 2 && s.body[1] == ReturnDefaultStatement()
    ensures s.body[0] == ExprStmt(ThrowInvalidOperationCall())
    ensures !StmtHasPlaceholder(s)
  {
    var throwCall := ThrowInvalidOperationCall();
    var body := [ExprStmt(throwCall), ReturnDefaultStatement()];
    assert !StmtHasPlaceholder(ExprStmt(throwCall));
    assert body[1..] == [ReturnDefaultStatement()] && body[1..][1..] == [];
    assert !StmtsHavePlaceholder(body[1..]);
    Block(body)
  }
}
