/**
 * A small evaluator for the emitted fragment of C#, over integer values.
 * It gives the fused code a meaning so that the fusion step can be proved to
 * compute what the unfused LINQ pipeline computes.
 *
 * Variables live in an environment; the delegates and struct functions the
 * stages store (`selector`) are fixed functions looked up by name. Property
 * reads and calls other than `f.Invoke(...)` are not interpreted (they
 * evaluate to 0 and change nothing).
 */
module Semantics {
  import opened Syntax

  type Env = map<Name, int>
  type Funcs = map<Name, seq<int> -> int>

  function Lookup(env: Env, n: Name): int
  {
    if n in env then env[n] else 0
  }

  /** Every name the expression reads or writes. */
  function ExprNames(e: Expr): set<Name>
  {
    match e
    case Placeholder => {}
    case Ident(n) => {n}
    case IntLit(_) => {}
    case DefaultLit => {}
    case Negate(a) => ExprNames(a)
    case Member(t, _) => ExprNames(t)
    case Invoke(c, args) => ExprNames(c) + ArgsNames(args)
    case PreIncrement(a) => ExprNames(a)
    case AddAssign(t, v) => ExprNames(t) + ExprNames(v)
    case New(_, args) => ArgsNames(args)
  }

  function ArgsNames(args: seq<Expr>): set<Name>
  {
    if args == [] then {} else ExprNames(args[0]) + ArgsNames(args[1..])
  }

  /** Every name the statement reads, writes or declares. */
  function StmtNames(s: Stmt): set<Name>
  {
    match s
    case ExprStmt(e) => ExprNames(e)
    case LocalDecl(n, e) => {n} + ExprNames(e)
    case TypedDecl(_, n, e) => {n} + ExprNames(e)
    case UsingDecl(n, e) => {n} + ExprNames(e)
    case If(c, t) => ExprNames(c) + StmtNames(t)
    case Return(e) => ExprNames(e)
    case Block(body) => StmtsNames(body)
    case Loop(body) => StmtsNames(body)
  }

  function StmtsNames(ss: seq<Stmt>): set<Name>
  {
    if ss == [] then {} else StmtNames(ss[0]) + StmtsNames(ss[1..])
  }

  /**
   * The operand of `++` and the target of `+=` are variables, and a callee
   * never mentions the placeholder: the shapes the generator emits.
   */
  predicate ExprWellFormed(e: Expr)
  {
    match e
    case Placeholder => true
    case Ident(_) => true
    case IntLit(_) => true
    case DefaultLit => true
    case Negate(a) => ExprWellFormed(a)
    case Member(t, _) => ExprWellFormed(t)
    case Invoke(c, args) => !ExprHasPlaceholder(c) && ArgsWellFormed(args)
    case PreIncrement(a) => a.Ident?
    case AddAssign(t, v) => t.Ident? && ExprWellFormed(v)
    case New(_, args) => ArgsWellFormed(args)
  }

  predicate ArgsWellFormed(args: seq<Expr>)
  {
    if args == [] then true else ExprWellFormed(args[0]) && ArgsWellFormed(args[1..])
  }

  predicate StmtWellFormed(s: Stmt)
  {
    match s
    case ExprStmt(e) => ExprWellFormed(e)
    case LocalDecl(_, e) => ExprWellFormed(e)
    case TypedDecl(_, _, e) => ExprWellFormed(e)
    case UsingDecl(_, e) => ExprWellFormed(e)
    case If(c, t) => ExprWellFormed(c) && StmtWellFormed(t)
    case Return(e) => ExprWellFormed(e)
    case Block(body) => StmtsWellFormed(body)
    case Loop(body) => StmtsWellFormed(body)
  }

  predicate StmtsWellFormed(ss: seq<Stmt>)
  {
    if ss == [] then true else StmtWellFormed(ss[0]) && StmtsWellFormed(ss[1..])
  }

  /** The callee shape `f.Invoke`, whose function `f` names. */
  predicate IsInvokeOf(c: Expr)
  {
    c.Member? && c.target.Ident? && c.member == "Invoke"
  }

  /**
   * The value of `e` and the environment after its side effects, with `cur`
   * as the placeholder's value. Arguments are evaluated left to right; `x += v`
   * reads `x` before it evaluates `v`, as C# does.
   */
  function Eval(e: Expr, fs: Funcs, env: Env, cur: int): (int, Env)
  {
    match e
    case Placeholder => (cur, env)
    case Ident(n) => (Lookup(env, n), env)
    case IntLit(v) => (v, env)
    case DefaultLit => (0, env)
    case Negate(a) =>
      var (v, env') := Eval(a, fs, env, cur);
      (-v, env')
    case Member(_, _) => (0, env)
    case Invoke(c, args) =>
      if IsInvokeOf(c) then
        var (vs, env') := EvalArgs(args, fs, env, cur);
        var f := c.target.name;
        (if f in fs then fs[f](vs) else 0, env')
      else (0, env)
    case PreIncrement(a) =>
      if a.Ident? then
        var v := Lookup(env, a.name) + 1;
        (v, env[a.name := v])
      else (0, env)
    case AddAssign(t, a) =>
      if t.Ident? then
        var old_ := Lookup(env, t.name);
        var (v, env') := Eval(a, fs, env, cur);
        (old_ + v, env'[t.name := old_ + v])
      else (0, env)
    case New(_, _) => (0, env)
  }

  function EvalArgs(args: seq<Expr>, fs: Funcs, env: Env, cur: int): (r: (seq<int>, Env))
    ensures |r.0| == |args|
  {
    if args == [] then ([], env)
    else
      var (v, env') := Eval(args[0], fs, env, cur);
      var (vs, env'') := EvalArgs(args[1..], fs, env', cur);
      ([v] + vs, env'')
  }

  /**
   * The environment after running `s` once with `cur` as the placeholder's
   * value. `return` is read by the evaluation that emitted it, and a loop
   * runs only under `RunLoop`, so both leave the environment alone here.
   */
  function Exec(s: Stmt, fs: Funcs, env: Env, cur: int): Env
  {
    match s
    case ExprStmt(e) => Eval(e, fs, env, cur).1
    case LocalDecl(n, e) => var (v, env') := Eval(e, fs, env, cur); env'[n := v]
    case TypedDecl(_, n, e) => var (v, env') := Eval(e, fs, env, cur); env'[n := v]
    case UsingDecl(n, e) => var (v, env') := Eval(e, fs, env, cur); env'[n := v]
    case If(c, t) => var (v, env') := Eval(c, fs, env, cur); if v != 0 then Exec(t, fs, env', cur) else env'
    case Return(_) => env
    case Block(body) => ExecStmts(body, fs, env, cur)
    case Loop(_) => env
  }

  function ExecStmts(ss: seq<Stmt>, fs: Funcs, env: Env, cur: int): Env
  {
    if ss == [] then env else ExecStmts(ss[1..], fs, Exec(ss[0], fs, env, cur), cur)
  }

  /** The variables of `env` that were already in scope before: a loop body's locals end with it. */
  function Scope(env: Env, outer: set<Name>): (r: Env)
    ensures r.Keys == env.Keys * outer
  {
    map n | n in env && n in outer :: env[n]
  }

  /** A loop over the source elements `xs`: the body runs once per element, in order. */
  function RunLoop(body: seq<Stmt>, fs: Funcs, env: Env, xs: seq<int>): Env
  {
    if xs == [] then env
    else RunLoop(body, fs, Scope(ExecStmts(body, fs, env, xs[0]), env.Keys), xs[1..])
  }

  /**
   * The substitution lemma for expressions: with `c` bound to `v` and
   * otherwise unused, reading `c` where the placeholder was is the same as
   * evaluating with `v` as the placeholder's value, and `c` keeps its value.
   */
  lemma {:induction false} EvalSubst(e: Expr, fs: Funcs, env: Env, cur: int, c: Name, v: int)
    requires ExprWellFormed(e) && c !in ExprNames(e) && c in env && env[c] == v
    ensures Eval(SubstExpr(e, Ident(c)), fs, env, cur) == Eval(e, fs, env, v)
    ensures var env' := Eval(e, fs, env, v).1; c in env' && env'[c] == v
  {
    match e
    case Placeholder =>
    case Ident(_) =>
    case IntLit(_) =>
    case DefaultLit =>
    case Negate(a) => EvalSubst(a, fs, env, cur, c, v);
    case Member(t, _) =>
    case Invoke(callee, args) =>
      SubstExprNoop(callee, Ident(c));
      EvalArgsSubst(args, fs, env, cur, c, v);
    case PreIncrement(a) =>
    case AddAssign(t, a) => EvalSubst(a, fs, env, cur, c, v);
    case New(_, _) =>
  }

  lemma {:induction false} EvalArgsSubst(args: seq<Expr>, fs: Funcs, env: Env, cur: int, c: Name, v: int)
    requires ArgsWellFormed(args) && c !in ArgsNames(args) && c in env && env[c] == v
    ensures EvalArgs(SubstArgs(args, Ident(c)), fs, env, cur) == EvalArgs(args, fs, env, v)
    ensures var env' := EvalArgs(args, fs, env, v).1; c in env' && env'[c] == v
  {
    if args != [] {
      EvalSubst(args[0], fs, env, cur, c, v);
      var env' := Eval(args[0], fs, env, v).1;
      EvalArgsSubst(args[1..], fs, env', cur, c, v);
      assert SubstArgs(args, Ident(c))[1..] == SubstArgs(args[1..], Ident(c));
    }
  }

  lemma {:induction false} ExecSubst(s: Stmt, fs: Funcs, env: Env, cur: int, c: Name, v: int)
    requires StmtWellFormed(s) && c !in StmtNames(s) && c in env && env[c] == v
    ensures Exec(SubstStmt(s, Ident(c)), fs, env, cur) == Exec(s, fs, env, v)
    ensures var env' := Exec(s, fs, env, v); c in env' && env'[c] == v
  {
    match s
    case ExprStmt(e) => EvalSubst(e, fs, env, cur, c, v);
    case LocalDecl(_, e) => EvalSubst(e, fs, env, cur, c, v);
    case TypedDecl(_, _, e) => EvalSubst(e, fs, env, cur, c, v);
    case UsingDecl(_, e) => EvalSubst(e, fs, env, cur, c, v);
    case If(cond, t) =>
      EvalSubst(cond, fs, env, cur, c, v);
      ExecSubst(t, fs, Eval(cond, fs, env, v).1, cur, c, v);
    case Return(_) =>
    case Block(body) => ExecStmtsSubst(body, fs, env, cur, c, v);
    case Loop(_) =>
  }

  /**
   * The substitution lemma for statement lists, the fact behind
   * `RenderIteration`: running the rewritten downstream with the local `c`
   * bound to `v` is running the original downstream with `v` as its current
   * element.
   */
  lemma {:induction false} ExecStmtsSubst(ss: seq<Stmt>, fs: Funcs, env: Env, cur: int, c: Name, v: int)
    requires StmtsWellFormed(ss) && c !in StmtsNames(ss) && c in env && env[c] == v
    ensures ExecStmts(SubstStmts(ss, Ident(c)), fs, env, cur) == ExecStmts(ss, fs, env, v)
    ensures var env' := ExecStmts(ss, fs, env, v); c in env' && env'[c] == v
  {
    if ss != [] {
      ExecSubst(ss[0], fs, env, cur, c, v);
      var env' := Exec(ss[0], fs, env, v);
      ExecStmtsSubst(ss[1..], fs, env', cur, c, v);
      assert SubstStmts(ss, Ident(c))[1..] == SubstStmts(ss[1..], Ident(c));
    }
  }

  /** Evaluation never removes a variable. */
  lemma {:induction false} EvalKeepsKeys(e: Expr, fs: Funcs, env: Env, cur: int)
    ensures env.Keys <= Eval(e, fs, env, cur).1.Keys
  {
    match e
    case Placeholder =>
    case Ident(_) =>
    case IntLit(_) =>
    case DefaultLit =>
    case Negate(a) => EvalKeepsKeys(a, fs, env, cur);
    case Member(_, _) =>
    case Invoke(c, args) => EvalArgsKeepsKeys(args, fs, env, cur);
    case PreIncrement(_) =>
    case AddAssign(t, a) => EvalKeepsKeys(a, fs, env, cur);
    case New(_, _) =>
  }

  lemma {:induction false} EvalArgsKeepsKeys(args: seq<Expr>, fs: Funcs, env: Env, cur: int)
    ensures env.Keys <= EvalArgs(args, fs, env, cur).1.Keys
  {
    if args != [] {
      EvalKeepsKeys(args[0], fs, env, cur);
      EvalArgsKeepsKeys(args[1..], fs, Eval(args[0], fs, env, cur).1, cur);
    }
  }

  lemma {:induction false} ExecKeepsKeys(s: Stmt, fs: Funcs, env: Env, cur: int)
    ensures env.Keys <= Exec(s, fs, env, cur).Keys
  {
    match s
    case ExprStmt(e) => EvalKeepsKeys(e, fs, env, cur);
    case LocalDecl(_, e) => EvalKeepsKeys(e, fs, env, cur);
    case TypedDecl(_, _, e) => EvalKeepsKeys(e, fs, env, cur);
    case UsingDecl(_, e) => EvalKeepsKeys(e, fs, env, cur);
    case If(c, t) =>
      EvalKeepsKeys(c, fs, env, cur);
      ExecKeepsKeys(t, fs, Eval(c, fs, env, cur).1, cur);
    case Return(_) =>
    case Block(body) => ExecStmtsKeepsKeys(body, fs, env, cur);
    case Loop(_) =>
  }

  /** Running statements never removes a variable. */
  lemma {:induction false} ExecStmtsKeepsKeys(ss: seq<Stmt>, fs: Funcs, env: Env, cur: int)
    ensures env.Keys <= ExecStmts(ss, fs, env, cur).Keys
  {
    if ss != [] {
      ExecKeepsKeys(ss[0], fs, env, cur);
      ExecStmtsKeepsKeys(ss[1..], fs, Exec(ss[0], fs, env, cur), cur);
    }
  }

  /** A variable the expression does not mention is carried through its evaluation untouched. */
  lemma {:induction false} EvalFrame(e: Expr, fs: Funcs, env: Env, cur: int, n: Name, w: int)
    requires n !in ExprNames(e)
    ensures var (v, env') := Eval(e, fs, env, cur);
            Eval(e, fs, env[n := w], cur) == (v, env'[n := w])
  {
    match e
    case Placeholder =>
    case Ident(_) =>
    case IntLit(_) =>
    case DefaultLit =>
    case Negate(a) => EvalFrame(a, fs, env, cur, n, w);
    case Member(_, _) =>
    case Invoke(c, args) => EvalArgsFrame(args, fs, env, cur, n, w);
    case PreIncrement(a) =>
      if a.Ident? {
        var v := Lookup(env, a.name) + 1;
        assert env[n := w][a.name := v] == env[a.name := v][n := w];
      }
    case AddAssign(t, a) =>
      EvalFrame(a, fs, env, cur, n, w);
      if t.Ident? {
        var (v, env') := Eval(a, fs, env, cur);
        var r := Lookup(env, t.name) + v;
        assert env'[n := w][t.name := r] == env'[t.name := r][n := w];
      }
    case New(_, _) =>
  }

  lemma {:induction false} EvalArgsFrame(args: seq<Expr>, fs: Funcs, env: Env, cur: int, n: Name, w: int)
    requires n !in ArgsNames(args)
    ensures var (vs, env') := EvalArgs(args, fs, env, cur);
            EvalArgs(args, fs, env[n := w], cur) == (vs, env'[n := w])
  {
    if args != [] {
      EvalFrame(args[0], fs, env, cur, n, w);
      EvalArgsFrame(args[1..], fs, Eval(args[0], fs, env, cur).1, cur, n, w);
    }
  }

  lemma {:induction false} ExecFrame(s: Stmt, fs: Funcs, env: Env, cur: int, n: Name, w: int)
    requires n !in StmtNames(s)
    ensures Exec(s, fs, env[n := w], cur) == Exec(s, fs, env, cur)[n := w]
  {
    match s
    case ExprStmt(e) => EvalFrame(e, fs, env, cur, n, w);
    case LocalDecl(m, e) =>
      EvalFrame(e, fs, env, cur, n, w);
      var (v, env') := Eval(e, fs, env, cur);
      assert env'[n := w][m := v] == env'[m := v][n := w];
    case TypedDecl(_, m, e) =>
      EvalFrame(e, fs, env, cur, n, w);
      var (v, env') := Eval(e, fs, env, cur);
      assert env'[n := w][m := v] == env'[m := v][n := w];
    case UsingDecl(m, e) =>
      EvalFrame(e, fs, env, cur, n, w);
      var (v, env') := Eval(e, fs, env, cur);
      assert env'[n := w][m := v] == env'[m := v][n := w];
    case If(c, t) =>
      EvalFrame(c, fs, env, cur, n, w);
      ExecFrame(t, fs, Eval(c, fs, env, cur).1, cur, n, w);
    case Return(_) =>
    case Block(body) => ExecStmtsFrame(body, fs, env, cur, n, w);
    case Loop(_) =>
  }

  /** A variable the statements do not mention is carried through them untouched. */
  lemma {:induction false} ExecStmtsFrame(ss: seq<Stmt>, fs: Funcs, env: Env, cur: int, n: Name, w: int)
    requires n !in StmtsNames(ss)
    ensures ExecStmts(ss, fs, env[n := w], cur) == ExecStmts(ss, fs, env, cur)[n := w]
  {
    if ss != [] {
      ExecFrame(ss[0], fs, env, cur, n, w);
      ExecStmtsFrame(ss[1..], fs, Exec(ss[0], fs, env, cur), cur, n, w);
    }
  }

  /** A loop carries a variable its body does not mention through all its passes. */
  lemma {:induction false} RunLoopFrame(body: seq<Stmt>, fs: Funcs, env: Env, xs: seq<int>, n: Name, w: int)
    requires n !in StmtsNames(body) && n in env
    ensures RunLoop(body, fs, env[n := w], xs) == RunLoop(body, fs, env, xs)[n := w]
    decreases |xs|
  {
    if xs != [] {
      var after := ExecStmts(body, fs, env, xs[0]);
      ExecStmtsFrame(body, fs, env, xs[0], n, w);
      ExecStmtsKeepsKeys(body, fs, env, xs[0]);
      assert env[n := w].Keys == env.Keys;
      assert Scope(after[n := w], env.Keys) == Scope(after, env.Keys)[n := w];
      RunLoopFrame(body, fs, Scope(after, env.Keys), xs[1..], n, w);
    }
  }
}
