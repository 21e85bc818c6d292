/**
 * The `First` / `FirstOrDefault` evaluation (LinqGen.Generator/Instructions/
 * Evaluations/FirstEvaluation.cs). It renders one method body: open an
 * iterator on the upstream (a `(0, 1)` slice when the upstream can be
 * partitioned), try `MoveNext` once, and return `Current`, or else
 * `default` or an `InvalidOperationException`.
 *
 * The body is given a meaning by a small interpreter for the statements it
 * is built from, over the elements the upstream produces.
 */
module FirstEval {
  import opened Wrappers
  import opened Int32
  import opened Types
  import opened Syntax
  import Semantics
  import CodeGenUtils
  import Operations
  import Linq
  import Range

  datatype FirstError = InvalidOperation

  /**
   * `new FirstEvaluation(expression, orDefault)` once linked to its upstream;
   * `upstreamIsPartition` is the upstream's `IsPartition`.
   */
  datatype FirstEvaluation = FirstEvaluation(upstream: Operations.Generation, upstreamIsPartition: bool, orDefault: bool)

  /** `ReturnType`: the element type the upstream produces. */
  function ReturnType(f: FirstEvaluation): (t: TypeSym)
    ensures Operations.PassesElementType(f.upstream) ==> t == Operations.RootOf(f.upstream).elementType
    ensures f.upstream.Op? && f.upstream.stage.outputType.Some? ==> t == f.upstream.stage.outputType.value
  {
    Operations.OutputElementType(f.upstream)
  }

  /** `SourceVar` and `IteratorVar` of the emitted method. */
  function SourceVar(): Expr { Ident(Plain("source")) }
  function IteratorName(): Name { Plain("iter") }

  /** `iter.MoveNext()` and `iter.Current`. */
  function MoveNextCall(): Expr { Invoke(Member(Ident(IteratorName()), "MoveNext"), []) }
  function CurrentRead(): Expr { Member(Ident(IteratorName()), "Current") }

  /**
   * The elements an iterator opened by `e` yields when the upstream produces
   * `xs`: all of them for `source.GetEnumerator()`, and the `Skip`/`Take`
   * window for `source.GetSliceEnumerator(skip, take)`, the partition contract.
   */
  function Opened(e: Expr, xs: seq<int>): Option<seq<int>>
  {
    if e == Invoke(Member(SourceVar(), "GetEnumerator"), []) then Some(xs)
    else if e.Invoke? && e.callee == Member(SourceVar(), "GetSliceEnumerator") && |e.args| == 2 then
      var skip := Semantics.Eval(e.args[0], map[], map[], 0).0;
      var take := Semantics.Eval(e.args[1], map[], map[], 0).0;
      Some(Linq.Take(Linq.Skip(xs, skip), take))
    else None
  }

  /**
   * `GetEnumeratorExpression`: over a partitionable upstream, the iterator
   * yields at most the first element; otherwise all of them.
   */
  function GetEnumeratorExpression(f: FirstEvaluation): (e: Expr)
    ensures !ExprHasPlaceholder(e)
    ensures forall xs :: Opened(e, xs) == Some(if f.upstreamIsPartition then Linq.Take(xs, 1) else xs)
  {
    if f.upstreamIsPartition then
      var args := [CodeGenUtils.LiteralExpression(0), CodeGenUtils.LiteralExpression(1)];
      CodeGenUtils.LiteralMeansValue(0, map[], map[], 0);
      CodeGenUtils.LiteralMeansValue(1, map[], map[], 0);
      assert args[1..] == [args[1]] && args[1..][1..] == [];
      Invoke(Member(SourceVar(), "GetSliceEnumerator"), args)
    else
      Invoke(Member(SourceVar(), "GetEnumerator"), [])
  }

  /**
   * `RenderMethodBody`: the iterator is opened first, by a `using`
   * declaration, so it is disposed on every way out; the body is complete (no
   * placeholder), and it ends by returning `default` for `FirstOrDefault` and
   * by throwing `InvalidOperationException` for `First`.
   */
  function RenderMethodBody(f: FirstEvaluation): (s: Stmt)
    ensures s.Block? && |s.body| == 3 && s.body[0] == UsingDecl(IteratorName(), GetEnumeratorExpression(f))
    ensures !StmtHasPlaceholder(s)
    ensures f.orDefault ==> s.body[2] == Return(DefaultLit)
    ensures !f.orDefault ==> s.body[2].Block? && |s.body[2].body| == 2 &&
                             s.body[2].body[0] == ExprStmt(ThrowInvalidOperationCall())
  {
    var open := UsingDecl(IteratorName(), GetEnumeratorExpression(f));
    var read := If(MoveNextCall(), Return(CurrentRead()));
    var last := if f.orDefault then ReturnDefaultStatement() else ThrowInvalidOperationStatement();
    var body := [open, read, last];
    assert !ExprHasPlaceholder(Member(Ident(IteratorName()), "MoveNext"));
    assert !StmtHasPlaceholder(read);
    assert body[1..] == [read, last] && body[1..][1..] == [last] && body[1..][1..][1..] == [];
    assert !StmtHasPlaceholder(open) && !StmtHasPlaceholder(last);
    assert !StmtsHavePlaceholder([last]);
    assert !StmtsHavePlaceholder([read, last]);
    Block(body)
  }

  /** An open iterator: what it yields and how far `MoveNext` has gone. */
  datatype Iter = Iter(elems: seq<int>, pos: int)

  /** Where running a statement leaves the method: still running, returned or thrown, or off the fragment. */
  datatype Flow = Next(iter: Option<Iter>) | Done(outcome: Result<int, FirstError>) | Stuck

  /** One statement of an enumerator-driven method body, over the upstream elements `xs`. */
  function Step(s: Stmt, xs: seq<int>, it: Option<Iter>): Flow
  {
    match s
    case UsingDecl(n, e) =>
      if n == IteratorName() && Opened(e, xs).Some? then Next(Some(Iter(Opened(e, xs).value, -1))) else Stuck
    case If(c, t) =>
      if c == MoveNextCall() && it.Some? then
        var moved := Iter(it.value.elems, it.value.pos + 1);
        if moved.pos < |moved.elems| then Step(t, xs, Some(moved)) else Next(Some(moved))
      else Stuck
    case Return(e) =>
      if e == DefaultLit then Done(Success(0))
      else if e == CurrentRead() && it.Some? && 0 <= it.value.pos < |it.value.elems| then
        Done(Success(it.value.elems[it.value.pos]))
      else Stuck
    case ExprStmt(e) => if e == ThrowInvalidOperationCall() then Done(Failure(InvalidOperation)) else Stuck
    case Block(body) => Steps(body, xs, it)
    case _ => Stuck
  }

  function Steps(ss: seq<Stmt>, xs: seq<int>, it: Option<Iter>): Flow
  {
    if ss == [] then Next(it)
    else
      match Step(ss[0], xs, it)
      case Next(it') => Steps(ss[1..], xs, it')
      case other => other
  }

  /** `Enumerable.First` and `FirstOrDefault` over the upstream elements. */
  function FirstOf(xs: seq<int>, orDefault: bool): Result<int, FirstError>
  {
    if xs != [] then Success(xs[0])
    else if orDefault then Success(0)
    else Failure(InvalidOperation)
  }

  /**
   * The rendered body computes `First` (or `FirstOrDefault`): the first
   * upstream element when there is one, else `default` or an
   * `InvalidOperationException`; with or without the `(0, 1)` slice.
   */
  lemma FirstBodyMeaning(f: FirstEvaluation, xs: seq<int>)
    ensures Step(RenderMethodBody(f), xs, None) == Done(FirstOf(xs, f.orDefault))
  {
    var body := RenderMethodBody(f).body;
    var elems := if f.upstreamIsPartition then Linq.Take(xs, 1) else xs;
    assert Step(body[0], xs, None) == Next(Some(Iter(elems, -1)));
    assert body[1..] == [body[1], body[2]];
    if xs != [] {
      FirstHit(body[2], xs, elems);
    } else {
      FirstMiss(f, xs);
    }
  }

  /** With an element to read, `MoveNext` succeeds and the body returns it, whatever follows. */
  lemma FirstHit(rest: Stmt, xs: seq<int>, elems: seq<int>)
    requires elems != []
    ensures Steps([If(MoveNextCall(), Return(CurrentRead())), rest], xs, Some(Iter(elems, -1))) == Done(Success(elems[0]))
  {
    var moved := Iter(elems, 0);
    assert Step(Return(CurrentRead()), xs, Some(moved)) == Done(Success(elems[0]));
  }

  /** With no element, `MoveNext` fails and the body returns `default` or throws. */
  lemma FirstMiss(f: FirstEvaluation, xs: seq<int>)
    requires xs == []
    ensures var body := RenderMethodBody(f).body;
            var elems := if f.upstreamIsPartition then Linq.Take(xs, 1) else xs;
            Steps([body[1], body[2]], xs, Some(Iter(elems, -1))) == Done(FirstOf(xs, f.orDefault))
  {
    var body := RenderMethodBody(f).body;
    var elems := if f.upstreamIsPartition then Linq.Take(xs, 1) else xs;
    var moved := Some(Iter(elems, 0));
    var want := FirstOf(xs, f.orDefault);
    assert Step(body[1], xs, Some(Iter(elems, -1))) == Next(moved);
    if !f.orDefault {
      var t := ThrowInvalidOperationStatement();
      assert Step(t.body[0], xs, moved) == Done(want);
    }
    assert Step(body[2], xs, moved) == Done(want);
    assert [body[1], body[2]][1..] == [body[2]];
  }


  /**
   * `Range(start, count).First()` is `start` for a positive count, whatever
   * iterator the evaluation opens on the range.
   */
  lemma RangeFirst(r: Range.RangeEnumerable, f: FirstEvaluation)
    requires r.count > 0
    ensures Step(RenderMethodBody(f), Range.RangeValues(r.start, r.count), None) == Done(Success(r.start as int))
  {
    var xs := Range.RangeValues(r.start, r.count);
    FirstBodyMeaning(f, xs);
    assert xs[0] == Wrap(r.start as int + 0) == r.start;
  }

  /**
   * The `(0, 1)` slice `First` asks of a range is the range's own slice
   * enumerator: its bounds yield exactly the first element.
   */
  lemma {:induction false} RangeFirstSlice(r: Range.RangeEnumerable)
    requires r.count > 0
    ensures var b := r.SliceBounds(0, Some(1));
            Range.RangeValues(b.0, b.1) == [r.start]
  {
    Range.SliceIsSkipTake(r, 0, Some(1));
    var full := Range.RangeValues(r.start, r.count);
    assert Linq.Take(Linq.Skip(full, 0), 1) == [full[0]];
  }
}
