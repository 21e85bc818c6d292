/**
 * What a whole compiled pipeline computes: `source.Select(selector).Sum()`
 * rendered through `Operation.RenderIteration` and run by the loop the root
 * generation puts around the fused body, against the LINQ-to-Objects meaning
 * of the same query.
 */
module Pipeline {
  import opened Syntax
  import opened Semantics
  import opened Int32
  import Operations
  import Select
  import SumEval
  import Linq
  import Range

  /** The pipeline: one `Select` stage on a root generation. */
  function SelectOnRoot(sel: Select.SelectOperation, root: Operations.RootInfo): Operations.Generation
  {
    Operations.Op(Select.AsStage(sel), Operations.Root(root))
  }

  /**
   * Fusing `Select` into `Sum`: looping the body that reaches the root over
   * the source elements adds to `result` the sum of the terms of the selected
   * elements, the same as summing after selecting.
   */
  lemma SelectSumFusion(sel: Select.SelectOperation, sum: SumEval.SumEvaluation, root: Operations.RootInfo,
                        isLocal: bool, fs: Funcs, env: Env, xs: seq<int>)
    requires Operations.CurrentName(sel.id) !in env
    requires SumEval.ResultName(sum.id) in env
    requires sel.withIndex ==> Select.IndexName(sel.id) in env
    ensures var body := Operations.RenderIteration(SelectOnRoot(sel, root), isLocal, SumEval.RenderAccumulation(sum)).body;
            var ys := Select.Selected(sel, fs, Lookup(env, Select.IndexName(sel.id)), xs);
            var after := RunLoop(body, fs, env, xs);
            SumEval.ResultName(sum.id) in after &&
            after[SumEval.ResultName(sum.id)] == env[SumEval.ResultName(sum.id)] + Linq.Sum(SumEval.Terms(sum, fs, ys))
  {
    var acc := SumEval.RenderAccumulation(sum);
    var ys := Select.Selected(sel, fs, Lookup(env, Select.IndexName(sel.id)), xs);
    assert Operations.RenderIteration(SelectOnRoot(sel, root), isLocal, acc).body ==
           Operations.Splice(Select.AsStage(sel), acc);
    Select.SelectFusion(sel, acc, fs, env, xs);
    SumEval.SumLoop(sum, fs, env, ys);
  }

  /**
   * `Range(start, count).Select(selector).Sum()` as generated: with `result`
   * set up by Sum's initialization and Select's index counter at its initial
   * -1, the loop leaves in `result` the LINQ sum of the selected range values,
   * the index variant passing element k the index k.
   */
  lemma RangeSelectSum(r: Range.RangeEnumerable, sel: Select.SelectOperation, sum: SumEval.SumEvaluation,
                       root: Operations.RootInfo, isLocal: bool, fs: Funcs, env0: Env)
    requires Operations.CurrentName(sel.id) !in env0
    ensures var started := SumEval.RenderInitialization(sum);
            var env1 := ExecStmts(started, fs, env0, 0);
            var env := if sel.withIndex then env1[Select.IndexName(sel.id) := -1] else env1;
            var body := Operations.RenderIteration(SelectOnRoot(sel, root), isLocal, SumEval.RenderAccumulation(sum)).body;
            var xs: seq<int> := Range.RangeValues(r.start, r.count);
            var ys := Linq.SelectAt(xs, Select.SelectorFn(sel, fs));
            Lookup(RunLoop(body, fs, env, xs), SumEval.ResultName(sum.id)) == Linq.Sum(SumEval.Terms(sum, fs, ys))
  {
    var env1 := ExecStmts(SumEval.RenderInitialization(sum), fs, env0, 0);
    var idx := Select.IndexName(sel.id);
    var env := if sel.withIndex then env1[idx := -1] else env1;
    var xs: seq<int> := Range.RangeValues(r.start, r.count);
    assert Operations.CurrentName(sel.id) !in env;
    SelectSumFusion(sel, sum, root, isLocal, fs, env, xs);
    Select.SelectedIsLinqSelect(sel, fs, xs);
    var result := SumEval.ResultName(sum.id);
    assert env[result] == 0;
    if !sel.withIndex {
      Select.SelectedIgnoresCounter(sel, fs, Lookup(env, idx), -1, xs);
    }
    assert Select.Selected(sel, fs, Lookup(env, idx), xs) == Linq.SelectAt(xs, Select.SelectorFn(sel, fs));
  }
}
