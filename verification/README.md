# LinqGen core in Dafny

LinqGen is a C# source generator. It turns chains of LINQ-style stub calls
such as `source.Select(f).Sum()` into specialised, allocation-free enumerables.
This project models the parts of LinqGen that decide what gets generated and
what the generated code means, and proves properties of them.

- **Stage registry** (`Registry`). `LinqGenSyntaxReceiver` is a class whose
  dictionaries, id counter, log and `Roots` list are updated in place.
  - Each method is proved against a pure `Book` function:
    `RegisterGeneration`, `RegisterEvaluation` and `RegisterPredefined`.
  - `ResolveHierarchy` links stages through their heap nodes (`Node`, with
    `SetUpstream`).
- **Instruction factory** (`Factory`). These are the dispatch tables from a
  stub call's name and parameter shape to a stage, or to nothing.
- **Stage graph and fusion** (`Operations`, `Select`). An operation chain
  forwards capability queries, `skip`/`take`, disposal and the iteration body
  to its root.
  - `RenderIteration` splices each stage's fragments into the body and
    rewrites the downstream placeholder (`Syntax.SubstStmts`).
  - A small interpreter (`Semantics`) gives the emitted statements a meaning.
  - With it, `Select` fused into a downstream body is proved to be LINQ's
    `Select`.
- **Terminal evaluations** (`FirstEval`, `SumEval`, `ToListEval`).
  - Each renders a fixed code shape.
  - Each shape is proved to compute `First`/`FirstOrDefault`, the left fold
    of `+` from 0, or the identity on the element sequence.
  - `Pipeline` puts `Range(...).Select(...).Sum()` together end to end.
- **Code generation utilities** (`CodeGenUtils`). These cover:
  - `NormalizeSignature`, with idempotence and the erasure of type-parameter
    names;
  - `TryParseStubInterface`, with its round trip;
  - `MakeGenericName`;
  - `LiteralExpression`, for which there is a finding below.
- **Runtime structures.**
  - `PooledSetManaged` is a class over two arrays: buckets and slots with
    chained `next` links. Ghost chains and a validity invariant support
    `Add`, `Contains`, growth and `Dispose`.
  - `RangeEnumerable` is a datatype with an `Enumerator` class. Its output
    sequence and its slice are stated exactly, with C# `int` wrap-around
    (`Int32`).

`Linq` holds independent reference definitions of LINQ-to-Objects `Skip`,
`Take`, `Select` (with index) and `Sum`, which the generated code is compared
against.

## Model

| member | source | states |
|---|---|---|
| PooledSet.Reduce | LinqGen/Core/Collections/Managed/PooledSetManaged.cs:43-46 | the bucket of a hash code `(uint)hash % size` is always below `size` |
| PooledSet.PooledSetManaged.constructor | LinqGen/Core/Collections/Managed/PooledSetManaged.cs:23-34 | a new set is valid, has count 0, the prime size, every bucket 0 (no slot), no elements and contains nothing |
| PooledSet.EmptyTable | LinqGen/Core/Collections/Managed/PooledSetManaged.cs:30-33 | cleared buckets form a valid table of empty chains |
| PooledSet.PooledSetManaged.Contains | LinqGen/Core/Collections/Managed/PooledSetManaged.cs:142-159 | true exactly when some stored slot has the value's hash and is comparer-equal to it; the chain walk of its bucket decides this |
| PooledSet.AbsentWhenChainHasNoMatch | LinqGen/Core/Collections/Managed/PooledSetManaged.cs:107-120 | only the chain of the value's bucket can hold a match, so a walk that finds none shows the value absent |
| PooledSet.ChainBound | LinqGen/Core/Collections/Managed/PooledSetManaged.cs:113-117 | a chain of distinct slots below `count` has at most `count` (hence `size`) links, so the "concurrent operations" throw is never reached on a valid set |
| PooledSet.PooledSetManaged.Add | LinqGen/Core/Collections/Managed/PooledSetManaged.cs:100-140 | false exactly when a matching value is stored, then nothing changes; otherwise the table grows first exactly when `count == size`, and fails with "Capacity overflow" (nothing changed) exactly when the new size is not above `count`; on success the value is appended as slot old-count, heads its bucket's chain, count grows by one and the value is then contained; the invariant `count <= size` and chain validity are kept |
| PooledSet.PooledSetManaged.Insert | LinqGen/Core/Collections/Managed/PooledSetManaged.cs:130-139 | the new value goes into slot `count`, becomes the head of its bucket's chain, count grows by one and the elements gain exactly this value |
| PooledSet.ConsChain | LinqGen/Core/Collections/Managed/PooledSetManaged.cs:132-137 | pushing a slot in front of a valid chain of its bucket gives a valid chain |
| PooledSet.PushHead | LinqGen/Core/Collections/Managed/PooledSetManaged.cs:132-137 | storing slot n as the new head of its bucket keeps every bucket's chain valid and files slot n in its bucket |
| PooledSet.StoreEntry | LinqGen/Core/Collections/Managed/PooledSetManaged.cs:130-139 | storing an absent value in slot n appends it to the elements and keeps hashes cached and values unique |
| PooledSet.PooledSetManaged.IncreaseCapacity | LinqGen/Core/Collections/Managed/PooledSetManaged.cs:48-58 | fails exactly when the expanded size is not above `count`, changing nothing; otherwise the new size is taken and the stored entries are unchanged |
| PooledSet.PooledSetManaged.SetCapacity | LinqGen/Core/Collections/Managed/PooledSetManaged.cs:60-98 | with a larger size (reusing pooled arrays when they are long enough), every slot is re-threaded into bucket `hash % newSize`, `size` becomes the new size, and count and the stored entries are unchanged |
| PooledSet.PooledSetManaged.Rethread | LinqGen/Core/Collections/Managed/PooledSetManaged.cs:83-89 | the re-threading loop builds a valid table over the cleared buckets and changes no entry |
| PooledSet.PooledSetManaged.Link | LinqGen/Core/Collections/Managed/PooledSetManaged.cs:85-88 | one pass of that loop adds slot i at the head of its new bucket, keeping the table valid |
| PooledSet.PresentKept | LinqGen/Core/Collections/Managed/PooledSetManaged.cs:60-98 | re-threading keeps hash codes and values, so membership survives a rehash |
| PooledSet.EntriesKept | LinqGen/Core/Collections/Managed/PooledSetManaged.cs:60-98 | re-threading keeps the element sequence, the cached hashes and uniqueness |
| PooledSet.PooledSetManaged.Dispose | LinqGen/Core/Collections/Managed/PooledSetManaged.cs:162-169 | size and count become 0 |
| Range.RangeValues | LinqGen/Predefined/RangeEnumerable.cs:40-57 | a range has `count` elements, or none for a negative count |
| Range.RangeEnumerable.Count | LinqGen/Predefined/RangeEnumerable.cs:31 | `Count` is exactly the stored `count`, read without enumerating, and for a non-negative count it is the length of the range's element sequence |
| Range.RangeEnumerable.GetEnumerator | LinqGen/Predefined/RangeEnumerable.cs:26 | a fresh enumerator over the stored start and count, with index -1 |
| Range.RangeEnumerable.SliceBounds | LinqGen/Predefined/RangeEnumerable.cs:28-29 | the slice starts at `start + skip` and has `min(count - skip, take)` elements, or `count - skip` without `take`, in 32-bit arithmetic |
| Range.RangeEnumerable.GetSliceEnumerator | LinqGen/Predefined/RangeEnumerable.cs:28-29 | a fresh enumerator over the slice bounds, with index -1 |
| Range.SliceIsSkipTake | LinqGen/Predefined/RangeEnumerable.cs:28-29 | for a non-negative count and skip, the slice yields exactly `Take(Skip(range, skip), take)` |
| Range.SliceLength | LinqGen/Predefined/RangeEnumerable.cs:28-29 | the slice has as many elements as skip-then-take leaves |
| Range.SliceElement | LinqGen/Predefined/RangeEnumerable.cs:28-29 | element k of the slice is element `skip + k` of the range |
| Range.Enumerator.constructor | LinqGen/Predefined/RangeEnumerable.cs:40-45 | a new enumerator keeps start and count and starts at index -1 |
| Range.Enumerator.MoveNext | LinqGen/Predefined/RangeEnumerable.cs:48-51 | pre-increments the index (wrapping) and answers whether it is below count |
| Range.Enumerator.Current | LinqGen/Predefined/RangeEnumerable.cs:53-57 | while the index is on an element, `Current` is the range's element at that index |
| Range.Drain | LinqGen/Predefined/RangeEnumerable.cs:48-57 | from a fresh enumerator with a non-negative count, `MoveNext` succeeds exactly `count` times and `Current` yields `start, start+1, ...` in order |
| Range.Enumerator.Reset | LinqGen/Predefined/RangeEnumerable.cs:61 | `Reset` always fails with `NotSupportedException` |
| Range.Enumerator.Dispose | LinqGen/Predefined/RangeEnumerable.cs:64 | `Dispose` does nothing: the index is left where it is |
| Registry.LinqGenSyntaxReceiver.constructor | LinqGen.Generator/LinqGenSyntaxReceiver.cs:17-29 | empty maps, no roots, counter 0, empty log |
| Registry.RegisterGeneration | LinqGen.Generator/LinqGenSyntaxReceiver.cs:72-94 | a signature already present leaves everything unchanged; otherwise the counter grows by one, earlier entries are kept, at most the new signature is added, with the new id and its upstream, and one log line about this signature is appended (none when the factory throws); the signature is stored exactly when the factory returns a stage, with that instruction and the new id, and the log line is a success line naming that instruction, or a failure line when the factory returns null |
| Registry.RegisterGenerationValid | LinqGen.Generator/LinqGenSyntaxReceiver.cs:72-94 | registering keeps ids unique and within the counter, and a newly stored generation's id is larger than every earlier one |
| Registry.RecordGeneration | LinqGen.Generator/LinqGenSyntaxReceiver.cs:80-93 | after the factory's answer the counter is the id taken, the signature is stored only when a stage was created, every other entry and all evaluations are kept, and one log line is added unless the factory threw |
| Registry.RecordGenerationValid | LinqGen.Generator/LinqGenSyntaxReceiver.cs:80-93 | recording a new signature under the next id keeps the bookkeeping valid, whatever the factory answered |
| Registry.LinqGenSyntaxReceiver.AddGeneration | LinqGen.Generator/LinqGenSyntaxReceiver.cs:72-94 | the receiver's new state is `RegisterGeneration` of its old state (so the signature is stored exactly when the factory returns a stage, under the new id, and the matching success or failure line is logged), stored nodes are kept, a newly stored node is fresh and unlinked, and the call throws exactly when the factory does |
| Registry.LinqGenSyntaxReceiver.StoreGeneration | LinqGen.Generator/LinqGenSyntaxReceiver.cs:90-93 | a successful creation logs one line and stores a fresh node under its signature, leaving the other fields alone |
| Registry.RegisterEvaluation | LinqGen.Generator/LinqGenSyntaxReceiver.cs:102-127 | a repeated (upstream, method, input element) key leaves everything unchanged, a missing input element being a key of its own; otherwise the counter grows by one, the key is stored exactly when the factory creates an evaluation, with that evaluation and the call's upstream signature, and is appended to the enumeration order (order and map unchanged when the factory returns null), generations are untouched, and exactly one success or failure line is logged |
| Registry.RegisterEvaluationValid | LinqGen.Generator/LinqGenSyntaxReceiver.cs:102-127 | registering an evaluation keeps the bookkeeping valid |
| Registry.LinqGenSyntaxReceiver.AddEvaluation | LinqGen.Generator/LinqGenSyntaxReceiver.cs:102-127 | the receiver's new state is `RegisterEvaluation` of its old state, stored nodes are kept, and a newly stored node is fresh and unlinked |
| Registry.LinqGenSyntaxReceiver.StoreEvaluation | LinqGen.Generator/LinqGenSyntaxReceiver.cs:123-126 | a successful creation logs one line and stores a fresh node under its key, leaving the other fields alone |
| Registry.LinqGenSyntaxReceiver.InitPredefinedGenerations | LinqGen.Generator/LinqGenSyntaxReceiver.cs:31-36 | Range, Repeat and Empty are registered in that order, as `RegisterPredefined` of the old state |
| Registry.RegisterPredefined | LinqGen.Generator/LinqGenSyntaxReceiver.cs:31-36 | registering the predefined sources in turn keeps the evaluations, every earlier generation and the earlier log, and takes at most one id per source |
| Registry.PredefinedInOrder | LinqGen.Generator/LinqGenSyntaxReceiver.cs:31-36 | new, distinct predefined signatures each take the next id and write the next log line about themselves, in order |
| Registry.LinqGenSyntaxReceiver.ValidIsIndexed | LinqGen.Generator/LinqGenSyntaxReceiver.cs:19-24 | in a valid receiver each map and its enumeration order hold the same keys, and each map holds stages of its own kind |
| Registry.LinqGenSyntaxReceiver.ResolveHierarchy | LinqGen.Generator/LinqGenSyntaxReceiver.cs:129-177 | maps and log are unchanged; exactly the generations without an upstream signature are appended to `Roots`, in order; no evaluation becomes a root; each stage whose upstream signature is registered is linked to it and recorded among its downstreams, and every other stage keeps its old upstream |
| Registry.LinkGenerations | LinqGen.Generator/LinqGenSyntaxReceiver.cs:133-155 | the generation loop finds exactly the roots and links each generation whose upstream is registered, skipping the rest |
| Registry.LinkEvaluations | LinqGen.Generator/LinqGenSyntaxReceiver.cs:157-173 | the evaluation loop links each evaluation whose upstream is registered, skipping the rest |
| Registry.LinkOne | LinqGen.Generator/LinqGenSyntaxReceiver.cs:135-154 | one pass of either loop links the stage when its upstream signature is registered and otherwise leaves it alone |
| Registry.RootsSound | LinqGen.Generator/LinqGenSyntaxReceiver.cs:137-141 | every root is a registered generation without an upstream signature |
| Registry.RootsComplete | LinqGen.Generator/LinqGenSyntaxReceiver.cs:137-141 | every registered generation without an upstream signature is a root |
| Registry.StagesCover | LinqGen.Generator/LinqGenSyntaxReceiver.cs:133 | enumerating a map in its insertion order visits every stored stage |
| Registry.Node.SetUpstream | LinqGen.Generator/Instructions/Operations/Operation.cs:24-28 | the stage's upstream becomes the given node and the stage joins that node's downstreams; when the two differ, the stage's downstreams and the node's upstream are kept, and no other node is modified |
| Factory.NamedParameterType | LinqGen.Generator/Instructions/InstructionFactory.cs:43 | a parameter type is read exactly when it exists and is a named type |
| Factory.CreateGeneration | LinqGen.Generator/Instructions/InstructionFactory.cs:19-94 | a stage is created only for a name in the table and carries the id it was given; an index-out-of-range exception can only come from `Specialize` or a `Select` variant |
| Factory.SpecializeDispatch | LinqGen.Generator/Instructions/InstructionFactory.cs:25-39 | `Specialize` over a rank-1 array, another array, or a named type gives the matching specialization, and nothing for any other type argument (both directions) |
| Factory.SelectDispatch | LinqGen.Generator/Instructions/InstructionFactory.cs:42-60 | a `Select` stage with flags (withIndex, withStruct) is created exactly for the matching name over a readable parameter 0 with enough type arguments, with this id and selector type; without parameter 0 the result is null |
| Factory.WhereDispatch | LinqGen.Generator/Instructions/InstructionFactory.cs:62-80 | a `Where` stage with flags (withIndex, withStruct) is created exactly for the matching name over a readable parameter 0, with that predicate type; without it the result is null |
| Factory.PassThroughDispatch | LinqGen.Generator/Instructions/InstructionFactory.cs:82-89 | `AsEnumerable`, `Cast` and `OfType` give their stage, and only they do |
| Factory.UnknownGenerationName | LinqGen.Generator/Instructions/InstructionFactory.cs:90-93 | a name outside the table creates nothing |
| Factory.CreateEvaluation | LinqGen.Generator/Instructions/InstructionFactory.cs:96-123 | an evaluation is created exactly for First, FirstOrDefault, Last, LastOrDefault, Sum and Count; `Single` and other names give null |
| Factory.EvaluationRoundTrip | LinqGen.Generator/Instructions/InstructionFactory.cs:96-123 | the table is one-to-one: a name gives an evaluation exactly when it is that evaluation's name, with its orDefault flag |
| Operations.SupportPartition | LinqGen.Generator/Instructions/Operations/Operation.cs:45 | an operation supports partition exactly when its chain's root does |
| Operations.OutputElementType | LinqGen.Generator/Instructions/Operations/Operation.cs:38 | without an override the element type is the upstream's (the root's when no stage overrides); an overriding stage gives its own |
| Operations.RenderInitialization | LinqGen.Generator/Instructions/Operations/Operation.cs:47-57 | skip and take reach the root unchanged when the root supports partition, and as null otherwise |
| Operations.RenderDispose | LinqGen.Generator/Instructions/Operations/Operation.cs:69-72 | disposal is forwarded unchanged to the root |
| Operations.Splice | LinqGen.Generator/Instructions/Operations/Operation.cs:77-95 | the order is `[moveNext; var current = ...; downstream]`; the downstream statements are rewritten to the `current` local and keep no placeholder; with neither fragment the list is unchanged |
| Operations.RenderIteration | LinqGen.Generator/Instructions/Operations/Operation.cs:74-98 | the body goes to the chain's root with the same `isLocal` |
| Operations.IterationBodyShape | LinqGen.Generator/Instructions/Operations/Operation.cs:74-98 | the body reaching the root is `Fragments(g)`, each stage's move-next and current declaration, source first, as rewritten by the stages upstream of it, followed by the downstream statements, rewritten once by the nearest stage that binds `current`; the fragments number `TotalFragments(g)` |
| Syntax.SubstStmtsRemoves | LinqGen.Generator/Instructions/Operations/Operation.cs:81-85 | after the placeholder rewriter runs with a variable, no statement refers to the placeholder |
| Syntax.SubstExprCompose | LinqGen.Generator/Instructions/Operations/Operation.cs:81-85 | rewriting twice is rewriting once with the rewritten replacement |
| Select.NewSelectOperation | LinqGen.Generator/Instructions/Operations/SelectOperation.cs:23-34 | construction succeeds exactly when the selector type has argument 1 (argument 2 with index); the output type is that argument |
| Select.GetTypeParameterInfos | LinqGen.Generator/Instructions/Operations/SelectOperation.cs:38-44 | a `Selector` type parameter, bound to the selector type, exists exactly when struct |
| Select.GetMemberInfos | LinqGen.Generator/Instructions/Operations/SelectOperation.cs:46-53 | the selector is always a member of both, typed `Selector` when struct and the delegate type otherwise; an `int index = -1` enumerator member exists exactly with index |
| Select.RenderCurrent | LinqGen.Generator/Instructions/Operations/SelectOperation.cs:55-62 | the current expression reads the placeholder and exactly the selector, plus the index counter in the index variant |
| Select.AsStage | LinqGen.Generator/Instructions/Operations/SelectOperation.cs:17-63 | Select contributes no move-next fragment, a current binding and its own element type |
| Select.CurrentEval | LinqGen.Generator/Instructions/Operations/SelectOperation.cs:55-61 | evaluating the current expression calls the selector once, with the pre-incremented index in the index variant |
| Select.SelectedIsLinqSelect | LinqGen.Generator/Instructions/Operations/SelectOperation.cs:51-61 | starting the counter at -1, element k is passed index k: the output is LINQ's `Select` |
| Select.SpliceStep | LinqGen.Generator/Instructions/Operations/Operation.cs:79-89 | one pass of a spliced body runs the selector once and the downstream sees its result |
| Select.SelectFusion | LinqGen.Generator/Instructions/Operations/SelectOperation.cs:55-61 | looping the spliced body over the elements is looping the downstream body over the selected elements |
| Select.PlainFusion | LinqGen.Generator/Instructions/Operations/SelectOperation.cs:55-61 | the same, for the variant without index |
| Select.IndexedFusion | LinqGen.Generator/Instructions/Operations/SelectOperation.cs:55-61 | the same, for the index variant, the counter ending at its start plus the element count |
| FirstEval.ReturnType | LinqGen.Generator/Instructions/Evaluations/FirstEvaluation.cs:26 | the return type is the upstream's output element type |
| FirstEval.GetEnumeratorExpression | LinqGen.Generator/Instructions/Evaluations/FirstEvaluation.cs:28-38 | a partitionable upstream is opened as the `(0, 1)` slice and yields `Take(xs, 1)`; any other is opened whole |
| FirstEval.RenderMethodBody | LinqGen.Generator/Instructions/Evaluations/FirstEvaluation.cs:40-47 | the body opens the iterator first with a `using` declaration, has no placeholder left, and ends with `return default;` for FirstOrDefault and with the `ThrowInvalidOperation` call for First |
| FirstEval.FirstBodyMeaning | LinqGen.Generator/Instructions/Evaluations/FirstEvaluation.cs:40-47 | the rendered body returns the first element, or `default` for FirstOrDefault and `InvalidOperationException` for First on no elements |
| FirstEval.FirstHit | LinqGen.Generator/Instructions/Evaluations/FirstEvaluation.cs:44-45 | with an element, the one `MoveNext` succeeds and `Current`, the first element, is returned |
| FirstEval.FirstMiss | LinqGen.Generator/Instructions/Evaluations/FirstEvaluation.cs:46 | with no element, the body returns `default` or throws |
| FirstEval.RangeFirst | LinqGen.Tests/Evaluations/FirstTests.cs:14-24 | `First` of a non-empty range is its start |
| FirstEval.RangeFirstSlice | LinqGen.Generator/Instructions/Evaluations/FirstEvaluation.cs:30-34 | the `(0, 1)` slice of a non-empty range yields exactly its start |
| Syntax.ReturnDefaultStatement | LinqGen.Generator/CodeGenUtils.cs:262-265 | the statement is `return default;`, with no placeholder |
| Syntax.ThrowInvalidOperationStatement | LinqGen.Generator/CodeGenUtils.cs:267-274 | a block that calls `ExceptionUtils.ThrowInvalidOperation()` and then returns `default` |
| SumEval.NewSumEvaluation | LinqGen.Generator/Instructions/Evaluations/SumEvaluation.cs:22-40 | the return type is the method's; a selector is used exactly when the method has a parameter, typed by parameter 0, and it is struct exactly when that type is a struct function |
| SumEval.GetTypeParameterInfos | LinqGen.Generator/Instructions/Evaluations/SumEvaluation.cs:44-48 | a `Selector` type parameter exists exactly when the selector is a struct |
| SumEval.GetParameters | LinqGen.Generator/Instructions/Evaluations/SumEvaluation.cs:50-54 | a `selector` parameter exists exactly with a selector, typed `Selector` when struct |
| SumEval.RenderInitialization | LinqGen.Generator/Instructions/Evaluations/SumEvaluation.cs:56-59 | `result` starts at 0, the default of the return type |
| SumEval.AccumulatedValue | LinqGen.Generator/Instructions/Evaluations/SumEvaluation.cs:63-70 | the value added is the element, or `selector.Invoke(element)` |
| SumEval.RenderAccumulation | LinqGen.Generator/Instructions/Evaluations/SumEvaluation.cs:61-73 | each element adds its term to `result` exactly once and changes nothing else |
| SumEval.RenderReturn | LinqGen.Generator/Instructions/Evaluations/SumEvaluation.cs:75-78 | the returned value is `result` |
| SumEval.SumLoop | LinqGen.Generator/Instructions/Evaluations/SumEvaluation.cs:61-73 | the loop adds the sum of all terms to `result` |
| SumEval.SumEvaluationMeaning | LinqGen.Generator/Instructions/Evaluations/SumEvaluation.cs:56-78 | the rendered Sum returns `0 + f(x1) + ... + f(xn)`, the LINQ sum; 0 for no elements |
| ToListEval.ReturnType | LinqGen.Generator/Instructions/Evaluations/Local/ToListEvaluation.cs:23-24 | `List<T>` of the upstream's element type |
| ToListEval.CountExpression | LinqGen.Generator/Instructions/Evaluations/Local/ToListEvaluation.cs:28-30 | the capacity hint is the upstream's `Count` when it supports counting, and 0 otherwise |
| ToListEval.RenderInitialization | LinqGen.Generator/Instructions/Evaluations/Local/ToListEvaluation.cs:26-34 | one `using` declaration of the list, created with the count hint |
| ToListEval.RenderAccumulation | LinqGen.Generator/Instructions/Evaluations/Local/ToListEvaluation.cs:36-40 | each pass appends exactly the current element |
| ToListEval.CollectIsIdentity | LinqGen.Generator/Instructions/Evaluations/Local/ToListEvaluation.cs:36-40 | over the whole loop, the list holds every element once, in order |
| ToListEval.RenderResult | LinqGen.Generator/Instructions/Evaluations/Local/ToListEvaluation.cs:42-45 | the result expression hands back exactly the list's contents, whatever they are |
| ToListEval.ToListMeaning | LinqGen.Generator/Instructions/Evaluations/Local/ToListEvaluation.cs:42-45 | the result is a copy holding exactly the upstream elements, in order |
| Pipeline.SelectSumFusion | LinqGen.Generator/Instructions/Operations/Operation.cs:74-98 | fusing `Select` into `Sum` through `RenderIteration` adds to `result` the sum of the terms of the selected elements |
| Pipeline.RangeSelectSum | LinqGen.Generator/Instructions/Operations/SelectOperation.cs:46-62 | `Range(start, count).Select(f).Sum()` as generated computes the LINQ sum of the selected range values, element k getting index k |
| CodeGenUtils.NormalizeSignature | LinqGen.Generator/CodeGenUtils.cs:381-417 | arity 0 is kept; otherwise the same definition with the same number of arguments, type parameters replaced by the definition's own, other non-named arguments kept |
| CodeGenUtils.NormalizeArgument | LinqGen.Generator/CodeGenUtils.cs:393-413 | one loop step keeps the type well formed |
| CodeGenUtils.NormalizeIdempotent | LinqGen.Generator/CodeGenUtils.cs:381-417 | normalizing twice is normalizing once |
| CodeGenUtils.NormalizeErasesTypeParamNames | LinqGen.Generator/CodeGenUtils.cs:381-417 | signatures differing only in type-parameter names normalize to the same signature |
| CodeGenUtils.TryParseStubInterface | LinqGen.Generator/CodeGenUtils.cs:65-83 | on success there were at least two arguments, the content type had one, and the results are content argument 0 and argument 1 |
| CodeGenUtils.StubRoundTrip | LinqGen.Generator/CodeGenUtils.cs:65-83 | every `IStub<IContent<T>, TSignature>` parses back to `T` and `TSignature` |
| CodeGenUtils.TryParseRejects | LinqGen.Generator/CodeGenUtils.cs:68-76 | too few arguments, a non-named argument or an argument-less content type is rejected |
| CodeGenUtils.MakeGenericName | LinqGen.Generator/CodeGenUtils.cs:229-239 | the identifier is kept; qualified, generic and simple names get the new argument list (a qualified name keeps its left part); any other name is unchanged |
| CodeGenUtils.MakeGenericNameTwice | LinqGen.Generator/CodeGenUtils.cs:229-239 | a second call replaces the arguments of the first |
| CodeGenUtils.LiteralMinValueNeverReturns | LinqGen.Generator/CodeGenUtils.cs:276-281 | as written, `LiteralExpression(int.MinValue)` recurses forever |
| CodeGenUtils.LiteralAsWrittenOtherwise | LinqGen.Generator/CodeGenUtils.cs:276-281 | as written, every other value gets its own numeric literal (the unary minus node is discarded) |
| CodeGenUtils.LiteralAsWritten | LinqGen.Generator/CodeGenUtils.cs:276-281 | as written, whenever the call returns it returns the numeric literal of the value, and a non-negative value returns at once |
| CodeGenUtils.LiteralExpression | LinqGen.Generator/CodeGenUtils.cs:276-281 | the corrected literal has no placeholder |
| CodeGenUtils.LiteralMeansValue | LinqGen.Generator/CodeGenUtils.cs:276-281 | the corrected literal evaluates to its value for every value |

## Left out

- Roslyn is reduced to what the model reads. Symbols are values compared by identity. Syntax trees are the `Syntax` datatypes. Text formatting, templates and `VisitSyntaxTree`/`VisitNode` are not modelled.
- The log holds events (success or failure lines), not formatted strings.
- `Dictionary.Values` is enumerated in insertion order, kept as a sequence beside each map. Nothing is ever removed, so this is the order .NET uses.
- The id counter is an unbounded `nat`; 32-bit overflow of `_idCounter` is not modelled.
- Registry.LinqGenSyntaxReceiver.AddEvaluation: requires the upstream signature to be present, as `LinqGenExpression.TryParse` (not part of this model) supplies it for every evaluation call. The `!` at `LinqGenSyntaxReceiver.cs:105` is only a compile-time annotation. A null upstream would throw at `:119` when creation fails and at `:169` in `ResolveHierarchy` when it succeeds; neither throw is modelled. A null input element is allowed and is part of the key.
- Registry.RegisterEvaluation: the same requirement on the upstream signature, for the same reason.
- Registry.LinqGenSyntaxReceiver.ResolveHierarchy: its two loops are the module-level methods `LinkGenerations` and `LinkEvaluations`. The generation loop collects the roots and they are appended to `Roots` after the loop; the source appends them one by one. The final state is the same.
- `LinqGenSyntaxReceiver.cs:113` passes an id to `CreateEvaluation`, while `InstructionFactory.cs:96` takes none and `FirstEvaluation.cs:21` has no id. The model follows the factory: evaluations carry no id, and the attempt still takes the next counter value.
- `Operation.cs:64` declares `RenderCurrent()`, while `SelectOperation.cs:55` overrides `RenderCurrent(RenderOption)`. The option is not modelled.
- `ToListEvaluation` is not reachable from the factory. It is modelled on its own.
- `Evaluation.SetUpstream` and `Generation.AddDownstream` are not part of this model. Every stage links like `Operation.SetUpstream`.
- `LinqGenExpression`, including `CreatePredefined`, `TryGetNamedParameterType` and `IsCompilingGeneration`, is not part of this model. Its results are inputs: the three predefined expressions, parameter types and signature names.
- `WhereOperation`, `CastOperation`, `AsEnumerableOperation`, the `Specialize*` generations, `LastEvaluation` and `CountEvaluation` appear only as the factory's results; their behaviour is not modelled.
- `Sum` is over unbounded integers, and floating point is not modelled. The generated `result += ...` is unchecked C# arithmetic, which wraps on `int` overflow, while LINQ's `Sum` throws `OverflowException`.
- SumEval.SumEvaluationMeaning: stated over unbounded integers, so it describes the generated code and LINQ's `Sum` only while every partial sum stays within the result type's range.
- SumEval.SumLoop: the same; the wrap-around of `result` is not modelled.
- Pipeline.SelectSumFusion: the same.
- Pipeline.RangeSelectSum: the same; the range's own values do wrap (`Int32`), but the sum of the selected values does not.
- ToListEval.RenderInitialization: the list is built as `new PooledList(...)` without its type argument `<T>` (the upstream's output element type, which `ToListEval.ReturnType` does carry).
- The `using` declarations of `First` and `ToList` are rendered, but disposal on exit is not given a meaning.
- `RangeEnumerable.Enumerator` is a C# struct, copied by value; it is modelled as a class, so a copy that is advanced separately is not modelled.
- The generated code is given meaning by three small interpreters, one per kind of result. `Semantics` evaluates expressions and assignments to integers, which is all that `Select`, `Sum` and the fused bodies need. `FirstEval.Step` adds iterator control flow (`MoveNext`, `return`, `throw`). `ToListEval.Appended` adds list contents. `ToListEval.ToListMeaning` is stated for the body `RenderAccumulation` produces, not for a body that went through `RenderIteration`.
- Element values in the interpreter are integers. Selector delegates and struct functions are functions from integer lists to integers.
- `HashHelpers.GetPrime` and `HashHelpers.ExpandPrime` are not part of this model. Their results are the parameters `primeSize` and `expandedSize`.
- `DynamicArrayNative`, `DynamicArrayManaged` and array pooling are not part of this model. Buckets and slots are Dafny arrays that may be longer than `size`. `localSlots.IncreaseCapacity` is treated as growing the set's own slot array, and `Dispose` does not return the arrays to a pool.
- PooledSet.PooledSetManaged.Add: the "concurrent operations" failure cannot arise from a single thread on a valid set (`ChainBound`), so `Add` never returns it. Concurrency itself is not modelled.
- PooledSet.PooledSetManaged.Add: that the value is contained after success is stated for comparers whose `Equals` is reflexive on it, which the source assumes of every comparer.
- The set's comparer is a pair of functions plus the null test that `GetHashCode` performs.

## Findings

| source | as written | input that shows it | evidently intended | confidence | as-written member | corrected member |
|---|---|---|---|---|---|---|
| LinqGen.Generator/CodeGenUtils.cs:276-281 | for a negative value `LiteralExpression` first calls itself on `-value` and discards the result; `-int.MinValue` is `int.MinValue` again in unchecked arithmetic, so the recursion never ends | `LiteralExpression(int.MinValue)` | return the numeric literal of `value` for every value, which is what every other input already gets | not executed | CodeGenUtils.LiteralMinValueNeverReturns | CodeGenUtils.LiteralExpression |
