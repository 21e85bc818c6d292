/**
 * The dispatch tables of LinqGen.Generator/Instructions/InstructionFactory.cs:
 * from a stub call's name and parameter shape to the stage that compiles it,
 * or to nothing when the call is not supported.
 */
module Factory {
  import opened Wrappers
  import opened Types
  import Select

  /**
   * What the factory reads of a `LinqGenExpression`: the name and type
   * arguments of the signature symbol (the stub's return type), and the name
   * and parameter types of the stub method.
   */
  datatype LinqGenExpression = LinqGenExpression(
    signatureName: string, signatureArgs: seq<TypeSym>,
    methodName: string, parameterTypes: seq<TypeSym>)

  /** `TryGetNamedParameterType(i, out t)`: parameter i's type, when there is one and it is a named type. */
  function NamedParameterType(e: LinqGenExpression, i: nat): (r: Option<TypeSym>)
    ensures r.Some? <==> i < |e.parameterTypes| && e.parameterTypes[i].Named?
    ensures r.Some? ==> r.value == e.parameterTypes[i]
  {
    if i < |e.parameterTypes| && e.parameterTypes[i].Named? then Some(e.parameterTypes[i]) else None
  }

  /** The generations the factory creates. */
  datatype Instruction =
    | SpecializeArray(id: nat, array: TypeSym)
    | SpecializeArrayMulti(id: nat, array: TypeSym)
    | Specialize(id: nat, named: TypeSym)
    | SelectOp(op: Select.SelectOperation)
    | WhereOp(id: nat, predicateType: TypeSym, withIndex: bool, withStruct: bool)
    | AsEnumerableOp(id: nat)
    | CastOp(id: nat, ofType: bool)

  /** The outcome of `CreateGeneration`: a stage, `null`, or an exception from indexing a type-argument list. */
  datatype Created = Generation(instruction: Instruction) | NotSupported | IndexOutOfRange

  /** The names of the four `Select` variants, by (withIndex, withStruct). */
  function SelectName(withIndex: bool, withStruct: bool): string
  {
    if withIndex then (if withStruct then "SelectAtStruct" else "SelectAt")
    else (if withStruct then "SelectStruct" else "Select")
  }

  /** The names of the four `Where` variants, by (withIndex, withStruct). */
  function WhereName(withIndex: bool, withStruct: bool): string
  {
    if withIndex then (if withStruct then "WhereAtStruct" else "WhereAt")
    else (if withStruct then "WhereStruct" else "Where")
  }

  /** A `Select` variant: nothing without a named parameter 0, otherwise the operation its constructor builds. */
  function CreateSelect(e: LinqGenExpression, id: nat, withIndex: bool, withStruct: bool): Created
  {
    match NamedParameterType(e, 0)
    case None => NotSupported
    case Some(t) =>
      match Select.NewSelectOperation(id, t, withIndex, withStruct)
      case Success(op) => Generation(SelectOp(op))
      case Failure(_) => IndexOutOfRange
  }

  /** A `Where` variant: nothing without a named parameter 0. */
  function CreateWhere(e: LinqGenExpression, id: nat, withIndex: bool, withStruct: bool): Created
  {
    match NamedParameterType(e, 0)
    case None => NotSupported
    case Some(t) => Generation(WhereOp(id, t, withIndex, withStruct))
  }

  /** The id a generation is created with. */
  function InstructionId(i: Instruction): nat
  {
    match i
    case SpecializeArray(id, _) => id
    case SpecializeArrayMulti(id, _) => id
    case Specialize(id, _) => id
    case SelectOp(op) => op.id
    case WhereOp(id, _, _, _) => id
    case AsEnumerableOp(id) => id
    case CastOp(id, _) => id
  }

  /**
   * `CreateGeneration`: the switch on the signature symbol's name. A stage is
   * only created for a name in the table, and carries the id it was given;
   * indexing past a type-argument list can only happen for `Specialize` and
   * the four `Select` variants.
   */
  function CreateGeneration(e: LinqGenExpression, id: nat): (r: Created)
    ensures r.Generation? ==> KnownGenerationName(e.signatureName) && InstructionId(r.instruction) == id
    ensures r.IndexOutOfRange? ==> e.signatureName in {"Specialize", "Select", "SelectStruct", "SelectAt", "SelectAtStruct"}
  {
    match e.signatureName
    case "Specialize" =>
      if |e.signatureArgs| == 0 then IndexOutOfRange
      else
        var t := e.signatureArgs[0];
        if t.ArrayOf? then
          if t.rank == 1 then Generation(SpecializeArray(id, t)) else Generation(SpecializeArrayMulti(id, t))
        else if t.Named? then Generation(Specialize(id, t))
        else NotSupported
    case "Select" => CreateSelect(e, id, false, false)
    case "SelectStruct" => CreateSelect(e, id, false, true)
    case "SelectAt" => CreateSelect(e, id, true, false)
    case "SelectAtStruct" => CreateSelect(e, id, true, true)
    case "Where" => CreateWhere(e, id, false, false)
    case "WhereAt" => CreateWhere(e, id, true, false)
    case "WhereStruct" => CreateWhere(e, id, false, true)
    case "WhereAtStruct" => CreateWhere(e, id, true, true)
    case "AsEnumerable" => Generation(AsEnumerableOp(id))
    case "Cast" => Generation(CastOp(id, false))
    case "OfType" => Generation(CastOp(id, true))
    case _ => NotSupported
  }

  /** Every name the generation table knows. */
  predicate KnownGenerationName(name: string)
  {
    name in {"Specialize", "Select", "SelectStruct", "SelectAt", "SelectAtStruct",
             "Where", "WhereAt", "WhereStruct", "WhereAtStruct", "AsEnumerable", "Cast", "OfType"}
  }

  /** A name outside the table creates nothing. */
  lemma UnknownGenerationName(e: LinqGenExpression, id: nat)
    requires !KnownGenerationName(e.signatureName)
    ensures CreateGeneration(e, id) == NotSupported
  {
  }

  /**
   * `Specialize` by its type argument: a rank-1 array, any other array, a
   * named type, or nothing.
   */
  lemma SpecializeDispatch(e: LinqGenExpression, id: nat)
    requires e.signatureName == "Specialize" && |e.signatureArgs| > 0
    ensures var t := e.signatureArgs[0];
            && (t.ArrayOf? && t.rank == 1 <==> CreateGeneration(e, id) == Generation(SpecializeArray(id, t)))
            && (t.ArrayOf? && t.rank != 1 <==> CreateGeneration(e, id) == Generation(SpecializeArrayMulti(id, t)))
            && (t.Named? <==> CreateGeneration(e, id) == Generation(Specialize(id, t)))
            && (t.TypeParam? || t.Other? <==> CreateGeneration(e, id) == NotSupported)
  {
  }

  /** The generation created is a `Select` stage with the given flags. */
  predicate IsSelect(c: Created, withIndex: bool, withStruct: bool)
  {
    c.Generation? && c.instruction.SelectOp? &&
    c.instruction.op.withIndex == withIndex && c.instruction.op.withStruct == withStruct
  }

  /** The generation created is a `Where` stage with the given flags. */
  predicate IsWhere(c: Created, withIndex: bool, withStruct: bool)
  {
    c.Generation? && c.instruction.WhereOp? &&
    c.instruction.withIndex == withIndex && c.instruction.withStruct == withStruct
  }

  /**
   * A `Select` stage is created exactly for the four `Select` names over a
   * named parameter type with enough type arguments; its flags are the ones
   * the name stands for and its selector type is parameter 0's type.
   */
  lemma SelectDispatch(e: LinqGenExpression, id: nat, withIndex: bool, withStruct: bool)
    ensures IsSelect(CreateGeneration(e, id), withIndex, withStruct) <==>
            && e.signatureName == SelectName(withIndex, withStruct)
            && NamedParameterType(e, 0).Some?
            && |e.parameterTypes[0].args| > (if withIndex then 2 else 1)
    ensures IsSelect(CreateGeneration(e, id), withIndex, withStruct) ==>
            var op := CreateGeneration(e, id).instruction.op;
            op.id == id && op.selectorType == e.parameterTypes[0]
    ensures e.signatureName == SelectName(withIndex, withStruct) && NamedParameterType(e, 0).None? ==>
            CreateGeneration(e, id) == NotSupported
  {
  }

  /**
   * A `Where` stage is created exactly for the four `Where` names over a
   * named parameter type; its flags are the ones the name stands for and its
   * predicate type is parameter 0's type.
   */
  lemma WhereDispatch(e: LinqGenExpression, id: nat, withIndex: bool, withStruct: bool)
    ensures IsWhere(CreateGeneration(e, id), withIndex, withStruct) <==>
            e.signatureName == WhereName(withIndex, withStruct) && NamedParameterType(e, 0).Some?
    ensures IsWhere(CreateGeneration(e, id), withIndex, withStruct) ==>
            CreateGeneration(e, id).instruction == WhereOp(id, e.parameterTypes[0], withIndex, withStruct)
    ensures e.signatureName == WhereName(withIndex, withStruct) && NamedParameterType(e, 0).None? ==>
            CreateGeneration(e, id) == NotSupported
  {
  }

  /** `AsEnumerable`, `Cast` and `OfType` need no parameter: each name gives its stage, and only that name does. */
  lemma PassThroughDispatch(e: LinqGenExpression, id: nat)
    ensures CreateGeneration(e, id) == Generation(AsEnumerableOp(id)) <==> e.signatureName == "AsEnumerable"
    ensures CreateGeneration(e, id) == Generation(CastOp(id, false)) <==> e.signatureName == "Cast"
    ensures CreateGeneration(e, id) == Generation(CastOp(id, true)) <==> e.signatureName == "OfType"
  {
  }

  /** The evaluations the factory creates. */
  datatype EvaluationKind = First(orDefault: bool) | Last(orDefault: bool) | Sum | Count

  /** `CreateEvaluation`: the switch on the stub method's name; `Single` and unknown names give `null`. */
  function CreateEvaluation(e: LinqGenExpression): (r: Option<EvaluationKind>)
    ensures r.Some? <==> e.methodName in {"First", "FirstOrDefault", "Last", "LastOrDefault", "Sum", "Count"}
  {
    match e.methodName
    case "First" => Some(First(false))
    case "FirstOrDefault" => Some(First(true))
    case "Last" => Some(Last(false))
    case "LastOrDefault" => Some(Last(true))
    case "Single" => None
    case "Sum" => Some(Sum)
    case "Count" => Some(Count)
    case _ => None
  }

  /** The stub method name that asks for each evaluation. */
  function EvaluationName(k: EvaluationKind): string
  {
    match k
    case First(d) => if d then "FirstOrDefault" else "First"
    case Last(d) => if d then "LastOrDefault" else "Last"
    case Sum => "Sum"
    case Count => "Count"
  }

  /** The evaluation table is one-to-one: a name gives back exactly the evaluation it names. */
  lemma EvaluationRoundTrip(e: LinqGenExpression, k: EvaluationKind)
    ensures CreateEvaluation(e) == Some(k) <==> e.methodName == EvaluationName(k)
  {
  }
}
