/**
 * The case analyses of LinqGen.Generator/CodeGenUtils.cs that decide what the
 * generator emits: signature normalization (the key under which stages are
 * deduplicated), stub-interface parsing, generic-name construction and
 * integer literals.
 */
module CodeGenUtils {
  import opened Wrappers
  import opened Int32
  import opened Types
  import opened Syntax
  import Semantics

  /**
   * `NormalizeSignature`: a signature of arity 0 is returned as is; otherwise
   * it is rebuilt from the same definition with each type argument
   * normalized by `NormalizeArgument`.
   */
  function NormalizeSignature(t: TypeSym): (r: TypeSym)
    requires t.Named? && WellFormed(t)
    ensures r.Named? && r.def == t.def && |r.args| == |t.args| && WellFormed(r)
    ensures |t.args| == 0 ==> r == t
    ensures forall i :: 0 <= i < |t.args| && t.args[i].TypeParam? ==> r.args[i] == TypeParam(t.def.typeParams[i])
    ensures forall i :: 0 <= i < |t.args| && !t.args[i].Named? && !t.args[i].TypeParam? ==> r.args[i] == t.args[i]
    decreases t, 0
  {
    if |t.args| == 0 then t
    else
      Named(t.def, seq(|t.args|, i requires 0 <= i < |t.args| =>
                                  NormalizeArgument(t.def.typeParams[i], t.args[i])))
  }

  /**
   * One iteration of the loop of `NormalizeSignature`, for the argument whose
   * parameter in the generic definition is `param`: a type parameter becomes
   * that parameter, a named type is normalized recursively, and anything else
   * is kept. An array of a type parameter is replaced by its
   * `OriginalDefinition`, which for an array symbol is the array itself.
   */
  function NormalizeArgument(param: string, a: TypeSym): (r: TypeSym)
    requires WellFormed(a)
    ensures WellFormed(r)
    decreases a, 1
  {
    match a
    case TypeParam(_) => TypeParam(param)
    case ArrayOf(elem, _) => a
    case Named(_, _) => NormalizeSignature(a)
    case Other(_) => a
  }

  /** Normalizing twice is normalizing once. */
  lemma {:induction false} NormalizeIdempotent(t: TypeSym)
    requires t.Named? && WellFormed(t)
    ensures NormalizeSignature(NormalizeSignature(t)) == NormalizeSignature(t)
    decreases t, 0
  {
    var n := NormalizeSignature(t);
    if |t.args| > 0 {
      forall i | 0 <= i < |t.args|
        ensures NormalizeArgument(t.def.typeParams[i], n.args[i]) == n.args[i]
      {
        NormalizeArgumentIdempotent(t.def.typeParams[i], t.args[i]);
      }
      assert NormalizeSignature(n).args == n.args;
    }
  }

  lemma {:induction false} NormalizeArgumentIdempotent(param: string, a: TypeSym)
    requires WellFormed(a)
    ensures NormalizeArgument(param, NormalizeArgument(param, a)) == NormalizeArgument(param, a)
    decreases a, 1
  {
    match a
    case TypeParam(_) =>
    case ArrayOf(_, _) =>
    case Named(_, _) => NormalizeIdempotent(a);
    case Other(_) =>
  }

  /**
   * Two types that differ only in the names of type parameters standing
   * directly as (possibly nested) named-type arguments: the difference that
   * `NormalizeSignature` is there to erase.
   */
  predicate SameUpToTypeParams(a: TypeSym, b: TypeSym)
  {
    match a
    case TypeParam(_) => b.TypeParam?
    case Named(d, args) =>
      b.Named? && b.def == d && |b.args| == |args| &&
      forall i :: 0 <= i < |args| ==> SameUpToTypeParams(args[i], b.args[i])
    case ArrayOf(_, _) => a == b
    case Other(_) => a == b
  }

  /** Signatures that differ only in type-parameter names normalize to the same signature. */
  lemma {:induction false} NormalizeErasesTypeParamNames(a: TypeSym, b: TypeSym)
    requires a.Named? && WellFormed(a) && WellFormed(b) && SameUpToTypeParams(a, b)
    ensures NormalizeSignature(a) == NormalizeSignature(b)
    decreases a, 0
  {
    if |a.args| > 0 {
      forall i | 0 <= i < |a.args|
        ensures NormalizeArgument(a.def.typeParams[i], a.args[i]) == NormalizeArgument(a.def.typeParams[i], b.args[i])
      {
        NormalizeArgumentErases(a.def.typeParams[i], a.args[i], b.args[i]);
      }
    }
  }

  lemma {:induction false} NormalizeArgumentErases(param: string, a: TypeSym, b: TypeSym)
    requires WellFormed(a) && WellFormed(b) && SameUpToTypeParams(a, b)
    ensures NormalizeArgument(param, a) == NormalizeArgument(param, b)
    decreases a, 1
  {
    match a
    case TypeParam(_) =>
    case ArrayOf(_, _) =>
    case Named(_, _) => NormalizeErasesTypeParamNames(a, b);
    case Other(_) =>
  }

  /**
   * `TryParseStubInterface` on `IStub<IContent<T>, TSignature>`: fails unless
   * there are at least two type arguments, both named, and the content type
   * has a type argument; on success yields `T` and `TSignature`.
   */
  function TryParseStubInterface(symbol: TypeSym): (r: Option<(TypeSym, TypeSym)>)
    requires symbol.Named?
    ensures r.Some? ==> r.value.1.Named?
    ensures r.Some? ==>
      && |symbol.args| >= 2
      && symbol.args[0].Named? && |symbol.args[0].args| >= 1
      && r.value.0 == symbol.args[0].args[0] && r.value.1 == symbol.args[1]
  {
    if |symbol.args| < 2 || !symbol.args[0].Named? || !symbol.args[1].Named? || |symbol.args[0].args| < 1 then
      None
    else
      Some((symbol.args[0].args[0], symbol.args[1]))
  }

  /** Every stub interface `IStub<IContent<T>, TSignature>` parses back to `T` and `TSignature`. */
  lemma StubRoundTrip(stub: TypeDef, content: TypeDef, t: TypeSym, signature: TypeSym, rest: seq<TypeSym>)
    requires signature.Named?
    ensures TryParseStubInterface(Named(stub, [Named(content, [t])] + [signature] + rest)) == Some((t, signature))
  {
  }

  /** A stub interface is rejected when it is too short or one of its parts is not a named type. */
  lemma TryParseRejects(symbol: TypeSym)
    requires symbol.Named?
    requires || |symbol.args| < 2
             || !symbol.args[0].Named? || !symbol.args[1].Named?
             || |symbol.args[0].args| < 1
    ensures TryParseStubInterface(symbol) == None
  {
  }

  /** The `NameSyntax` shapes that `MakeGenericName` distinguishes. */
  datatype NameSyntax =
    | QualifiedName(left: NameSyntax, right: NameSyntax)
    | GenericName(identifier: string, typeArgs: seq<string>)
    | IdentifierName(identifier: string)
    | AliasQualifiedName(alias: string, name: NameSyntax)

  /** The identifier of a simple name; the right part of a qualified name is one. */
  function Identifier(n: NameSyntax): string
  {
    match n
    case GenericName(id, _) => id
    case IdentifierName(id) => id
    case QualifiedName(_, right) => Identifier(right)
    case AliasQualifiedName(_, name) => Identifier(name)
  }

  /**
   * `MakeGenericName`: a qualified name gets a generic right part, a generic
   * name gets the new argument list, a simple name becomes generic, and any
   * other name is returned unchanged.
   */
  function MakeGenericName(name: NameSyntax, args: seq<string>): (r: NameSyntax)
    ensures Identifier(r) == Identifier(name)
    ensures !name.AliasQualifiedName? ==> TypeArgsOf(r) == Some(args)
    ensures name.QualifiedName? ==> r.QualifiedName? && r.left == name.left
    ensures name.AliasQualifiedName? ==> r == name
  {
    match name
    case QualifiedName(left, right) => QualifiedName(left, GenericName(Identifier(right), args))
    case GenericName(id, _) => GenericName(id, args)
    case IdentifierName(id) => GenericName(id, args)
    case AliasQualifiedName(_, _) => name
  }

  /** The type-argument list of a name's rightmost part, when it is generic. */
  function TypeArgsOf(n: NameSyntax): Option<seq<string>>
  {
    match n
    case GenericName(_, args) => Some(args)
    case IdentifierName(_) => None
    case QualifiedName(_, right) => TypeArgsOf(right)
    case AliasQualifiedName(_, _) => None
  }

  /** Applying `MakeGenericName` again replaces the arguments given the first time. */
  lemma MakeGenericNameTwice(name: NameSyntax, a: seq<string>, b: seq<string>)
    ensures MakeGenericName(MakeGenericName(name, a), b) == MakeGenericName(name, b)
  {
  }

  /**
   * `LiteralExpression` as written: for a negative value it first builds the
   * literal of `-value` (unchecked, so `-int.MinValue` is `int.MinValue`
   * again), wraps it in a unary minus that is then discarded, and returns the
   * numeric literal of `value`. `fuel` bounds the recursion depth; `None`
   * means the call has not returned within it.
   */
  function LiteralAsWritten(value: int32, fuel: nat): (r: Option<Expr>)
    ensures r.Some? ==> r.value == IntLit(value as int) && !ExprHasPlaceholder(r.value)
    ensures 0 <= value && 0 < fuel ==> r.Some?
    decreases fuel
  {
    if fuel == 0 then None
    else if value < 0 then
      match LiteralAsWritten(Wrap(-(value as int)), fuel - 1)
      case None => None
      case Some(inner) => var _ := Negate(inner); Some(IntLit(value as int))
    else Some(IntLit(value as int))
  }

  /** As written, `LiteralExpression(int.MinValue)` never returns, whatever the stack depth. */
  lemma {:induction false} LiteralMinValueNeverReturns(fuel: nat)
    ensures LiteralAsWritten(MinInt32, fuel) == None
  {
    if fuel > 0 {
      assert Wrap(-(MinInt32 as int)) == MinInt32;
      LiteralMinValueNeverReturns(fuel - 1);
    }
  }

  /**
   * As written, every other value gets its literal after at most two calls,
   * the same literal as the corrected `LiteralExpression`.
   */
  lemma LiteralAsWrittenOtherwise(value: int32, fuel: nat)
    requires value != MinInt32 && fuel >= 2
    ensures LiteralAsWritten(value, fuel) == Some(LiteralExpression(value))
  {
    if value < 0 {
      assert Wrap(-(value as int)) == -(value as int);
    }
  }

  /** `LiteralExpression` corrected: the numeric literal of `value`, for every value. */
  function LiteralExpression(value: int32): (e: Expr)
    ensures !ExprHasPlaceholder(e)
  {
    IntLit(value as int)
  }

  /** The corrected literal evaluates to its value and has no side effect. */
  lemma LiteralMeansValue(value: int32, fs: Semantics.Funcs, env: Semantics.Env, cur: int)
    ensures Semantics.Eval(LiteralExpression(value), fs, env, cur) == (value as int, env)
  {
  }
}
