/**
 * The part of Roslyn's type symbols that the generator inspects: named types
 * built from a generic definition, type parameters and arrays. Symbols are
 * compared by value, standing for `SymbolEqualityComparer.Default`.
 */
module Types {
  /** A generic type definition (`ConstructedFrom`): its name and its type parameters. */
  datatype TypeDef = TypeDef(name: string, typeParams: seq<string>)

  datatype TypeSym =
    /** `INamedTypeSymbol`: the definition it is constructed from and its type arguments. */
    | Named(def: TypeDef, args: seq<TypeSym>)
    /** `ITypeParameterSymbol`. */
    | TypeParam(name: string)
    /** `IArrayTypeSymbol`. */
    | ArrayOf(elem: TypeSym, rank: nat)
    /** Any other symbol (pointer, dynamic, ...). */
    | Other(name: string)

  /** A named type has as many type arguments as its definition has parameters, all the way down. */
  predicate WellFormed(t: TypeSym)
  {
    match t
    case Named(def, args) =>
      |args| == |def.typeParams| && forall i :: 0 <= i < |args| ==> WellFormed(args[i])
    case TypeParam(_) => true
    case ArrayOf(e, _) => WellFormed(e)
    case Other(_) => true
  }
}
