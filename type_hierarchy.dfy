/**
 * Type symbols with their base-type chains, shared by the DataContract rule
 * and the raw-SQL rule. The chain is finite by construction: a base type is
 * a sub-value of the type that names it.
 */
module TypeHierarchy {
  import opened Wrappers
  import opened Diagnostics

  /**
   * A type symbol: its fully qualified display string (`ToString()`), the
   * classes of the attributes applied to it (None for an attribute whose class
   * does not resolve), its base type, the interfaces it lists directly, and
   * the locations of its declarations.
   */
  datatype TypeSymbol = TypeSymbol(
    displayName: string,
    attributeClasses: seq<Option<string>>,
    baseType: Option<TypeSymbol>,
    interfaces: seq<TypeSymbol>,
    locations: seq<Location>)

  /** Length of the base-type chain starting at `t`. */
  function Depth(t: TypeSymbol): nat {
    1 + match t.baseType
        case None => 0
        case Some(b) => Depth(b)
  }

  /** The type itself, then each successive base type until there is none. */
  function InclusiveHierarchy(t: TypeSymbol): (chain: seq<TypeSymbol>)
    ensures |chain| == Depth(t)
    ensures chain[0] == t
  {
    [t] + match t.baseType
          case None => []
          case Some(b) => InclusiveHierarchy(b)
  }

  /**
   * The chain is the base-type relation spelled out: each element's base type
   * is the next element, and the last element has no base type.
   */
  lemma {:induction false} HierarchyIsBaseChain(t: TypeSymbol)
    ensures var chain := InclusiveHierarchy(t);
            && (forall i :: 0 <= i < |chain| - 1 ==> chain[i].baseType == Some(chain[i + 1]))
            && chain[|chain| - 1].baseType.None?
  {
    match t.baseType
    case None =>
    case Some(b) =>
      HierarchyIsBaseChain(b);
      var chain := InclusiveHierarchy(t);
      assert chain == [t] + InclusiveHierarchy(b);
      forall i | 1 <= i < |chain| - 1
        ensures chain[i].baseType == Some(chain[i + 1])
      {
        assert chain[i] == InclusiveHierarchy(b)[i - 1];
      }
  }
}
