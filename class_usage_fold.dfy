/**
 * The classification of the nodes `AnalyzeModel` visits into references,
 * and the fold of those references over the tracked classes, as pure
 * functions: the specification the imperative `AnalyzeModel` of the
 * unused/single-usage class rule is proved against.
 */
module ClassUsageFold {
  import opened Wrappers
  import opened UsageStates
  import opened ClassRegistry
  import opened DiRegistration
  import opened Diagnostics

  /**
   * A visited syntax node, reduced to what the classifier reads: for an
   * invocation the bound method and argument list, for the declared-type
   * shapes the named type their type expression resolves to.
   */
  datatype Node =
    | InvocationNode(target: Option<MethodSymbol>, arguments: seq<Argument>)
    | TypeSyntaxNode(resolvedType: Option<ClassSymbol>)
    | ParameterNode(resolvedType: Option<ClassSymbol>)
    | PropertyNode(resolvedType: Option<ClassSymbol>)
    | FieldNode(resolvedType: Option<ClassSymbol>)
    | AttributeNode(resolvedType: Option<ClassSymbol>)
    | OtherNode

  /** A classified node: the symbol it refers to, if any, and whether it is a DI registration. */
  datatype Reference = Reference(symbol: Option<ClassSymbol>, isDiUsage: bool)

  /** The classifier switch: only an invocation can be a DI usage. */
  function Classify(node: Node): (reference: Reference)
    ensures reference.isDiUsage ==> node.InvocationNode? && reference.symbol.Some?
    ensures node.InvocationNode? ==> reference.symbol == RegisteredType(node.target, node.arguments)
    ensures node.InvocationNode? ==> (reference.isDiUsage <==> reference.symbol.Some?)
    ensures !node.InvocationNode? && !node.OtherNode? ==> reference == Reference(node.resolvedType, false)
    ensures node.OtherNode? ==> reference.symbol.None?
  {
    match node
    case InvocationNode(target, arguments) =>
      var registered := RegisteredType(target, arguments);
      if registered.Some? then Reference(registered, true) else Reference(None, false)
    case TypeSyntaxNode(t) => Reference(t, false)
    case ParameterNode(t) => Reference(t, false)
    case PropertyNode(t) => Reference(t, false)
    case FieldNode(t) => Reference(t, false)
    case AttributeNode(t) => Reference(t, false)
    case OtherNode => Reference(None, false)
  }

  /** Every node classified, in traversal order. */
  function Classified(nodes: seq<Node>): (references: seq<Reference>)
    ensures |references| == |nodes|
    ensures forall i :: 0 <= i < |nodes| ==> references[i] == Classify(nodes[i])
  {
    if nodes == [] then [] else [Classify(nodes[0])] + Classified(nodes[1..])
  }

  /** Usage state of every class still tracked. */
  type States = map<ClassSymbol, UsageState>

  /** All tracked classes start out Unused. */
  function InitialStates(registry: map<ClassSymbol, Location>): States {
    map symbol | symbol in registry :: Unused
  }

  /**
   * One iteration of the fold loop: a reference to a tracked class advances
   * its state and removes the entry once it reaches MultipleUsages.
   */
  function Track(states: States, reference: Reference): (next: States)
    ensures next.Keys <= states.Keys
    ensures forall symbol :: symbol in next && symbol in states && states[symbol] == MultipleUsages ==>
              next[symbol] == MultipleUsages
    ensures forall symbol :: symbol in states && symbol !in next ==>
              reference.symbol == Some(symbol) && Next(states[symbol], reference.isDiUsage) == MultipleUsages
  {
    if reference.symbol.None? || reference.symbol.value !in states then states
    else
      var symbol := reference.symbol.value;
      var next := Next(states[symbol], reference.isDiUsage);
      if next == MultipleUsages then states - {symbol} else states[symbol := next]
  }

  /** The whole fold loop over the references, in order. */
  function FoldRefs(states: States, references: seq<Reference>): (final: States)
    ensures final.Keys <= states.Keys
    ensures forall symbol :: symbol in final ==> Rank(states[symbol]) <= Rank(final[symbol])
    decreases |references|
  {
    if references == [] then states else FoldRefs(Track(states, references[0]), references[1..])
  }

  /** No entry of the map is in MultipleUsages. */
  predicate NoMultipleUsages(states: States) {
    forall symbol :: symbol in states ==> states[symbol] != MultipleUsages
  }

  /** The `isDiUsage` flags of the references to `symbol`, in order. */
  function FlagsFor(references: seq<Reference>, symbol: ClassSymbol): seq<bool> {
    if references == [] then []
    else (if references[0].symbol == Some(symbol) then [references[0].isDiUsage] else [])
         + FlagsFor(references[1..], symbol)
  }

  /** The state of one class as seen by the fold: a removed entry counts as MultipleUsages. */
  function View(states: States, symbol: ClassSymbol): UsageState {
    if symbol in states then states[symbol] else MultipleUsages
  }

  /** A null reference, or one to an untracked or already-removed class, changes nothing. */
  lemma TrackIgnoresUntracked(states: States, reference: Reference)
    requires reference.symbol.None? || reference.symbol.value !in states
    ensures Track(states, reference) == states
  {
  }

  /** A reference touches only the entry of its own class. */
  lemma TrackTouchesOnlyItsOwnEntry(states: States, reference: Reference, other: ClassSymbol)
    requires reference.symbol != Some(other)
    ensures other in Track(states, reference) <==> other in states
    ensures other in states ==> Track(states, reference)[other] == states[other]
  {
  }

  /** One step of the fold, seen from one class. */
  lemma TrackView(states: States, reference: Reference, symbol: ClassSymbol)
    ensures View(Track(states, reference), symbol)
         == if reference.symbol == Some(symbol) then Next(View(states, symbol), reference.isDiUsage)
            else View(states, symbol)
  {
  }

  /** The fold never adds an entry and never leaves one in MultipleUsages. */
  lemma {:induction false} FoldRefsShrinks(states: States, references: seq<Reference>)
    requires NoMultipleUsages(states)
    ensures FoldRefs(states, references).Keys <= states.Keys
    ensures NoMultipleUsages(FoldRefs(states, references))
    decreases |references|
  {
    if references != [] {
      FoldRefsShrinks(Track(states, references[0]), references[1..]);
    }
  }

  /** Once nothing is tracked, the rest of the traversal changes nothing (the early `break`). */
  lemma {:induction false} FoldRefsOfEmpty(references: seq<Reference>)
    ensures FoldRefs(map[], references) == map[]
    decreases |references|
  {
    if references != [] {
      assert Track(map[], references[0]) == map[];
      FoldRefsOfEmpty(references[1..]);
    }
  }

  /** Locality: the fold, seen from one class, is the state machine run on that class's references only. */
  lemma {:induction false} FoldRefsView(states: States, references: seq<Reference>, symbol: ClassSymbol)
    ensures View(FoldRefs(states, references), symbol) == Replay(View(states, symbol), FlagsFor(references, symbol))
    decreases |references|
  {
    if references != [] {
      var r := references[0];
      TrackView(states, r, symbol);
      FoldRefsView(Track(states, r), references[1..], symbol);
      if r.symbol == Some(symbol) {
        assert FlagsFor(references, symbol) == [r.isDiUsage] + FlagsFor(references[1..], symbol);
        assert ([r.isDiUsage] + FlagsFor(references[1..], symbol))[1..] == FlagsFor(references[1..], symbol);
      } else {
        assert FlagsFor(references, symbol) == FlagsFor(references[1..], symbol);
      }
    }
  }

  /**
   * The verdict for a registry: a class survives the fold iff it is tracked
   * and got no non-DI reference, or one non-DI and no DI reference; a
   * survivor's state is the one its reference counts determine.
   */
  lemma SurvivorsOfFold(registry: map<ClassSymbol, Location>, references: seq<Reference>, symbol: ClassSymbol)
    ensures var final := FoldRefs(InitialStates(registry), references);
            var flags := FlagsFor(references, symbol);
            && (symbol in final
                <==> symbol in registry
                     && (NonDiCount(flags) == 0 || (NonDiCount(flags) == 1 && DiCount(flags) == 0)))
            && (symbol in final ==> final[symbol] == StateFromCounts(NonDiCount(flags), DiCount(flags)))
  {
    var initial := InitialStates(registry);
    var flags := FlagsFor(references, symbol);
    FoldRefsShrinks(initial, references);
    FoldRefsView(initial, references, symbol);
    ReportableIffCounts(flags);
    ReplayFromUnused(flags);
    if symbol !in registry {
      ReplayFromMultipleUsages(flags);
    }
  }

  /** Reordering the references to a class does not change whether it survives. */
  lemma SurvivalIsOrderIndependent(
    registry: map<ClassSymbol, Location>,
    references: seq<Reference>, reordered: seq<Reference>, symbol: ClassSymbol)
    requires multiset(FlagsFor(references, symbol)) == multiset(FlagsFor(reordered, symbol))
    ensures symbol in FoldRefs(InitialStates(registry), references)
        <==> symbol in FoldRefs(InitialStates(registry), reordered)
  {
    SurvivorsOfFold(registry, references, symbol);
    SurvivorsOfFold(registry, reordered, symbol);
    CountsAreMultiplicities(FlagsFor(references, symbol));
    CountsAreMultiplicities(FlagsFor(reordered, symbol));
  }
}
