/**
 * The unused/single-usage class rule (id MB1050) in its imperative form: the
 * `ClassInfo` objects with their mutable usage state, the dictionary of
 * tracked classes that the traversal updates and prunes, and the report pass.
 */
module ClassUsageRule {
  import opened Wrappers
  import opened Diagnostics
  import opened UsageStates
  import opened ClassRegistry
  import opened ClassUsageFold

  const UnusedRuleId := "MB1050"

  /** The per-class record of the tracked-classes dictionary. */
  class ClassInfo {
    var usageState: UsageState
    const declarationLocation: Location

    constructor (declarationLocation: Location)
      ensures usageState == Unused
      ensures this.declarationLocation == declarationLocation
    {
      this.declarationLocation := declarationLocation;
      usageState := Unused;
    }

    /** Records one reference; returns false once the class has multiple usages. */
    method TrackUsage(isDiUsage: bool) returns (keep: bool)
      modifies this`usageState
      ensures usageState == Next(old(usageState), isDiUsage)
      ensures keep <==> usageState != MultipleUsages
    {
      match usageState
      case Unused =>
        usageState := if isDiUsage then OnlyDiUsage else SingleNonDiUsage;
        return true;
      case OnlyDiUsage =>
        if !isDiUsage {
          usageState := MultipleUsages;
          return false;
        }
        return true;
      case SingleNonDiUsage =>
        usageState := MultipleUsages;
        return false;
      case MultipleUsages =>
        return false;
    }
  }

  /** The dictionary of tracked classes, keyed by symbol. */
  type Tracked = map<ClassSymbol, ClassInfo>

  /** Different symbols own different `ClassInfo` objects. */
  predicate DistinctInfos(tracked: Tracked) {
    forall a, b :: a in tracked && b in tracked && a != b ==> tracked[a] != tracked[b]
  }

  /** `part` keeps some of the entries of `whole`, with the same objects. */
  predicate SubDictionary(part: Tracked, whole: Tracked) {
    forall symbol :: symbol in part ==> symbol in whole && part[symbol] == whole[symbol]
  }

  /** The usage states currently held by the dictionary's objects. */
  ghost function StatesOf(tracked: Tracked): States
    reads tracked.Values
  {
    map symbol | symbol in tracked :: tracked[symbol].usageState
  }

  /** The declaration locations held by the dictionary's objects. */
  function LocationsOf(tracked: Tracked): map<ClassSymbol, Location> {
    map symbol | symbol in tracked :: tracked[symbol].declarationLocation
  }

  /** The diagnostic for one surviving class: at its declaration, with its name as the argument. */
  function DiagnosticFor(symbol: ClassSymbol, location: Location): Diagnostic {
    Diagnostic(UnusedRuleId, location, [symbol.name])
  }

  /**
   * Two diagnostics coincide iff the classes share a name and a location:
   * the diagnostic cannot tell apart two classes of one name declared at
   * one location.
   */
  lemma DiagnosticForIsInjective(first: ClassSymbol, firstAt: Location, second: ClassSymbol, secondAt: Location)
    ensures DiagnosticFor(first, firstAt) == DiagnosticFor(second, secondAt)
        <==> first.name == second.name && firstAt == secondAt
  {
    if DiagnosticFor(first, firstAt) == DiagnosticFor(second, secondAt) {
      assert DiagnosticFor(first, firstAt).messageArguments[0] == first.name;
    }
  }

  /** `problems` holds one diagnostic per class in `final`, and nothing else. */
  predicate ReportsExactly(problems: seq<Diagnostic>, final: States, locations: map<ClassSymbol, Location>)
    requires final.Keys <= locations.Keys
  {
    && |problems| == |final|
    && (forall symbol :: symbol in final ==> DiagnosticFor(symbol, locations[symbol]) in problems)
    && (forall d :: d in problems ==> exists symbol :: symbol in final && d == DiagnosticFor(symbol, locations[symbol]))
  }

  /** The classes that survive the traversal of `nodes` after registering `declarations`. */
  function FinalStates(declarations: seq<ClassDeclaration>, nodes: seq<Node>): States {
    FoldRefs(InitialStates(Registry(declarations)), Classified(nodes))
  }

  /** The registration loop: a fresh `ClassInfo` per accepted declaration, the last one winning. */
  method Register(declarations: seq<ClassDeclaration>) returns (tracked: Tracked)
    ensures DistinctInfos(tracked)
    ensures LocationsOf(tracked) == Registry(declarations)
    ensures forall symbol :: symbol in tracked ==> fresh(tracked[symbol]) && tracked[symbol].usageState == Unused
  {
    tracked := map[];
    for i := 0 to |declarations|
      invariant DistinctInfos(tracked)
      invariant LocationsOf(tracked) == Registry(declarations[..i])
      invariant forall symbol :: symbol in tracked ==> fresh(tracked[symbol]) && tracked[symbol].usageState == Unused
    {
      assert declarations[..i + 1][..i] == declarations[..i];
      var declaration := declarations[i];
      if declaration.declaredSymbol.Some? && IsTrackable(declaration.declaredSymbol.value) {
        var info := new ClassInfo(declaration.location);
        tracked := tracked[declaration.declaredSymbol.value := info];
      }
    }
    assert declarations[..|declarations|] == declarations;
  }

  /** The fold loop's rewriting of the remaining references, one node at a time. */
  lemma FoldRefsStep(states: States, nodes: seq<Node>, i: nat)
    requires i < |nodes|
    ensures FoldRefs(states, Classified(nodes[i..]))
         == FoldRefs(Track(states, Classify(nodes[i])), Classified(nodes[i + 1..]))
  {
    assert nodes[i..][1..] == nodes[i + 1..];
  }

  /** A sub-dictionary of a dictionary with distinct objects has distinct objects. */
  lemma SubDictionaryIsDistinct(part: Tracked, whole: Tracked)
    requires SubDictionary(part, whole) && DistinctInfos(whole)
    ensures DistinctInfos(part)
    ensures part.Values <= whole.Values
  {
    forall o | o in part.Values
      ensures o in whole.Values
    {
      var symbol :| symbol in part && part[symbol] == o;
      assert whole[symbol] == o;
    }
  }

  /**
   * One iteration of the traversal loop on an already classified node: a
   * reference to a tracked class calls `TrackUsage` and removes the entry
   * when it returns false.
   */
  method TrackReference(remaining: Tracked, reference: Reference) returns (updated: Tracked)
    requires DistinctInfos(remaining)
    modifies remaining.Values
    ensures SubDictionary(updated, remaining)
    ensures StatesOf(updated) == Track(old(StatesOf(remaining)), reference)
  {
    ghost var before := StatesOf(remaining);
    updated := remaining;
    if reference.symbol.Some? && reference.symbol.value in remaining {
      var symbol := reference.symbol.value;
      var info := remaining[symbol];
      var keep := info.TrackUsage(reference.isDiUsage);
      assert StatesOf(remaining) == before[symbol := Next(before[symbol], reference.isDiUsage)] by {
        forall other | other in remaining && other != symbol
          ensures remaining[other] != info
        {
        }
      }
      if !keep {
        updated := remaining - {symbol};
        assert StatesOf(updated) == before - {symbol};
      }
    }
  }

  /**
   * The traversal loop: every node is classified and tracked, and the loop
   * stops early once no class is tracked any more.
   */
  method TrackReferences(tracked: Tracked, nodes: seq<Node>) returns (remaining: Tracked)
    requires DistinctInfos(tracked)
    modifies tracked.Values
    ensures SubDictionary(remaining, tracked)
    ensures StatesOf(remaining) == FoldRefs(old(StatesOf(tracked)), Classified(nodes))
  {
    ghost var initial := StatesOf(tracked);
    remaining := tracked;
    var i := 0;
    while i < |nodes|
      invariant 0 <= i <= |nodes|
      invariant SubDictionary(remaining, tracked)
      invariant FoldRefs(StatesOf(remaining), Classified(nodes[i..])) == FoldRefs(initial, Classified(nodes))
    {
      if |remaining| == 0 {
        assert StatesOf(remaining) == map[];
        FoldRefsOfEmpty(Classified(nodes[i..]));
        break;
      }
      FoldRefsStep(StatesOf(remaining), nodes, i);
      SubDictionaryIsDistinct(remaining, tracked);
      var reference := Classify(nodes[i]);
      remaining := TrackReference(remaining, reference);
      i := i + 1;
    }
    if i == |nodes| {
      assert nodes[i..] == [];
    }
  }

  /**
   * What the report loop has emitted after visiting the classes of `order`,
   * in that order: a diagnostic for each visited class in a reportable state.
   */
  function ReportOf(order: seq<ClassSymbol>, states: States, locations: map<ClassSymbol, Location>): (ds: seq<Diagnostic>)
    ensures |ds| <= |order|
  {
    if order == [] then []
    else
      var last := order[|order| - 1];
      ReportOf(order[..|order| - 1], states, locations)
        + (if last in states && last in locations && Reportable(states[last])
           then [DiagnosticFor(last, locations[last])] else [])
  }

  /** A diagnostic is emitted iff it belongs to a visited class in a reportable state. */
  lemma {:induction false} ReportOfMembership(order: seq<ClassSymbol>, states: States,
                                              locations: map<ClassSymbol, Location>, d: Diagnostic)
    ensures d in ReportOf(order, states, locations)
        <==> exists i :: 0 <= i < |order| && order[i] in states && order[i] in locations
                         && Reportable(states[order[i]]) && d == DiagnosticFor(order[i], locations[order[i]])
    decreases |order|
  {
    if order != [] {
      var front := order[..|order| - 1];
      ReportOfMembership(front, states, locations, d);
      if exists i :: 0 <= i < |front| && front[i] in states && front[i] in locations
                     && Reportable(states[front[i]]) && d == DiagnosticFor(front[i], locations[front[i]]) {
        var i :| 0 <= i < |front| && front[i] in states && front[i] in locations
                 && Reportable(states[front[i]]) && d == DiagnosticFor(front[i], locations[front[i]]);
        assert order[i] == front[i];
      }
      if exists i :: 0 <= i < |order| && order[i] in states && order[i] in locations
                     && Reportable(states[order[i]]) && d == DiagnosticFor(order[i], locations[order[i]]) {
        var i :| 0 <= i < |order| && order[i] in states && order[i] in locations
                 && Reportable(states[order[i]]) && d == DiagnosticFor(order[i], locations[order[i]]);
        if i < |front| {
          assert front[i] == order[i];
        }
      }
    }
  }

  /** When every visited class is reportable, every visit emits one diagnostic. */
  lemma {:induction false} ReportOfAllReportable(order: seq<ClassSymbol>, states: States,
                                                 locations: map<ClassSymbol, Location>)
    requires forall symbol :: symbol in order ==> symbol in states && symbol in locations
    requires NoMultipleUsages(states)
    ensures |ReportOf(order, states, locations)| == |order|
    decreases |order|
  {
    if order != [] {
      var front := order[..|order| - 1];
      assert forall symbol :: symbol in front ==> symbol in order;
      ReportOfAllReportable(front, states, locations);
      assert order[|order| - 1] in order;
    }
  }

  /** `order` lists every key of `states` exactly once. */
  ghost predicate Enumerates(order: seq<ClassSymbol>, states: States) {
    && |order| == |states|
    && (forall symbol :: symbol in order <==> symbol in states)
    && (forall i, j :: 0 <= i < j < |order| ==> order[i] != order[j])
  }

  /** When every visited class is reportable, the `i`-th diagnostic is the one of the `i`-th class. */
  lemma {:induction false} ReportOfIndexed(order: seq<ClassSymbol>, states: States,
                                           locations: map<ClassSymbol, Location>, i: int)
    requires forall symbol :: symbol in order ==> symbol in states && symbol in locations
    requires NoMultipleUsages(states)
    requires 0 <= i < |order|
    ensures |ReportOf(order, states, locations)| == |order|
    ensures ReportOf(order, states, locations)[i] == DiagnosticFor(order[i], locations[order[i]])
    decreases |order|
  {
    var front := order[..|order| - 1];
    assert forall symbol :: symbol in front ==> symbol in order;
    ReportOfAllReportable(front, states, locations);
    assert order[|order| - 1] in order;
    if i < |front| {
      ReportOfIndexed(front, states, locations, i);
      assert front[i] == order[i];
    }
  }

  /** The report only reads the locations of the classes it visits. */
  lemma {:induction false} ReportOfReadsVisitedLocations(order: seq<ClassSymbol>, states: States,
                                                         locations: map<ClassSymbol, Location>,
                                                         others: map<ClassSymbol, Location>)
    requires forall symbol :: symbol in order ==> symbol in locations && symbol in others
                                                  && locations[symbol] == others[symbol]
    ensures ReportOf(order, states, locations) == ReportOf(order, states, others)
    decreases |order|
  {
    if order != [] {
      var front := order[..|order| - 1];
      assert forall symbol :: symbol in front ==> symbol in order;
      ReportOfReadsVisitedLocations(front, states, locations, others);
      assert order[|order| - 1] in order;
    }
  }

  /** Visiting every class once reports each reportable class, and nothing else. */
  lemma ReportOfEnumeration(order: seq<ClassSymbol>, states: States, locations: map<ClassSymbol, Location>)
    requires Enumerates(order, states) && states.Keys <= locations.Keys
    ensures forall symbol :: symbol in states && Reportable(states[symbol]) ==>
              DiagnosticFor(symbol, locations[symbol]) in ReportOf(order, states, locations)
    ensures forall d :: d in ReportOf(order, states, locations) ==>
              exists symbol :: symbol in states && Reportable(states[symbol])
                               && d == DiagnosticFor(symbol, locations[symbol])
    ensures NoMultipleUsages(states) ==> |ReportOf(order, states, locations)| == |states|
  {
    forall d | d in ReportOf(order, states, locations)
      ensures exists symbol :: symbol in states && Reportable(states[symbol])
                               && d == DiagnosticFor(symbol, locations[symbol])
    {
      ReportOfMembership(order, states, locations, d);
    }
    forall symbol | symbol in states && Reportable(states[symbol])
      ensures DiagnosticFor(symbol, locations[symbol]) in ReportOf(order, states, locations)
    {
      var i :| 0 <= i < |order| && order[i] == symbol;
      ReportOfMembership(order, states, locations, DiagnosticFor(symbol, locations[symbol]));
    }
    if NoMultipleUsages(states) {
      ReportOfAllReportable(order, states, locations);
    }
  }

  /**
   * The report loop: one diagnostic per entry in a reportable state, in an
   * unspecified order (dictionary order in the source).
   */
  method Report(remaining: Tracked) returns (problems: seq<Diagnostic>, ghost order: seq<ClassSymbol>)
    ensures Enumerates(order, StatesOf(remaining))
    ensures problems == ReportOf(order, StatesOf(remaining), LocationsOf(remaining))
    ensures forall symbol :: symbol in remaining && Reportable(StatesOf(remaining)[symbol]) ==>
              DiagnosticFor(symbol, LocationsOf(remaining)[symbol]) in problems
    ensures forall d :: d in problems ==>
              exists symbol :: symbol in remaining && Reportable(StatesOf(remaining)[symbol])
                               && d == DiagnosticFor(symbol, LocationsOf(remaining)[symbol])
    ensures |problems| <= |remaining|
    ensures NoMultipleUsages(StatesOf(remaining)) ==> |problems| == |remaining|
  {
    ghost var states := StatesOf(remaining);
    ghost var locations := LocationsOf(remaining);
    problems := [];
    var pending := remaining.Keys;
    order := [];
    while pending != {}
      invariant pending <= remaining.Keys
      invariant forall symbol :: symbol in order <==> symbol in remaining && symbol !in pending
      invariant forall i, j :: 0 <= i < j < |order| ==> order[i] != order[j]
      invariant |order| + |pending| == |remaining|
      invariant problems == ReportOf(order, states, locations)
      decreases pending
    {
      var symbol :| symbol in pending;
      var info := remaining[symbol];
      assert info.usageState == states[symbol] && info.declarationLocation == locations[symbol];
      match info.usageState {
        case SingleNonDiUsage | OnlyDiUsage | Unused =>
          problems := problems + [DiagnosticFor(symbol, info.declarationLocation)];
        case MultipleUsages =>
      }
      assert (order + [symbol])[..|order|] == order;
      assert symbol in states && symbol in locations;
      assert problems == ReportOf(order + [symbol], states, locations);
      pending := pending - {symbol};
      order := order + [symbol];
    }
    assert states.Keys == remaining.Keys && locations.Keys == remaining.Keys;
    assert |states| == |remaining|;
    ReportOfEnumeration(order, states, locations);
  }

  /** Right after registration the dictionary holds the registry, every class Unused. */
  lemma RegisteredStates(tracked: Tracked, declarations: seq<ClassDeclaration>)
    requires LocationsOf(tracked) == Registry(declarations)
    requires forall symbol :: symbol in tracked ==> tracked[symbol].usageState == Unused
    ensures tracked.Keys == Registry(declarations).Keys
    ensures StatesOf(tracked) == InitialStates(Registry(declarations))
  {
    assert LocationsOf(tracked).Keys == tracked.Keys;
  }

  /** What the report loop prints for the fold's survivors is exactly the rule's verdict. */
  lemma ReportIsExact(problems: seq<Diagnostic>, remaining: Tracked, tracked: Tracked,
                      final: States, registry: map<ClassSymbol, Location>)
    requires SubDictionary(remaining, tracked) && LocationsOf(tracked) == registry
    requires StatesOf(remaining) == final && NoMultipleUsages(final)
    requires forall symbol :: symbol in remaining && Reportable(StatesOf(remaining)[symbol]) ==>
               DiagnosticFor(symbol, LocationsOf(remaining)[symbol]) in problems
    requires forall d :: d in problems ==>
               exists symbol :: symbol in remaining && Reportable(StatesOf(remaining)[symbol])
                                && d == DiagnosticFor(symbol, LocationsOf(remaining)[symbol])
    requires NoMultipleUsages(StatesOf(remaining)) ==> |problems| == |remaining|
    ensures final.Keys <= registry.Keys
    ensures ReportsExactly(problems, final, registry)
  {
    assert remaining.Keys == final.Keys;
    forall symbol | symbol in remaining
      ensures LocationsOf(remaining)[symbol] == registry[symbol]
    {
      assert LocationsOf(tracked)[symbol] == tracked[symbol].declarationLocation;
    }
  }

  /** The report loop's list, read against the registry: the i-th diagnostic belongs to the i-th visited class. */
  lemma ReportIsIndexed(problems: seq<Diagnostic>, order: seq<ClassSymbol>, remaining: Tracked, tracked: Tracked,
                        final: States, registry: map<ClassSymbol, Location>)
    requires SubDictionary(remaining, tracked) && LocationsOf(tracked) == registry
    requires StatesOf(remaining) == final && NoMultipleUsages(final) && Enumerates(order, final)
    requires problems == ReportOf(order, final, LocationsOf(remaining)) && final.Keys <= registry.Keys
    ensures problems == ReportOf(order, final, registry)
    ensures |problems| == |order|
    ensures forall i :: 0 <= i < |order| ==> problems[i] == DiagnosticFor(order[i], registry[order[i]])
  {
    forall symbol | symbol in order
      ensures symbol in LocationsOf(remaining) && symbol in registry
              && LocationsOf(remaining)[symbol] == registry[symbol]
    {
      assert LocationsOf(tracked)[symbol] == tracked[symbol].declarationLocation;
    }
    ReportOfReadsVisitedLocations(order, final, LocationsOf(remaining), registry);
    ReportOfAllReportable(order, final, registry);
    forall i | 0 <= i < |order|
      ensures problems[i] == DiagnosticFor(order[i], registry[order[i]])
    {
      ReportOfIndexed(order, final, registry, i);
    }
  }

  /**
   * `AnalyzeModel`: register, fold, report. Exactly one diagnostic per class
   * that survives the fold, at its (last) declaration location; none at all
   * when nothing is registered.
   */
  method AnalyzeModel(declarations: seq<ClassDeclaration>, nodes: seq<Node>)
    returns (problems: seq<Diagnostic>, ghost order: seq<ClassSymbol>)
    ensures FinalStates(declarations, nodes).Keys <= Registry(declarations).Keys
    ensures ReportsExactly(problems, FinalStates(declarations, nodes), Registry(declarations))
    ensures Enumerates(order, FinalStates(declarations, nodes))
    ensures problems == ReportOf(order, FinalStates(declarations, nodes), Registry(declarations))
    ensures |problems| == |order|
    ensures forall i :: 0 <= i < |order| ==> problems[i] == DiagnosticFor(order[i], Registry(declarations)[order[i]])
    ensures |Registry(declarations)| == 0 ==> problems == []
  {
    ghost var registry := Registry(declarations);
    ghost var final := FinalStates(declarations, nodes);
    FoldRefsShrinks(InitialStates(registry), Classified(nodes));
    var tracked := Register(declarations);
    RegisteredStates(tracked, declarations);
    if |tracked| == 0 {
      assert InitialStates(registry) == map[];
      FoldRefsOfEmpty(Classified(nodes));
      return [], [];
    }
    var remaining := TrackReferences(tracked, nodes);
    problems, order := Report(remaining);
    ReportIsExact(problems, remaining, tracked, final, registry);
    ReportIsIndexed(problems, order, remaining, tracked, final, registry);
  }

  /**
   * A class gets a diagnostic iff some declaration declares it, it passes the
   * registration filter, and its references number no non-DI one, or one
   * non-DI and no DI one.
   */
  lemma ClassIsReportedIff(declarations: seq<ClassDeclaration>, nodes: seq<Node>, symbol: ClassSymbol)
    ensures var flags := FlagsFor(Classified(nodes), symbol);
            symbol in FinalStates(declarations, nodes)
            <==> && IsTrackable(symbol)
                 && (exists i :: 0 <= i < |declarations| && declarations[i].declaredSymbol == Some(symbol))
                 && (NonDiCount(flags) == 0 || (NonDiCount(flags) == 1 && DiCount(flags) == 0))
  {
    SurvivorsOfFold(Registry(declarations), Classified(nodes), symbol);
    RegistryMembership(declarations, symbol);
  }

  /** Two runs over the same unit report the same set of diagnostics, whatever the dictionary order. */
  lemma ReportIsDeterministicAsASet(first: seq<Diagnostic>, second: seq<Diagnostic>,
                                    final: States, locations: map<ClassSymbol, Location>)
    requires final.Keys <= locations.Keys
    requires ReportsExactly(first, final, locations) && ReportsExactly(second, final, locations)
    ensures forall d :: d in first <==> d in second
    ensures |first| == |second|
  {
  }
}
