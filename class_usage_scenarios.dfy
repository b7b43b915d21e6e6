/**
 * End-to-end behaviour of the unused/single-usage class rule on small units:
 * one tracked class and the references the traversal meets.
 */
module ClassUsageScenarios {
  import opened Wrappers
  import opened Diagnostics
  import opened UsageStates
  import opened ClassRegistry
  import opened DiRegistration
  import opened ClassUsageFold
  import opened ClassUsageRule

  /** No reference to `symbol`: no flags. */
  lemma {:induction false} FlagsForUnmentioned(references: seq<Reference>, symbol: ClassSymbol)
    requires forall i :: 0 <= i < |references| ==> references[i].symbol != Some(symbol)
    ensures FlagsFor(references, symbol) == []
    decreases |references|
  {
    if references != [] {
      assert forall i :: 0 <= i < |references[1..]| ==> references[1..][i] == references[i + 1];
      FlagsForUnmentioned(references[1..], symbol);
    }
  }

  /** The flags of a sequence with a known first reference. */
  lemma FlagsForCons(first: Reference, rest: seq<Reference>, symbol: ClassSymbol)
    ensures FlagsFor([first] + rest, symbol)
         == (if first.symbol == Some(symbol) then [first.isDiUsage] else []) + FlagsFor(rest, symbol)
  {
    assert ([first] + rest)[1..] == rest;
  }

  /** A single declaration of a trackable class registers it. */
  lemma SingleDeclarationIsRegistered(symbol: ClassSymbol, at: Location)
    requires IsTrackable(symbol)
    ensures symbol in Registry([ClassDeclaration(Some(symbol), at)])
  {
    RegistryMembership([ClassDeclaration(Some(symbol), at)], symbol);
    assert [ClassDeclaration(Some(symbol), at)][0].declaredSymbol == Some(symbol);
  }

  /** A class that no node refers to stays Unused and is reported. */
  lemma NeverMentionedIsReported(symbol: ClassSymbol, at: Location, nodes: seq<Node>)
    requires IsTrackable(symbol)
    requires forall i :: 0 <= i < |nodes| ==> Classify(nodes[i]).symbol != Some(symbol)
    ensures symbol in FinalStates([ClassDeclaration(Some(symbol), at)], nodes)
    ensures FinalStates([ClassDeclaration(Some(symbol), at)], nodes)[symbol] == Unused
  {
    var declarations := [ClassDeclaration(Some(symbol), at)];
    FlagsForUnmentioned(Classified(nodes), symbol);
    SingleDeclarationIsRegistered(symbol, at);
    SurvivorsOfFold(Registry(declarations), Classified(nodes), symbol);
  }

  /**
   * A class whose only reference is one recognised registration call is
   * reported as OnlyDiUsage. The call names the class only through an
   * inferred type argument, so no type-syntax node of the class is visited.
   * With an explicit type argument the traversal also visits that argument
   * as a type-syntax node (`RegisteredThenUsedIsAccepted`).
   */
  lemma OnlyRegisteredIsReported(symbol: ClassSymbol, at: Location, registration: MethodSymbol, arguments: seq<Argument>)
    requires IsTrackable(symbol)
    requires IsServiceCollectionExtensionMethod(registration) && IsDiRegistrationMethodName(registration.name)
    requires registration.typeArguments == [Some(symbol)] && |arguments| > 0
    ensures var declarations := [ClassDeclaration(Some(symbol), at)];
            var nodes := [InvocationNode(Some(registration), arguments)];
            && symbol in FinalStates(declarations, nodes)
            && FinalStates(declarations, nodes)[symbol] == OnlyDiUsage
  {
    var declarations := [ClassDeclaration(Some(symbol), at)];
    var nodes := [InvocationNode(Some(registration), arguments)];
    assert Classify(nodes[0]) == Reference(Some(symbol), true);
    assert FlagsFor(Classified(nodes), symbol) == [true] by {
      assert Classified(nodes) == [Reference(Some(symbol), true)];
      assert Classified(nodes)[1..] == [];
    }
    SingleDeclarationIsRegistered(symbol, at);
    SurvivorsOfFold(Registry(declarations), Classified(nodes), symbol);
  }

  /**
   * `AddScoped<IBar, Bar>()` with an empty argument list is not a DI usage:
   * the class is seen only through the type-syntax node of its type argument
   * and is reported as SingleNonDiUsage.
   */
  lemma GenericRegistrationWithoutArgumentsCountsAsTypeReference(
    symbol: ClassSymbol, service: ClassSymbol, at: Location, registration: MethodSymbol)
    requires IsTrackable(symbol) && service != symbol
    requires registration.typeArguments == [Some(service), Some(symbol)]
    ensures var declarations := [ClassDeclaration(Some(symbol), at)];
            var nodes := [InvocationNode(Some(registration), []), TypeSyntaxNode(Some(service)), TypeSyntaxNode(Some(symbol))];
            && symbol in FinalStates(declarations, nodes)
            && FinalStates(declarations, nodes)[symbol] == SingleNonDiUsage
  {
    var declarations := [ClassDeclaration(Some(symbol), at)];
    var nodes := [InvocationNode(Some(registration), []), TypeSyntaxNode(Some(service)), TypeSyntaxNode(Some(symbol))];
    var references := Classified(nodes);
    assert references[0] == Reference(None, false);
    assert references[1] == Reference(Some(service), false);
    assert references[2] == Reference(Some(symbol), false);
    assert FlagsFor(references, symbol) == [false] by {
      assert references == [references[0]] + ([references[1]] + ([references[2]] + []));
      FlagsForCons(references[2], [], symbol);
      FlagsForCons(references[1], [references[2]] + [], symbol);
      FlagsForCons(references[0], [references[1]] + ([references[2]] + []), symbol);
    }
    SingleDeclarationIsRegistered(symbol, at);
    SurvivorsOfFold(Registry(declarations), references, symbol);
  }

  /**
   * A class used as a parameter type in two places is not reported. Each
   * mention is visited twice: as the parameter and as its type-syntax child.
   */
  lemma TwoParameterUsagesAreAccepted(symbol: ClassSymbol, at: Location)
    requires IsTrackable(symbol)
    ensures symbol !in FinalStates([ClassDeclaration(Some(symbol), at)],
                                   [ParameterNode(Some(symbol)), TypeSyntaxNode(Some(symbol)),
                                    ParameterNode(Some(symbol)), TypeSyntaxNode(Some(symbol))])
  {
    var nodes := [ParameterNode(Some(symbol)), TypeSyntaxNode(Some(symbol)),
                  ParameterNode(Some(symbol)), TypeSyntaxNode(Some(symbol))];
    var references := Classified(nodes);
    var r := Reference(Some(symbol), false);
    assert references == [r, r, r, r];
    assert FlagsFor(references, symbol) == [false, false, false, false] by {
      assert references == [r] + ([r] + ([r] + ([r] + [])));
      FlagsForCons(r, [], symbol);
      FlagsForCons(r, [r] + [], symbol);
      FlagsForCons(r, [r] + ([r] + []), symbol);
      FlagsForCons(r, [r] + ([r] + ([r] + [])), symbol);
    }
    SurvivorsOfFold(Registry([ClassDeclaration(Some(symbol), at)]), references, symbol);
  }

  /**
   * A DI registration followed by a type-syntax node of the class promotes
   * it to MultipleUsages: it is not reported. This is also what an explicit
   * type argument gives, as in `ServiceCollectionServiceExtensions.AddScoped<Foo>(services)`:
   * the invocation is visited first, then its type argument `Foo`.
   */
  lemma RegisteredThenUsedIsAccepted(symbol: ClassSymbol, at: Location, registration: MethodSymbol, arguments: seq<Argument>)
    requires IsServiceCollectionExtensionMethod(registration) && IsDiRegistrationMethodName(registration.name)
    requires registration.typeArguments == [Some(symbol)] && |arguments| > 0
    ensures symbol !in FinalStates([ClassDeclaration(Some(symbol), at)],
                                   [InvocationNode(Some(registration), arguments), TypeSyntaxNode(Some(symbol))])
  {
    var nodes := [InvocationNode(Some(registration), arguments), TypeSyntaxNode(Some(symbol))];
    var references := Classified(nodes);
    assert Classify(nodes[0]) == Reference(Some(symbol), true);
    assert references == [Reference(Some(symbol), true), Reference(Some(symbol), false)];
    assert FlagsFor(references, symbol) == [true, false] by {
      assert references == [references[0]] + ([references[1]] + []);
      FlagsForCons(references[1], [], symbol);
      FlagsForCons(references[0], [references[1]] + [], symbol);
    }
    SurvivorsOfFold(Registry([ClassDeclaration(Some(symbol), at)]), references, symbol);
  }
}
