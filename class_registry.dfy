/**
 * The tracked class declarations of the unused/single-usage class rule:
 * which class declarations `AnalyzeModel` puts in its dictionary, and at
 * which declaration location.
 */
module ClassRegistry {
  import opened Wrappers
  import opened Text
  import opened Diagnostics

  /**
   * A resolved class symbol. Equality of these values plays the part of
   * symbol equality; `id` tells apart classes that share a name and namespace
   * (nested classes of different outer classes).
   */
  datatype ClassSymbol = ClassSymbol(
    id: nat,
    name: string,
    containingNamespace: Option<string>,  // display string of the namespace, if any
    attributeCount: nat)

  /** One class declaration node and the symbol it declares, if that resolves. */
  datatype ClassDeclaration = ClassDeclaration(declaredSymbol: Option<ClassSymbol>, location: Location)

  /** Framework entry points and host builders that are never tracked. */
  const ExcludedClassNames: set<string> := {
    "Program", "Startup", "ServiceCollectionExtensions", "ApplicationBuilder",
    "WebApplication", "WebApplicationBuilder", "HostBuilder", "IHostBuilder",
    "IApplicationBuilder", "IWebHostBuilder"
  }

  /**
   * The class lives in a framework namespace or a configuration/infrastructure/start-up one.
   * A class without a containing namespace is never excluded by this test.
   */
  predicate IsSystemOrConfigurationClass(symbol: ClassSymbol): (excluded: bool)
    ensures excluded ==> symbol.containingNamespace.Some? && |symbol.containingNamespace.value| >= |"System."|
  {
    var ns := symbol.containingNamespace.GetOr("");
    StartsWith(ns, "Microsoft.")
    || StartsWith(ns, "System.")
    || Contains(ns, ".Configuration")
    || Contains(ns, ".Infrastructure")
    || Contains(ns, ".Startup")
  }

  /** The registration filter applied to a resolved declaration. */
  predicate IsTrackable(symbol: ClassSymbol) {
    symbol.attributeCount == 0
    && symbol.name !in ExcludedClassNames
    && !EndsWith(symbol.name, "Extensions")
    && !IsSystemOrConfigurationClass(symbol)
  }

  /**
   * The tracked classes after registering `declarations` in order: one entry
   * per symbol, a later declaration of the same symbol replacing the location.
   */
  function Registry(declarations: seq<ClassDeclaration>): (registry: map<ClassSymbol, Location>)
    ensures forall symbol :: symbol in registry ==> IsTrackable(symbol)
    decreases |declarations|
  {
    if declarations == [] then map[]
    else
      var earlier := Registry(declarations[..|declarations| - 1]);
      var last := declarations[|declarations| - 1];
      if last.declaredSymbol.Some? && IsTrackable(last.declaredSymbol.value)
      then earlier[last.declaredSymbol.value := last.location]
      else earlier
  }

  /** A symbol is tracked iff it passes the filter and some declaration declares it. */
  lemma {:induction false} RegistryMembership(declarations: seq<ClassDeclaration>, symbol: ClassSymbol)
    ensures symbol in Registry(declarations)
        <==> IsTrackable(symbol)
             && exists i :: 0 <= i < |declarations| && declarations[i].declaredSymbol == Some(symbol)
    decreases |declarations|
  {
    if declarations != [] {
      var n := |declarations| - 1;
      var earlier := declarations[..n];
      RegistryMembership(earlier, symbol);
      if exists i :: 0 <= i < n && earlier[i].declaredSymbol == Some(symbol) {
        var i :| 0 <= i < n && earlier[i].declaredSymbol == Some(symbol);
        assert declarations[i] == earlier[i];
      }
      if exists i :: 0 <= i < |declarations| && declarations[i].declaredSymbol == Some(symbol) {
        var i :| 0 <= i < |declarations| && declarations[i].declaredSymbol == Some(symbol);
        if i < n {
          assert earlier[i] == declarations[i];
        }
      }
    }
  }

  /** The recorded location is that of the last declaration of the symbol. */
  lemma {:induction false} RegistryKeepsLastLocation(declarations: seq<ClassDeclaration>, i: nat)
    requires i < |declarations|
    requires declarations[i].declaredSymbol.Some? && IsTrackable(declarations[i].declaredSymbol.value)
    requires forall j :: i < j < |declarations| ==> declarations[j].declaredSymbol != declarations[i].declaredSymbol
    ensures declarations[i].declaredSymbol.value in Registry(declarations)
    ensures Registry(declarations)[declarations[i].declaredSymbol.value] == declarations[i].location
    decreases |declarations|
  {
    var n := |declarations| - 1;
    if i < n {
      var earlier := declarations[..n];
      assert earlier[i] == declarations[i];
      RegistryKeepsLastLocation(earlier, i);
    }
  }

  /** Classes with attributes, excluded names, "Extensions" names or excluded namespaces are never tracked. */
  lemma ExcludedClassesAreNeverTracked(declarations: seq<ClassDeclaration>, symbol: ClassSymbol)
    requires symbol.attributeCount > 0
          || symbol.name in ExcludedClassNames
          || EndsWith(symbol.name, "Extensions")
          || IsSystemOrConfigurationClass(symbol)
    ensures symbol !in Registry(declarations)
  {
  }

  /** The excluded name "ServiceCollectionExtensions" is already excluded by the "Extensions" suffix test. */
  lemma ExcludedNameServiceCollectionExtensionsIsRedundant(symbol: ClassSymbol)
    requires symbol.name == "ServiceCollectionExtensions"
    ensures EndsWith(symbol.name, "Extensions")
    ensures !IsTrackable(symbol)
  {
    assert symbol.name[|symbol.name| - |"Extensions"|..] == "Extensions";
  }
}
