# Mindbox analyzers: class-usage, DataContract and raw-SQL rules in Dafny

This project models three rules of the Mindbox Roslyn analyzers and proves
what they report.

- **Unused and single-usage classes (MB1050).** The rule registers the
  eligible class declarations of a compilation unit in a dictionary from the
  class symbol to a `ClassInfo` record. It then walks every syntax node,
  classifies each as a reference (DI registration or not) to a tracked class,
  and advances that class's usage state. A class is dropped as soon as it has
  multiple usages. Every class still tracked at the end is reported at its
  declaration, with its name as the message argument.
- **DataContract required with DataMember (Mindbox2003).** A type that
  declares a property or field carrying `[DataMember]` is reported, once per
  declaration location, unless it or one of its base types carries
  `[DataContract]`.
- **Raw SQL outside provider-specific code (Mindbox2004).** A member access
  whose receiver is `System.Data.IDbCommand`, or derives from it, is reported
  at its full span. The exception is code whose nearest enclosing class or
  record is named `SqlServer…` or `Postgres…`.

Layout, one module per file:

- `wrappers.dfy`: `Option`, standing for a C# reference that may be null.
- `text.dfy`: ordinal `StartsWith`, `EndsWith` and `Contains`.
- `diagnostics.dfy`: `Location` and `Diagnostic`.
- `usage_states.dfy`: the `ClassUsageState` machine as the pure function
  `Next`, characterised by reference counts.
- `class_registry.dfy`: the registration filter (excluded names, the
  "Extensions" suffix, attributes, excluded namespaces) and the registry it
  builds.
- `di_registration.dfy`: `IsDependencyInjectionRegistration` and its two
  predicates.
- `class_usage_fold.dfy`: the node classifier and the fold of references
  over the tracked classes. These pure functions are the specification of the
  imperative rule.
- `class_usage_scenarios.dfy`: the whole rule on small units.
- `class_usage_rule.dfy`: the imperative rule.
  - The `ClassInfo` class, whose `TrackUsage` updates its field in place.
  - The dictionary of tracked classes, pruned during the traversal.
  - `AnalyzeModel` as register, traverse and report loops, each proved
    against the pure fold.
- `type_hierarchy.dfy`: type symbols with their base-type chain.
- `data_contract_rule.dfy`: the LINQ pipeline of the DataContract rule, plus
  its `GetFullTypeHierarchyInclusive` loop.
- `raw_sql_rule.dfy`: the raw-SQL rule, with its loop and its recursive base
  and parent walks.

The analyzer's inputs become explicit sequences. The syntax tree and its
semantic model are not modelled.

- The class-usage rule receives the class declarations and the visited nodes
  in traversal order. Each node is already reduced to the symbol its type
  expression resolves to, or to the bound method and arguments of an
  invocation.
- The DataContract rule receives the member declarations, with their
  resolved attribute classes and parent type.
- The raw-SQL rule receives the member accesses, each with its receiver type
  and its syntax ancestry.

Symbol equality (`SymbolEqualityComparer.Default`) is datatype equality.

## Model

| member | source | states |
|---|---|---|
| UsageStates.Next | Mindbox.Analyzers/Rules/UnusedAndSingleUsageClassesRule.cs:72-95 | A transition never lowers the state in the order Unused < OnlyDi/SingleNonDi < Multiple, and a reportable state is reached only from a reportable one (NextFrom* below give each transition) |
| UsageStates.NextIsMonotone | Mindbox.Analyzers/Rules/UnusedAndSingleUsageClassesRule.cs:72-95 | A transition never lowers the state in the order Unused < OnlyDi/SingleNonDi < Multiple, and MultipleUsages is absorbing |
| UsageStates.NextFromUnused | Mindbox.Analyzers/Rules/UnusedAndSingleUsageClassesRule.cs:76-78 | From Unused, a DI reference leads to OnlyDiUsage and any other reference to SingleNonDiUsage; both are reportable |
| UsageStates.NextFromOnlyDiUsage | Mindbox.Analyzers/Rules/UnusedAndSingleUsageClassesRule.cs:80-86 | From OnlyDiUsage, a DI reference keeps the state and a non-DI reference leads to MultipleUsages |
| UsageStates.NextFromSingleNonDiUsage | Mindbox.Analyzers/Rules/UnusedAndSingleUsageClassesRule.cs:88-90 | From SingleNonDiUsage, every reference leads to MultipleUsages, which is not reportable |
| UsageStates.NextFollowsCounts | Mindbox.Analyzers/Rules/UnusedAndSingleUsageClassesRule.cs:72-95 | One transition adds one reference to the count pair that determines the state |
| UsageStates.ReplayFollowsCounts | Mindbox.Analyzers/Rules/UnusedAndSingleUsageClassesRule.cs:72-95 | Feeding a sequence of references to the machine adds their non-DI and DI counts to the state's counts |
| UsageStates.ReplayFromUnused | Mindbox.Analyzers/Rules/UnusedAndSingleUsageClassesRule.cs:64-95 | Starting from Unused, the final state is fixed by the two counts alone |
| UsageStates.ReplayFromMultipleUsages | Mindbox.Analyzers/Rules/UnusedAndSingleUsageClassesRule.cs:92-93 | Once MultipleUsages is reached, no later reference changes it |
| UsageStates.Reportable | Mindbox.Analyzers/Rules/UnusedAndSingleUsageClassesRule.cs:176-188 | The states the report switch turns into a diagnostic; ReportableIffBelowTop places them in the lattice and ReportableIffCounts characterises them by reference counts |
| UsageStates.ReportableIffCounts | Mindbox.Analyzers/Rules/UnusedAndSingleUsageClassesRule.cs:176-188 | A class ends in a reportable state iff it got no non-DI reference, or one non-DI reference and no DI one |
| UsageStates.ReplayIsOrderIndependent | Mindbox.Analyzers/Rules/UnusedAndSingleUsageClassesRule.cs:123-169 | Two reference sequences that are permutations of each other end in the same state |
| ClassRegistry.IsSystemOrConfigurationClass | Mindbox.Analyzers/Rules/UnusedAndSingleUsageClassesRule.cs:253-261 | A class without a containing namespace is never excluded (the null namespace becomes the empty string, which matches no prefix or part); ExcludedClassesAreNeverTracked gives each excluding pattern |
| ClassRegistry.IsTrackable | Mindbox.Analyzers/Rules/UnusedAndSingleUsageClassesRule.cs:107-111 | The registration filter; ExcludedClassesAreNeverTracked states that each of its five exclusions keeps a class out, and RegistryMembership that passing it is what registration requires |
| ClassRegistry.Registry | Mindbox.Analyzers/Rules/UnusedAndSingleUsageClassesRule.cs:104-115 | Every symbol in the registry passes the registration filter |
| ClassRegistry.RegistryMembership | Mindbox.Analyzers/Rules/UnusedAndSingleUsageClassesRule.cs:104-115 | A symbol is registered iff it passes the filter and some declaration declares it |
| ClassRegistry.RegistryKeepsLastLocation | Mindbox.Analyzers/Rules/UnusedAndSingleUsageClassesRule.cs:113 | A registered symbol maps to the location of its last declaration |
| ClassRegistry.ExcludedClassesAreNeverTracked | Mindbox.Analyzers/Rules/UnusedAndSingleUsageClassesRule.cs:107-111 | A class is never registered if it has an attribute, an excluded name, the suffix "Extensions", or a Microsoft./System./.Configuration/.Infrastructure/.Startup namespace |
| ClassRegistry.ExcludedNameServiceCollectionExtensionsIsRedundant | Mindbox.Analyzers/Rules/UnusedAndSingleUsageClassesRule.cs:23 | The excluded name "ServiceCollectionExtensions" already ends with "Extensions", so the suffix test alone keeps it out |
| Text.ContainsIffOccurs | Mindbox.Analyzers/Rules/UnusedAndSingleUsageClassesRule.cs:256-260 | The substring test holds exactly when the part occurs at some index of the string |
| DiRegistration.IsServiceCollectionExtensionMethod | Mindbox.Analyzers/Rules/UnusedAndSingleUsageClassesRule.cs:227-241 | Recognition needs at least one parameter, whose type string is at least as long as "IServiceCollection" (it contains it); RegisteredType states that recognition is required for any registration |
| DiRegistration.IsDiRegistrationMethodName | Mindbox.Analyzers/Rules/UnusedAndSingleUsageClassesRule.cs:243-251 | A recognised name is at least as long as the shortest keyword; DiRegistrationMethodNameCharacterisation gives the exact set of names |
| DiRegistration.RegisteredType | Mindbox.Analyzers/Rules/UnusedAndSingleUsageClassesRule.cs:194-225 | A registered type exists only for an IServiceCollection extension method with a registration name and at least one argument; it is the first type argument when there is one, else the typeof first argument |
| DiRegistration.DiRegistrationMethodNameCharacterisation | Mindbox.Analyzers/Rules/UnusedAndSingleUsageClassesRule.cs:243-251 | The name test is "Add" plus a lifetime keyword, or exactly "AddService"; "TryAddService" never passes, since it does not start with "Add" |
| DiRegistration.EmptyArgumentListIsRejected | Mindbox.Analyzers/Rules/UnusedAndSingleUsageClassesRule.cs:211-212 | A call with an empty argument list is never a DI usage, generic calls included (this check comes before the type-argument check) |
| DiRegistration.FirstTypeArgumentIsUsed | Mindbox.Analyzers/Rules/UnusedAndSingleUsageClassesRule.cs:214-218 | With type arguments, the first type argument is registered, null when it is not a named type |
| DiRegistration.TypeOfArgumentIsUsedWithoutTypeArguments | Mindbox.Analyzers/Rules/UnusedAndSingleUsageClassesRule.cs:220-224 | Without type arguments, a typeof(T) first argument registers T, and any other first argument registers nothing |
| ClassUsageFold.Classify | Mindbox.Analyzers/Rules/UnusedAndSingleUsageClassesRule.cs:128-160 | Only an invocation can be a DI usage, and its symbol is the registered type; an unrelated node refers to nothing |
| ClassUsageFold.Classified | Mindbox.Analyzers/Rules/UnusedAndSingleUsageClassesRule.cs:123-160 | Each visited node is classified, in traversal order |
| ClassUsageFold.InitialStates | Mindbox.Analyzers/Rules/UnusedAndSingleUsageClassesRule.cs:113 | The dictionary right after registration, every registered class Unused; SurvivorsOfFold and FoldRefsView say what the traversal makes of it |
| ClassUsageFold.Track | Mindbox.Analyzers/Rules/UnusedAndSingleUsageClassesRule.cs:162-168 | One step never adds an entry and never takes an entry out of MultipleUsages; an entry is removed only by a reference to that class that moves it to MultipleUsages |
| ClassUsageFold.FoldRefs | Mindbox.Analyzers/Rules/UnusedAndSingleUsageClassesRule.cs:123-169 | The traversal never adds an entry, and no surviving entry ends in a lower state than it started in |
| ClassUsageFold.TrackIgnoresUntracked | Mindbox.Analyzers/Rules/UnusedAndSingleUsageClassesRule.cs:162-163 | A null reference, or a reference to a class that is not tracked, changes nothing |
| ClassUsageFold.TrackTouchesOnlyItsOwnEntry | Mindbox.Analyzers/Rules/UnusedAndSingleUsageClassesRule.cs:162-168 | A reference changes only its own class's entry |
| ClassUsageFold.TrackView | Mindbox.Analyzers/Rules/UnusedAndSingleUsageClassesRule.cs:162-168 | Seen from one class, a step applies Next to that class's references and leaves other classes alone; a removed entry counts as MultipleUsages |
| ClassUsageFold.FoldRefsShrinks | Mindbox.Analyzers/Rules/UnusedAndSingleUsageClassesRule.cs:162-168 | The traversal never adds an entry and never keeps one in MultipleUsages |
| ClassUsageFold.FoldRefsOfEmpty | Mindbox.Analyzers/Rules/UnusedAndSingleUsageClassesRule.cs:125-126 | Once nothing is tracked, the rest of the traversal changes nothing, which justifies the early break |
| ClassUsageFold.FoldRefsView | Mindbox.Analyzers/Rules/UnusedAndSingleUsageClassesRule.cs:123-169 | Seen from one class, the traversal is the state machine run on that class's own references |
| ClassUsageFold.SurvivorsOfFold | Mindbox.Analyzers/Rules/UnusedAndSingleUsageClassesRule.cs:123-169 | A class survives iff it was registered and got no non-DI reference, or one non-DI reference and no DI one; its final state is fixed by these counts |
| ClassUsageFold.SurvivalIsOrderIndependent | Mindbox.Analyzers/Rules/UnusedAndSingleUsageClassesRule.cs:123-169 | Reordering a class's references does not change whether it survives |
| ClassUsageRule.ClassInfo.constructor | Mindbox.Analyzers/Rules/UnusedAndSingleUsageClassesRule.cs:62-70 | A new record is Unused and keeps its declaration location |
| ClassUsageRule.ClassInfo.TrackUsage | Mindbox.Analyzers/Rules/UnusedAndSingleUsageClassesRule.cs:72-95 | The new usage state is Next of the old state; the method returns true iff the new state is not MultipleUsages |
| ClassUsageRule.DiagnosticFor | Mindbox.Analyzers/Rules/UnusedAndSingleUsageClassesRule.cs:181-184 | The MB1050 diagnostic of one surviving class; DiagnosticForIsInjective says which classes it tells apart, and ReportIsIndexed and ClassIsReportedIff say which classes get one |
| ClassUsageRule.DiagnosticForIsInjective | Mindbox.Analyzers/Rules/UnusedAndSingleUsageClassesRule.cs:181-184 | Two diagnostics coincide iff the classes share a name and a declaration location |
| ClassUsageRule.Register | Mindbox.Analyzers/Rules/UnusedAndSingleUsageClassesRule.cs:104-115 | The registration loop creates one fresh Unused record per registered class, at the location Registry gives, each with its own object |
| ClassUsageRule.TrackReference | Mindbox.Analyzers/Rules/UnusedAndSingleUsageClassesRule.cs:162-168 | One iteration leaves the dictionary's states equal to Track of the old states, dropping the entry whose TrackUsage returned false |
| ClassUsageRule.TrackReferences | Mindbox.Analyzers/Rules/UnusedAndSingleUsageClassesRule.cs:123-169 | After the traversal loop, early break included, the dictionary's states equal the pure fold of the classified nodes over the initial states |
| ClassUsageRule.ReportOf | Mindbox.Analyzers/Rules/UnusedAndSingleUsageClassesRule.cs:171-189 | The report loop emits at most one diagnostic per visited class |
| ClassUsageRule.ReportOfMembership | Mindbox.Analyzers/Rules/UnusedAndSingleUsageClassesRule.cs:176-185 | A diagnostic is emitted iff it belongs to a visited class in a reportable state |
| ClassUsageRule.ReportOfAllReportable | Mindbox.Analyzers/Rules/UnusedAndSingleUsageClassesRule.cs:176-185 | When every visited class is reportable, each visit emits one diagnostic |
| ClassUsageRule.ReportOfIndexed | Mindbox.Analyzers/Rules/UnusedAndSingleUsageClassesRule.cs:176-185 | When every visited class is reportable, the i-th diagnostic is the one of the i-th visited class |
| ClassUsageRule.ReportOfReadsVisitedLocations | Mindbox.Analyzers/Rules/UnusedAndSingleUsageClassesRule.cs:181-184 | The report depends only on the locations of the classes it visits |
| ClassUsageRule.ReportOfEnumeration | Mindbox.Analyzers/Rules/UnusedAndSingleUsageClassesRule.cs:171-189 | Visiting each entry once reports each reportable entry, nothing else, and one diagnostic per entry when none is in MultipleUsages |
| ClassUsageRule.Report | Mindbox.Analyzers/Rules/UnusedAndSingleUsageClassesRule.cs:171-189 | The report loop visits every entry exactly once, in a ghost order it returns, and emits exactly ReportOf that order; so it reports every reportable class and nothing else, one diagnostic per entry when no entry is in MultipleUsages |
| ClassUsageRule.ReportIsIndexed | Mindbox.Analyzers/Rules/UnusedAndSingleUsageClassesRule.cs:171-189 | Read against the registry, the report loop's list has one diagnostic per visited class, the i-th at the i-th class's registered location |
| ClassUsageRule.AnalyzeModel | Mindbox.Analyzers/Rules/UnusedAndSingleUsageClassesRule.cs:98-192 | The diagnostics are exactly one per class surviving the pure fold, at its registered location; as a list, the i-th is the diagnostic of the i-th class of a ghost order that lists each survivor once; there are none when nothing is registered |
| ClassUsageRule.ClassIsReportedIff | Mindbox.Analyzers/Rules/UnusedAndSingleUsageClassesRule.cs:98-192 | A class is reported iff some declaration declares it, it passes the filter, and it got no non-DI reference, or one non-DI reference and no DI one |
| ClassUsageRule.ReportIsDeterministicAsASet | Mindbox.Analyzers/Rules/UnusedAndSingleUsageClassesRule.cs:171-191 | Any two results that report exactly the surviving classes hold the same diagnostics, whatever the dictionary order |
| ClassUsageScenarios.NeverMentionedIsReported | Mindbox.Analyzers/Rules/UnusedAndSingleUsageClassesRule.cs:176-185 | A trackable class that no node refers to ends the traversal Unused and is therefore reported |
| ClassUsageScenarios.OnlyRegisteredIsReported | Mindbox.Analyzers/Rules/UnusedAndSingleUsageClassesRule.cs:133-138 | A class whose only visited node is one recognised registration call, naming it through an inferred type argument with no type-syntax node of the class, ends as OnlyDiUsage and is reported |
| ClassUsageScenarios.GenericRegistrationWithoutArgumentsCountsAsTypeReference | Mindbox.Analyzers/Rules/UnusedAndSingleUsageClassesRule.cs:211-212 | In a unit with one class Bar, `AddScoped<IBar, Bar>()` with no arguments gives no DI usage: only the type-syntax node Bar counts, as one non-DI use, so Bar is reported as SingleNonDiUsage |
| ClassUsageScenarios.TwoParameterUsagesAreAccepted | Mindbox.Analyzers/Rules/UnusedAndSingleUsageClassesRule.cs:141-147 | A class used as a parameter type twice is not reported; each mention is visited as the parameter and as its type-syntax child, four non-DI references in all |
| ClassUsageScenarios.RegisteredThenUsedIsAccepted | Mindbox.Analyzers/Rules/UnusedAndSingleUsageClassesRule.cs:80-86 | A DI registration followed by a type-syntax node of the class, which is also what an explicit type argument gives (:141-143), promotes the class to MultipleUsages, so it is not reported |
| TypeHierarchy.InclusiveHierarchy | Mindbox.Analyzers/Rules/DataContractRequireIfUsingDataMemberRule.cs:55-67 | The chain starts at the type itself and has one element per step of the base-type walk |
| TypeHierarchy.HierarchyIsBaseChain | Mindbox.Analyzers/Rules/DataContractRequireIfUsingDataMemberRule.cs:55-67 | Each element's base type is the next element, and the last element has no base type |
| DataContractRule.ContainsAttribute | Mindbox.Analyzers/Rules/DataContractRequireIfUsingDataMemberRule.cs:107-110 | The `Any` test, with two unresolved symbols comparing equal; AttributesOfContains lifts it to the flattened chain and PropertyOrFieldHasAttribute uses it for [DataMember] |
| DataContractRule.PropertyOrFieldHasAttribute | Mindbox.Analyzers/Rules/DataContractRequireIfUsingDataMemberRule.cs:41-48 | Only a property or field can qualify, and only when [DataMember] is among its attribute classes; DataMemberOnMethodIsIgnored gives the method case |
| DataContractRule.ParentsOfDataMembers | Mindbox.Analyzers/Rules/DataContractRequireIfUsingDataMemberRule.cs:29-30 | The declared parent of each [DataMember] property or field that has a parent; ParentsOfDataMembersContains says a type is collected iff such a member is declared in it |
| DataContractRule.AttributesOf | Mindbox.Analyzers/Rules/DataContractRequireIfUsingDataMemberRule.cs:33 | The attribute classes of every type of the chain, flattened; AttributesOfContains says an attribute occurs iff some type of the chain carries it |
| DataContractRule.HasDataContractInHierarchy | Mindbox.Analyzers/Rules/DataContractRequireIfUsingDataMemberRule.cs:33 | The [DataContract] test over the flattened chain; AttributesOfContains reduces it to some type of the chain carrying the attribute |
| DataContractRule.GetFullTypeHierarchyInclusive | Mindbox.Analyzers/Rules/DataContractRequireIfUsingDataMemberRule.cs:55-67 | The while loop returns exactly the inclusive base-type chain |
| DataContractRule.Distinct | Mindbox.Analyzers/Rules/DataContractRequireIfUsingDataMemberRule.cs:31 | Duplicate parents are removed and all other elements are kept |
| DataContractRule.TypesOnly | Mindbox.Analyzers/Rules/DataContractRequireIfUsingDataMemberRule.cs:32 | Exactly the resolved type symbols are kept |
| DataContractRule.WithoutDataContract | Mindbox.Analyzers/Rules/DataContractRequireIfUsingDataMemberRule.cs:33 | A type is kept iff it is in the input and no type of its inclusive hierarchy carries [DataContract] |
| DataContractRule.LocationDiagnostics | Mindbox.Analyzers/Rules/DataContractRequireIfUsingDataMemberRule.cs:36-37 | There is one Mindbox2003 diagnostic per location, at that location |
| DataContractRule.DiagnosticsAt | Mindbox.Analyzers/Rules/DataContractRequireIfUsingDataMemberRule.cs:35-38 | One diagnostic per declaration location of the given types, each with id Mindbox2003 and no arguments |
| DataContractRule.AnalyzeModel | Mindbox.Analyzers/Rules/DataContractRequireIfUsingDataMemberRule.cs:20-39 | One Mindbox2003 diagnostic without arguments per declaration location of the selected types |
| DataContractRule.LocationIsReportedIff | Mindbox.Analyzers/Rules/DataContractRequireIfUsingDataMemberRule.cs:20-39 | A diagnostic is reported at a location iff some type declared there directly declares a [DataMember] property or field and no type of its inclusive base chain carries [DataContract] |
| DataContractRule.AttributesOfContains | Mindbox.Analyzers/Rules/DataContractRequireIfUsingDataMemberRule.cs:33 | [DataContract] occurs in the flattened attributes of the chain iff some type of the chain carries it |
| DataContractRule.ParentsOfDataMembersContains | Mindbox.Analyzers/Rules/DataContractRequireIfUsingDataMemberRule.cs:29-30 | A type is collected iff some property or field declared in it carries [DataMember] |
| DataContractRule.SelectedTypes | Mindbox.Analyzers/Rules/DataContractRequireIfUsingDataMemberRule.cs:24-33 | No selected type has [DataContract] anywhere in its inclusive hierarchy; SelectedIff gives the full iff and SelectedAtMostOnce that no type is selected twice |
| DataContractRule.SelectedIff | Mindbox.Analyzers/Rules/DataContractRequireIfUsingDataMemberRule.cs:24-33 | A type is selected iff it declares a [DataMember] property or field and nothing in its inclusive hierarchy carries [DataContract] |
| DataContractRule.SelectedAtMostOnce | Mindbox.Analyzers/Rules/DataContractRequireIfUsingDataMemberRule.cs:31 | No type is selected twice, however many [DataMember] members it has |
| DataContractRule.DiagnosticsAtLocations | Mindbox.Analyzers/Rules/DataContractRequireIfUsingDataMemberRule.cs:35-38 | There is one diagnostic per declaration location of each selected type, every one with id Mindbox2003 and no arguments, and each is at such a location |
| DataContractRule.DataMemberOnMethodIsIgnored | Mindbox.Analyzers/Rules/DataContractRequireIfUsingDataMemberRule.cs:43 | A [DataMember] on a member that is neither a property nor a field reports nothing |
| DataContractRule.DataMemberPropertyOrFieldIsReported | Mindbox.Analyzers.Tests/UnitTests.cs:208-260 | One [DataMember] property or field in a type without [DataContract] gives one diagnostic at the type's declaration |
| DataContractRule.DataContractOnBaseSuppresses | Mindbox.Analyzers.Tests/UnitTests.cs:283-304 | A [DataContract] on the base type suppresses the diagnostics for both the base and the child |
| DataContractRule.ParentAndChildAreBothReported | Mindbox.Analyzers.Tests/UnitTests.cs:306-350 | A child and its base that each declare a [DataMember] property, with no [DataContract], give two diagnostics: the child's first, then the base's |
| RawSqlRule.GetParentClassNode | Mindbox.Analyzers/Rules/ForbidRawSqlOutsideDbProviderSpecificCodeRule.cs:73-82 | The name is empty or the identifier of some class or record in the ancestry; ParentClassIsNearest and NoParentClassGivesEmptyName say which one |
| RawSqlRule.ParentClassIsNearest | Mindbox.Analyzers/Rules/ForbidRawSqlOutsideDbProviderSpecificCodeRule.cs:73-82 | The enclosing-class search returns the identifier of the first class or record in the node's ancestry |
| RawSqlRule.NoParentClassGivesEmptyName | Mindbox.Analyzers/Rules/ForbidRawSqlOutsideDbProviderSpecificCodeRule.cs:75-80 | With no class or record in the ancestry, the search returns the empty string |
| RawSqlRule.IsIDbCommandOrDerivedIff | Mindbox.Analyzers/Rules/ForbidRawSqlOutsideDbProviderSpecificCodeRule.cs:57-71 | A receiver type qualifies iff some type of its inclusive base chain is IDbCommand or lists it among its direct interfaces |
| RawSqlRule.InterfaceExtendingDbCommandQualifies | Mindbox.Analyzers/Rules/ForbidRawSqlOutsideDbProviderSpecificCodeRule.cs:64-65 | An interface that lists IDbCommand among its own interfaces qualifies |
| RawSqlRule.IndirectDbCommandDoesNotQualify | Mindbox.Analyzers/Rules/ForbidRawSqlOutsideDbProviderSpecificCodeRule.cs:57-71 | A class that reaches IDbCommand only through another interface does not qualify, since only direct interfaces are looked at |
| RawSqlRule.NamesDbCommand | Mindbox.Analyzers/Rules/ForbidRawSqlOutsideDbProviderSpecificCodeRule.cs:64-65 | The type is IDbCommand or lists it among its direct interfaces; IsIDbCommandOrDerivedIff applies it along the base chain |
| RawSqlRule.IsIDbCommandOrDerived | Mindbox.Analyzers/Rules/ForbidRawSqlOutsideDbProviderSpecificCodeRule.cs:57-71 | Only a known type can qualify; IsIDbCommandOrDerivedIff characterises the walk over the base chain |
| RawSqlRule.NullTypeDoesNotQualify | Mindbox.Analyzers/Rules/ForbidRawSqlOutsideDbProviderSpecificCodeRule.cs:59-62 | An unknown receiver type never qualifies |
| RawSqlRule.IsProviderSpecific | Mindbox.Analyzers/Rules/ForbidRawSqlOutsideDbProviderSpecificCodeRule.cs:45-46 | The exemption: the nearest class or record name starts with "SqlServer" or "Postgres"; NearestClassDecides and TopLevelCodeIsChecked show which name is tested |
| RawSqlRule.IsReported | Mindbox.Analyzers/Rules/ForbidRawSqlOutsideDbProviderSpecificCodeRule.cs:43-51 | Only an access whose receiver type is known can be reported; ProblemsAreReportedAccesses relates it to the diagnostics |
| RawSqlRule.Problems | Mindbox.Analyzers/Rules/ForbidRawSqlOutsideDbProviderSpecificCodeRule.cs:41-53 | No more diagnostics than accesses, each with id Mindbox2004 and no arguments; ProblemsAreReportedAccesses pins them down |
| RawSqlRule.AnalyzeModel | Mindbox.Analyzers/Rules/ForbidRawSqlOutsideDbProviderSpecificCodeRule.cs:35-55 | The loop, with its continue on provider-specific code, yields exactly Problems of the accesses, in order |
| RawSqlRule.ProblemsAreReportedAccesses | Mindbox.Analyzers/Rules/ForbidRawSqlOutsideDbProviderSpecificCodeRule.cs:41-54 | There is one diagnostic per reported access, at its full span, and nothing else; no more diagnostics than accesses |
| RawSqlRule.NearestClassDecides | Mindbox.Analyzers/Rules/ForbidRawSqlOutsideDbProviderSpecificCodeRule.cs:43-46 | Only the nearest enclosing class counts: a nested "Helper" class inside "SqlServerRepository" is checked, while code directly in "SqlServerRepository" is exempt |
| RawSqlRule.TopLevelCodeIsChecked | Mindbox.Analyzers/Rules/ForbidRawSqlOutsideDbProviderSpecificCodeRule.cs:43-46 | Code outside any class or record has the empty name and is never exempt |

## Left out

- The Roslyn semantic model, syntax tree and `DescendantNodes` traversal:
  the rules receive their nodes already resolved and in traversal order.
  Which syntax nodes are class declarations, member accesses or member
  declarations is not modelled.
- Which nodes produce class-usage references: the node sequence is an input.
  One source mention can appear as several nodes. For example, a generic
  registration call also contains type-syntax nodes for its type arguments.
  Each such node gives a separate reference, decided by the caller of the
  model.
- `Diagnostic.Create`, descriptors, titles, message formats, severities and
  `isEnabledByDefault`: a diagnostic is its rule id, location and message
  arguments.
- `Location` and `FullSpan` are abstract values. File and line positions are
  not computed.
- `string.StartsWith`, `EndsWith` and `Contains` are modelled as ordinal
  comparisons. The culture-sensitive overloads that C# uses for string
  arguments are not modelled.
- `ToString()` of symbols and parameter types is an input string, fixed for
  each type.
- The dictionary's iteration order is not modelled. `ClassUsageRule.Report`
  picks entries in an unspecified order and returns that order as a ghost
  value. The model fixes the list of diagnostics relative to that order, but
  not the order itself.
- The class-usage rule's view of a member's type: null types, unresolved
  types and non-named types all collapse into `None`.
- `ClassUsageFold.ParameterNode`: an implicitly typed lambda parameter
  (`x => ...`) has no type syntax, and the source calls `GetTypeInfo` on that
  null node (UnusedAndSingleUsageClassesRule.cs:145-146). Roslyn rejects a
  null node with an exception, which would abort the rule. The model has no
  error outcome for this. It treats such a parameter as `ParameterNode(None)`,
  which changes nothing.
- `DiRegistration.IsServiceCollectionExtensionMethod`: `parameterTypes` are
  the parameters of the bound method symbol. For a call in instance form
  (`services.AddScoped<Foo>(...)`) Roslyn binds the reduced extension method,
  whose parameters leave out the `this` receiver. Then the first parameter
  is the next one (`System.Type`, a factory delegate, ...), which does not
  mention `IServiceCollection`. Such calls are not DI usages in the source,
  and only calls in static form reach the DI branch. The model takes the
  parameter list as given and does not derive it from the call's form.
- The DataContract rule's parent symbol is a type or nothing: a null parent
  symbol and a non-type parent symbol both become `None`. They are dropped by
  `OfType<ITypeSymbol>` either way.
- The DataContract scenarios end the base chain at the base class. The
  implicit `System.Object` base carries no `[DataContract]`, so leaving it
  out changes nothing.
- `RawSqlRule.IsIDbCommandOrDerivedIff`: the source checks only the direct
  interfaces of each type of the base chain. An interface that extends
  `IDbCommand` lists it directly and qualifies. A type that reaches
  `IDbCommand` only through another interface does not, such as a class
  implementing such an interface, or an interface two levels down. The
  model does the same.
- The other rules of the repository are not part of this model: line length,
  cache keys, column names, test owners, tabs, regions, GroupBy, the Kafka
  admin client and last-resort usage. The test harness and the packaging as
  a compiler plugin are not part of it either.
- GroupByEntityRule.cs:10 and ForbidGroupingByNavigationPropertiesRule.cs:10
  in Mindbox.Analyzers/Rules both declare the rule id "Mindbox2005". The
  first reports at the grouping property (GroupByEntityRule.cs:81), the
  second at the whole invocation (ForbidGroupingByNavigationPropertiesRule.cs:51).
  Neither rule is part of this model, so the clash is left unresolved.
