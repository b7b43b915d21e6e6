/**
 * The DataContract rule (id Mindbox2003): a type that declares a property or
 * field marked `[DataMember]` must carry `[DataContract]` itself or on one of
 * its base types.
 */
module DataContractRule {
  import opened Wrappers
  import opened Diagnostics
  import opened TypeHierarchy

  const DataContractRuleId := "Mindbox2003"

  /** The kinds of member declaration the rule distinguishes. */
  datatype MemberKind = PropertyDeclaration | FieldDeclaration | OtherMemberDeclaration

  /** The syntax parent of a member declaration: none, or a node and the type it declares, if any. */
  datatype ParentNode = NoParent | ParentNode(declaredType: Option<TypeSymbol>)

  /**
   * A member declaration: its kind, the classes its attributes resolve to
   * (None where one does not resolve) and its parent.
   */
  datatype MemberDeclaration = MemberDeclaration(kind: MemberKind, attributeClasses: seq<Option<string>>, parent: ParentNode)

  /**
   * The two well-known attribute classes, as looked up by metadata name in the
   * compilation; None when the compilation does not know them.
   */
  datatype AttributeAnalyzer = AttributeAnalyzer(dataMemberAttribute: Option<string>, dataContractAttribute: Option<string>)

  /** Some attribute equals `attribute` (two unresolved symbols compare equal). */
  predicate ContainsAttribute(attributes: seq<Option<string>>, attribute: Option<string>) {
    exists i :: 0 <= i < |attributes| && attributes[i] == attribute
  }

  /** A property or field declaration with a `[DataMember]` attribute. */
  predicate PropertyOrFieldHasAttribute(member: MemberDeclaration, analyzer: AttributeAnalyzer): (hasAttribute: bool)
    ensures hasAttribute ==> !member.kind.OtherMemberDeclaration? && analyzer.dataMemberAttribute in member.attributeClasses
  {
    (member.kind.PropertyDeclaration? || member.kind.FieldDeclaration?)
    && ContainsAttribute(member.attributeClasses, analyzer.dataMemberAttribute)
  }

  /** The attribute classes of every type in a chain, in order (`SelectMany(GetAttributes)`). */
  function AttributesOf(types: seq<TypeSymbol>): seq<Option<string>> {
    if types == [] then [] else types[0].attributeClasses + AttributesOf(types[1..])
  }

  /** Some type of the inclusive base chain carries `[DataContract]`. */
  predicate HasDataContractInHierarchy(t: TypeSymbol, analyzer: AttributeAnalyzer) {
    ContainsAttribute(AttributesOf(InclusiveHierarchy(t)), analyzer.dataContractAttribute)
  }

  /** `Where(PropertyOrFieldHasAttribute && Parent != null).Select(GetDeclaredSymbol(Parent))`. */
  function ParentsOfDataMembers(members: seq<MemberDeclaration>, analyzer: AttributeAnalyzer): seq<Option<TypeSymbol>> {
    if members == [] then []
    else
      (if PropertyOrFieldHasAttribute(members[0], analyzer) && members[0].parent.ParentNode?
       then [members[0].parent.declaredType] else [])
      + ParentsOfDataMembers(members[1..], analyzer)
  }

  /** `Distinct()`: the first occurrence of every element, in order. */
  function Distinct(s: seq<Option<TypeSymbol>>): (d: seq<Option<TypeSymbol>>)
    ensures forall x :: x in d <==> x in s
    ensures forall i, j :: 0 <= i < j < |d| ==> d[i] != d[j]
    decreases |s|
  {
    if s == [] then []
    else
      var earlier := Distinct(s[..|s| - 1]);
      var last := s[|s| - 1];
      assert forall x :: x in s <==> x in s[..|s| - 1] || x == last;
      if last in earlier then earlier else earlier + [last]
  }

  /** `OfType<ITypeSymbol>()`: drops the unresolved parents. */
  function TypesOnly(s: seq<Option<TypeSymbol>>): (types: seq<TypeSymbol>)
    ensures forall t :: t in types <==> Some(t) in s
  {
    if s == [] then []
    else (if s[0].Some? then [s[0].value] else []) + TypesOnly(s[1..])
  }

  /** `Where(type => no [DataContract] in its inclusive hierarchy)`. */
  function WithoutDataContract(types: seq<TypeSymbol>, analyzer: AttributeAnalyzer): (kept: seq<TypeSymbol>)
    ensures forall t :: t in kept <==> t in types && !HasDataContractInHierarchy(t, analyzer)
  {
    if types == [] then []
    else
      (if HasDataContractInHierarchy(types[0], analyzer) then [] else [types[0]])
      + WithoutDataContract(types[1..], analyzer)
  }

  /** The types the rule selects, each once. */
  function SelectedTypes(members: seq<MemberDeclaration>, analyzer: AttributeAnalyzer): (selected: seq<TypeSymbol>)
    ensures forall t :: t in selected ==> !HasDataContractInHierarchy(t, analyzer)
  {
    WithoutDataContract(TypesOnly(Distinct(ParentsOfDataMembers(members, analyzer))), analyzer)
  }

  /** One diagnostic per declaration location of every selected type. */
  function DiagnosticsAt(types: seq<TypeSymbol>): (ds: seq<Diagnostic>)
    ensures |ds| == LocationCount(types)
    ensures forall d :: d in ds ==> d.ruleId == DataContractRuleId && d.messageArguments == []
  {
    if types == [] then []
    else LocationDiagnostics(types[0].locations) + DiagnosticsAt(types[1..])
  }

  /** `Select(CreateDiagnosticForLocation)` over one type's locations. */
  function LocationDiagnostics(locations: seq<Location>): (ds: seq<Diagnostic>)
    ensures |ds| == |locations|
    ensures forall i :: 0 <= i < |locations| ==> ds[i] == Diagnostic(DataContractRuleId, locations[i], [])
  {
    if locations == [] then [] else [Diagnostic(DataContractRuleId, locations[0], [])] + LocationDiagnostics(locations[1..])
  }

  /** `AnalyzeModel` of the rule: the whole LINQ pipeline. */
  function AnalyzeModel(members: seq<MemberDeclaration>, analyzer: AttributeAnalyzer): (diagnostics: seq<Diagnostic>)
    ensures |diagnostics| == LocationCount(SelectedTypes(members, analyzer))
    ensures forall d :: d in diagnostics ==> d.ruleId == DataContractRuleId && d.messageArguments == []
  {
    DiagnosticsAt(SelectedTypes(members, analyzer))
  }

  /** `GetFullTypeHierarchyInclusive`: walk the base types with a loop, appending each. */
  method GetFullTypeHierarchyInclusive(mainClass: TypeSymbol) returns (types: seq<TypeSymbol>)
    ensures types == InclusiveHierarchy(mainClass)
  {
    types := [];
    var currentType: Option<TypeSymbol> := Some(mainClass);
    while currentType.Some?
      invariant types + (if currentType.Some? then InclusiveHierarchy(currentType.value) else [])
             == InclusiveHierarchy(mainClass)
      decreases if currentType.Some? then Depth(currentType.value) else 0
    {
      var t := currentType.value;
      types := types + [t];
      currentType := t.baseType;
    }
  }

  /** A `[DataContract]` is found in the flattened attributes iff some type of the chain carries it. */
  lemma {:induction false} AttributesOfContains(types: seq<TypeSymbol>, attribute: Option<string>)
    ensures ContainsAttribute(AttributesOf(types), attribute)
        <==> exists k :: 0 <= k < |types| && ContainsAttribute(types[k].attributeClasses, attribute)
    decreases |types|
  {
    if types != [] {
      AttributesOfContains(types[1..], attribute);
      var head := types[0].attributeClasses;
      var rest := AttributesOf(types[1..]);
      assert AttributesOf(types) == head + rest;
      if ContainsAttribute(head + rest, attribute) {
        var i :| 0 <= i < |head + rest| && (head + rest)[i] == attribute;
        if i >= |head| {
          assert rest[i - |head|] == attribute;
          var k :| 0 <= k < |types[1..]| && ContainsAttribute(types[1..][k].attributeClasses, attribute);
          assert types[k + 1] == types[1..][k];
        } else {
          assert head[i] == attribute;
        }
      }
      if exists k :: 0 <= k < |types| && ContainsAttribute(types[k].attributeClasses, attribute) {
        var k :| 0 <= k < |types| && ContainsAttribute(types[k].attributeClasses, attribute);
        if k == 0 {
          var i :| 0 <= i < |head| && head[i] == attribute;
          assert (head + rest)[i] == attribute;
        } else {
          assert types[1..][k - 1] == types[k];
          var i :| 0 <= i < |rest| && rest[i] == attribute;
          assert (head + rest)[|head| + i] == attribute;
        }
      }
    }
  }

  /** Parents collected from the members are exactly those of members with `[DataMember]`. */
  lemma {:induction false} ParentsOfDataMembersContains(members: seq<MemberDeclaration>, analyzer: AttributeAnalyzer, t: TypeSymbol)
    ensures Some(t) in ParentsOfDataMembers(members, analyzer)
        <==> exists i :: 0 <= i < |members| && PropertyOrFieldHasAttribute(members[i], analyzer)
                         && members[i].parent == ParentNode(Some(t))
    decreases |members|
  {
    if members != [] {
      ParentsOfDataMembersContains(members[1..], analyzer, t);
      if exists i :: 0 <= i < |members| && PropertyOrFieldHasAttribute(members[i], analyzer)
                     && members[i].parent == ParentNode(Some(t)) {
        var i :| 0 <= i < |members| && PropertyOrFieldHasAttribute(members[i], analyzer)
                 && members[i].parent == ParentNode(Some(t));
        if i > 0 {
          assert members[1..][i - 1] == members[i];
        }
      }
      if exists i :: 0 <= i < |members[1..]| && PropertyOrFieldHasAttribute(members[1..][i], analyzer)
                     && members[1..][i].parent == ParentNode(Some(t)) {
        var i :| 0 <= i < |members[1..]| && PropertyOrFieldHasAttribute(members[1..][i], analyzer)
                 && members[1..][i].parent == ParentNode(Some(t));
        assert members[i + 1] == members[1..][i];
      }
    }
  }

  /**
   * A type is selected iff it directly declares a `[DataMember]` property or
   * field and no type of its inclusive base chain carries `[DataContract]`.
   */
  lemma SelectedIff(members: seq<MemberDeclaration>, analyzer: AttributeAnalyzer, t: TypeSymbol)
    ensures t in SelectedTypes(members, analyzer)
        <==> (exists i :: 0 <= i < |members| && PropertyOrFieldHasAttribute(members[i], analyzer)
                          && members[i].parent == ParentNode(Some(t)))
             && (forall u :: u in InclusiveHierarchy(t) ==>
                   !ContainsAttribute(u.attributeClasses, analyzer.dataContractAttribute))
  {
    ParentsOfDataMembersContains(members, analyzer, t);
    var chain := InclusiveHierarchy(t);
    AttributesOfContains(chain, analyzer.dataContractAttribute);
    if exists u :: u in chain && ContainsAttribute(u.attributeClasses, analyzer.dataContractAttribute) {
      var u :| u in chain && ContainsAttribute(u.attributeClasses, analyzer.dataContractAttribute);
      var k :| 0 <= k < |chain| && chain[k] == u;
    }
  }

  /** No element occurs twice. */
  predicate NoDuplicates<T(==)>(s: seq<T>) {
    forall i, j :: 0 <= i < j < |s| ==> s[i] != s[j]
  }

  /** Dropping unresolved parents keeps the elements distinct. */
  lemma {:induction false} TypesOnlyIsDistinct(s: seq<Option<TypeSymbol>>)
    requires NoDuplicates(s)
    ensures NoDuplicates(TypesOnly(s))
    decreases |s|
  {
    if s != [] {
      TypesOnlyIsDistinct(s[1..]);
      var rest := TypesOnly(s[1..]);
      if s[0].Some? {
        assert Some(s[0].value) !in s[1..];
        assert s[0].value !in rest;
        assert TypesOnly(s) == [s[0].value] + rest;
      }
    }
  }

  /** Filtering keeps the elements distinct. */
  lemma {:induction false} WithoutDataContractIsDistinct(types: seq<TypeSymbol>, analyzer: AttributeAnalyzer)
    requires NoDuplicates(types)
    ensures NoDuplicates(WithoutDataContract(types, analyzer))
    decreases |types|
  {
    if types != [] {
      WithoutDataContractIsDistinct(types[1..], analyzer);
      assert types[0] !in types[1..];
    }
  }

  /** Types that all carry `[DataContract]` somewhere in their hierarchy are all dropped. */
  lemma {:induction false} WithoutDataContractOfCovered(types: seq<TypeSymbol>, analyzer: AttributeAnalyzer)
    requires forall t :: t in types ==> HasDataContractInHierarchy(t, analyzer)
    ensures WithoutDataContract(types, analyzer) == []
    decreases |types|
  {
    if types != [] {
      WithoutDataContractOfCovered(types[1..], analyzer);
    }
  }

  /** Each type is selected at most once, however many `[DataMember]` members it has. */
  lemma SelectedAtMostOnce(members: seq<MemberDeclaration>, analyzer: AttributeAnalyzer)
    ensures NoDuplicates(SelectedTypes(members, analyzer))
  {
    var distinct := Distinct(ParentsOfDataMembers(members, analyzer));
    TypesOnlyIsDistinct(distinct);
    WithoutDataContractIsDistinct(TypesOnly(distinct), analyzer);
  }

  /** Total number of declaration locations of the types. */
  function LocationCount(types: seq<TypeSymbol>): nat {
    if types == [] then 0 else |types[0].locations| + LocationCount(types[1..])
  }

  /**
   * The report holds one diagnostic per declaration location of each selected
   * type, and each diagnostic is at such a location.
   */
  lemma {:induction false} DiagnosticsAtLocations(types: seq<TypeSymbol>, location: Location)
    ensures |DiagnosticsAt(types)| == LocationCount(types)
    ensures Diagnostic(DataContractRuleId, location, []) in DiagnosticsAt(types)
        <==> exists t :: t in types && location in t.locations
    ensures forall d :: d in DiagnosticsAt(types) ==> d.ruleId == DataContractRuleId && d.messageArguments == []
    decreases |types|
  {
    if types != [] {
      DiagnosticsAtLocations(types[1..], location);
      var here := LocationDiagnostics(types[0].locations);
      assert DiagnosticsAt(types) == here + DiagnosticsAt(types[1..]);
      assert Diagnostic(DataContractRuleId, location, []) in here <==> location in types[0].locations by {
        if location in types[0].locations {
          var i :| 0 <= i < |types[0].locations| && types[0].locations[i] == location;
          assert here[i] == Diagnostic(DataContractRuleId, location, []);
        }
      }
      if exists t :: t in types[1..] && location in t.locations {
        var t :| t in types[1..] && location in t.locations;
        assert t in types;
      }
      if exists t :: t in types && location in t.locations {
        var t :| t in types && location in t.locations;
        if t != types[0] {
          assert t in types[1..];
        }
      }
    }
  }

  /**
   * A diagnostic is reported at `location` iff some type declared there
   * directly declares a `[DataMember]` property or field and no type of its
   * inclusive base chain carries `[DataContract]`.
   */
  lemma LocationIsReportedIff(members: seq<MemberDeclaration>, analyzer: AttributeAnalyzer, location: Location)
    ensures Diagnostic(DataContractRuleId, location, []) in AnalyzeModel(members, analyzer)
        <==> exists t: TypeSymbol ::
               location in t.locations
               && (exists i :: 0 <= i < |members| && PropertyOrFieldHasAttribute(members[i], analyzer)
                               && members[i].parent == ParentNode(Some(t)))
               && (forall u :: u in InclusiveHierarchy(t) ==>
                     !ContainsAttribute(u.attributeClasses, analyzer.dataContractAttribute))
  {
    var selected := SelectedTypes(members, analyzer);
    DiagnosticsAtLocations(selected, location);
    forall t: TypeSymbol
      ensures t in selected <==>
                (exists i :: 0 <= i < |members| && PropertyOrFieldHasAttribute(members[i], analyzer)
                             && members[i].parent == ParentNode(Some(t)))
                && (forall u :: u in InclusiveHierarchy(t) ==>
                      !ContainsAttribute(u.attributeClasses, analyzer.dataContractAttribute))
    {
      SelectedIff(members, analyzer, t);
    }
  }

  /**
   * A child and its base that both declare a `[DataMember]` property, with no
   * `[DataContract]` anywhere, give two diagnostics, one per type (members in
   * traversal order: the two class declarations and their properties).
   */
  lemma ParentAndChildAreBothReported(base: TypeSymbol, child: TypeSymbol, analyzer: AttributeAnalyzer,
                                      members: seq<MemberDeclaration>, childAt: Location, baseAt: Location)
    requires base.baseType == None && child.baseType == Some(base)
    requires base.attributeClasses == [] && child.attributeClasses == []
    requires base.locations == [baseAt] && child.locations == [childAt]
    requires analyzer.dataMemberAttribute.Some?
    requires members == [
               MemberDeclaration(OtherMemberDeclaration, [], ParentNode(None)),
               MemberDeclaration(PropertyDeclaration, [analyzer.dataMemberAttribute], ParentNode(Some(child))),
               MemberDeclaration(OtherMemberDeclaration, [], ParentNode(None)),
               MemberDeclaration(PropertyDeclaration, [analyzer.dataMemberAttribute], ParentNode(Some(base)))]
    ensures AnalyzeModel(members, analyzer)
         == [Diagnostic(DataContractRuleId, childAt, []), Diagnostic(DataContractRuleId, baseAt, [])]
  {
    ParentsOfChildAndBase(base, child, analyzer, members);
    UncoveredChildAndBaseAreKept(base, child, analyzer);
    assert SelectedTypes(members, analyzer) == [child, base];
    DiagnosticsOfTwoTypes(child, base, childAt, baseAt);
  }

  /** Two types declared once each give one diagnostic each, in order. */
  lemma DiagnosticsOfTwoTypes(first: TypeSymbol, second: TypeSymbol, firstAt: Location, secondAt: Location)
    requires first.locations == [firstAt] && second.locations == [secondAt]
    ensures DiagnosticsAt([first, second])
         == [Diagnostic(DataContractRuleId, firstAt, []), Diagnostic(DataContractRuleId, secondAt, [])]
  {
    calc {
      DiagnosticsAt([first, second]);
      { assert [first, second][1..] == [second]; }
      LocationDiagnostics([firstAt]) + DiagnosticsAt([second]);
      { assert [second][1..] == []; }
      LocationDiagnostics([firstAt]) + LocationDiagnostics([secondAt]);
      [Diagnostic(DataContractRuleId, firstAt, []), Diagnostic(DataContractRuleId, secondAt, [])];
    }
  }

  /** The parents collected in the child-and-base scenario, in traversal order. */
  lemma ParentsOfChildAndBase(base: TypeSymbol, child: TypeSymbol, analyzer: AttributeAnalyzer,
                              members: seq<MemberDeclaration>)
    requires analyzer.dataMemberAttribute.Some?
    requires members == [
               MemberDeclaration(OtherMemberDeclaration, [], ParentNode(None)),
               MemberDeclaration(PropertyDeclaration, [analyzer.dataMemberAttribute], ParentNode(Some(child))),
               MemberDeclaration(OtherMemberDeclaration, [], ParentNode(None)),
               MemberDeclaration(PropertyDeclaration, [analyzer.dataMemberAttribute], ParentNode(Some(base)))]
    ensures ParentsOfDataMembers(members, analyzer) == [Some(child), Some(base)]
  {
    calc {
      ParentsOfDataMembers(members, analyzer);
      { assert members[1..] == [members[1], members[2], members[3]]; }
      ParentsOfDataMembers([members[1], members[2], members[3]], analyzer);
      { assert members[1].attributeClasses[0] == analyzer.dataMemberAttribute;
        assert [members[1], members[2], members[3]][1..] == [members[2], members[3]]; }
      [Some(child)] + ParentsOfDataMembers([members[2], members[3]], analyzer);
      { assert [members[2], members[3]][1..] == [members[3]]; }
      [Some(child)] + ParentsOfDataMembers([members[3]], analyzer);
      { assert members[3].attributeClasses[0] == analyzer.dataMemberAttribute; }
      [Some(child), Some(base)];
    }
  }

  /** With no `[DataContract]` in either hierarchy, both parents survive the filter, in order. */
  lemma UncoveredChildAndBaseAreKept(base: TypeSymbol, child: TypeSymbol, analyzer: AttributeAnalyzer)
    requires base.baseType == None && child.baseType == Some(base)
    requires base.attributeClasses == [] && child.attributeClasses == []
    ensures WithoutDataContract(TypesOnly(Distinct([Some(child), Some(base)])), analyzer) == [child, base]
  {
    assert child != base;
    TwoResolvedParents(child, base);
    UnattributedPairIsUncovered(base, child, analyzer);
    calc {
      WithoutDataContract([child, base], analyzer);
      { assert [child, base][1..] == [base]; }
      [child] + WithoutDataContract([base], analyzer);
      { assert [base][1..] == []; }
      [child, base];
    }
  }

  /** Neither type of an unattributed child-and-base pair has `[DataContract]` in its hierarchy. */
  lemma UnattributedPairIsUncovered(base: TypeSymbol, child: TypeSymbol, analyzer: AttributeAnalyzer)
    requires base.baseType == None && child.baseType == Some(base)
    requires base.attributeClasses == [] && child.attributeClasses == []
    ensures !HasDataContractInHierarchy(child, analyzer) && !HasDataContractInHierarchy(base, analyzer)
  {
    assert InclusiveHierarchy(base) == [base];
    assert AttributesOf([base]) == [] by { assert [base][1..] == []; }
    assert InclusiveHierarchy(child) == [child, base];
    assert AttributesOf([child, base]) == [] by { assert [child, base][1..] == [base]; }
  }

  /** Two different resolved parents stay, in order, through `Distinct` and the unresolved-parent filter. */
  lemma TwoResolvedParents(child: TypeSymbol, base: TypeSymbol)
    requires child != base
    ensures TypesOnly(Distinct([Some(child), Some(base)])) == [child, base]
  {
    calc {
      Distinct([Some(child), Some(base)]);
      { assert [Some(child), Some(base)][..1] == [Some(child)]; }
      Distinct([Some(child)]) + [Some(base)];
      [Some(child), Some(base)];
    }
    calc {
      TypesOnly([Some(child), Some(base)]);
      { assert [Some(child), Some(base)][1..] == [Some(base)]; }
      [child] + TypesOnly([Some(base)]);
      { assert [Some(base)][1..] == []; }
      [child] + [base];
      [child, base];
    }
  }

  /** A `[DataContract]` on the base type covers the child's `[DataMember]` properties too. */
  lemma DataContractOnBaseSuppresses(base: TypeSymbol, child: TypeSymbol, analyzer: AttributeAnalyzer,
                                     members: seq<MemberDeclaration>)
    requires base.baseType == None && child.baseType == Some(base)
    requires base.attributeClasses == [analyzer.dataContractAttribute]
    requires members == [
               MemberDeclaration(PropertyDeclaration, [analyzer.dataMemberAttribute], ParentNode(Some(child))),
               MemberDeclaration(PropertyDeclaration, [analyzer.dataMemberAttribute], ParentNode(Some(base)))]
    ensures AnalyzeModel(members, analyzer) == []
  {
    assert HasDataContractInHierarchy(base, analyzer) by {
      assert AttributesOf(InclusiveHierarchy(base))[0] == analyzer.dataContractAttribute;
    }
    assert HasDataContractInHierarchy(child, analyzer) by {
      assert InclusiveHierarchy(child) == [child, base];
      AttributesOfContains([child, base], analyzer.dataContractAttribute);
      assert base.attributeClasses[0] == analyzer.dataContractAttribute;
      assert ContainsAttribute([child, base][1].attributeClasses, analyzer.dataContractAttribute);
    }
    var types := TypesOnly(Distinct(ParentsOfDataMembers(members, analyzer)));
    forall t | t in types
      ensures t == child || t == base
    {
      ParentsOfDataMembersContains(members, analyzer, t);
    }
    WithoutDataContractOfCovered(types, analyzer);
  }

  /** A `[DataMember]` property or field alone triggers the rule on its type. */
  lemma DataMemberPropertyOrFieldIsReported(kind: MemberKind, test: TypeSymbol, analyzer: AttributeAnalyzer, at: Location)
    requires kind.PropertyDeclaration? || kind.FieldDeclaration?
    requires test.baseType == None && test.attributeClasses == [] && test.locations == [at]
    requires analyzer.dataMemberAttribute.Some?
    ensures AnalyzeModel([MemberDeclaration(kind, [analyzer.dataMemberAttribute], ParentNode(Some(test)))],
                         analyzer)
         == [Diagnostic(DataContractRuleId, at, [])]
  {
    var member := MemberDeclaration(kind, [analyzer.dataMemberAttribute], ParentNode(Some(test)));
    assert member.attributeClasses[0] == analyzer.dataMemberAttribute;
    calc {
      SelectedTypes([member], analyzer);
      WithoutDataContract(TypesOnly(Distinct(ParentsOfDataMembers([member], analyzer))), analyzer);
      { assert PropertyOrFieldHasAttribute(member, analyzer);
        assert [member][1..] == [];
        assert ParentsOfDataMembers([member], analyzer) == [Some(test)] + ParentsOfDataMembers([], analyzer); }
      WithoutDataContract(TypesOnly(Distinct([Some(test)])), analyzer);
      { assert [Some(test)][..0] == []; }
      WithoutDataContract(TypesOnly([Some(test)]), analyzer);
      { assert [Some(test)][1..] == []; }
      WithoutDataContract([test], analyzer);
      { assert InclusiveHierarchy(test) == [test];
        assert AttributesOf([test]) == [] by { assert [test][1..] == []; }
        assert [test][1..] == []; }
      [test];
    }
    calc {
      DiagnosticsAt([test]);
      { assert [test][1..] == []; }
      LocationDiagnostics([at]);
      [Diagnostic(DataContractRuleId, at, [])];
    }
  }

  /** A method carrying `[DataMember]` is neither a property nor a field: nothing is reported. */
  lemma DataMemberOnMethodIsIgnored(test: TypeSymbol, analyzer: AttributeAnalyzer)
    ensures AnalyzeModel([MemberDeclaration(OtherMemberDeclaration, [analyzer.dataMemberAttribute], ParentNode(Some(test)))],
                         analyzer)
         == []
  {
    var other := MemberDeclaration(OtherMemberDeclaration, [analyzer.dataMemberAttribute], ParentNode(Some(test)));
    assert ParentsOfDataMembers([other], analyzer) == [];
  }
}
