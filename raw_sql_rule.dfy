/**
 * The raw-SQL rule (id Mindbox2004): a member access on an `IDbCommand`
 * (or a type deriving from it) is reported unless the nearest enclosing
 * class or record is named "SqlServer..." or "Postgres...".
 */
module RawSqlRule {
  import opened Wrappers
  import opened Text
  import opened Diagnostics
  import opened TypeHierarchy

  const RawSqlRuleId := "Mindbox2004"

  /** `typeof(IDbCommand).ToString()`. */
  const DbCommandInterfaceType := "System.Data.IDbCommand"

  /** The kinds of syntax node the enclosing-class search distinguishes. */
  datatype NodeKind = ClassDeclaration(identifier: string) | RecordDeclaration(identifier: string) | OtherSyntax

  /** A syntax node with its chain of parents up to the root. */
  datatype SyntaxNode = SyntaxNode(kind: NodeKind, parent: Option<SyntaxNode>)

  /** A member access expression: its node, the type of its receiver (if known) and its full span. */
  datatype MemberAccess = MemberAccess(node: SyntaxNode, receiverType: Option<TypeSymbol>, fullSpan: Location)

  /** The identifier of the nearest class or record at or above `node`, or "" if there is none. */
  function GetParentClassNode(node: Option<SyntaxNode>): (name: string)
    ensures name == "" || exists k :: 0 <= k < |Ancestry(node)| && IsTypeDeclaration(Ancestry(node)[k])
                                       && Ancestry(node)[k].kind.identifier == name
  {
    match node
    case None => ""
    case Some(n) =>
      assert Ancestry(node) == [n] + Ancestry(n.parent);
      assert Ancestry(node)[0] == n;
      match n.kind
      case ClassDeclaration(identifier) => identifier
      case RecordDeclaration(identifier) => identifier
      case OtherSyntax =>
        assert forall k :: 0 <= k < |Ancestry(n.parent)| ==> Ancestry(node)[k + 1] == Ancestry(n.parent)[k];
        GetParentClassNode(n.parent)
  }

  /** The node itself, then its parent, and so on up to the root. */
  function Ancestry(node: Option<SyntaxNode>): seq<SyntaxNode> {
    match node
    case None => []
    case Some(n) => [n] + Ancestry(n.parent)
  }

  /** A class or record declaration. */
  predicate IsTypeDeclaration(n: SyntaxNode) {
    n.kind.ClassDeclaration? || n.kind.RecordDeclaration?
  }

  /** The search returns the identifier of the first class or record in the ancestry. */
  lemma {:induction false} ParentClassIsNearest(node: Option<SyntaxNode>, k: nat)
    requires k < |Ancestry(node)| && IsTypeDeclaration(Ancestry(node)[k])
    requires forall j :: 0 <= j < k ==> !IsTypeDeclaration(Ancestry(node)[j])
    ensures GetParentClassNode(node) == Ancestry(node)[k].kind.identifier
    decreases k
  {
    var n := node.value;
    var rest := Ancestry(n.parent);
    assert Ancestry(node) == [n] + rest;
    if k > 0 {
      assert !IsTypeDeclaration(Ancestry(node)[0]);
      forall j | 0 <= j < k - 1
        ensures !IsTypeDeclaration(rest[j])
      {
        assert rest[j] == Ancestry(node)[j + 1];
      }
      assert rest[k - 1] == Ancestry(node)[k];
      ParentClassIsNearest(n.parent, k - 1);
    }
  }

  /** With no class or record anywhere in the ancestry, the search returns "". */
  lemma {:induction false} NoParentClassGivesEmptyName(node: Option<SyntaxNode>)
    requires forall j :: 0 <= j < |Ancestry(node)| ==> !IsTypeDeclaration(Ancestry(node)[j])
    ensures GetParentClassNode(node) == ""
  {
    match node
    case None =>
    case Some(n) =>
      var rest := Ancestry(n.parent);
      assert Ancestry(node) == [n] + rest;
      assert !IsTypeDeclaration(Ancestry(node)[0]);
      forall j | 0 <= j < |rest|
        ensures !IsTypeDeclaration(rest[j])
      {
        assert rest[j] == Ancestry(node)[j + 1];
      }
      NoParentClassGivesEmptyName(n.parent);
  }

  /** Code inside a class or record whose name starts with "SqlServer" or "Postgres" is exempt. */
  predicate IsProviderSpecific(parentClassName: string) {
    StartsWith(parentClassName, "SqlServer") || StartsWith(parentClassName, "Postgres")
  }

  /** The type is `IDbCommand` itself or lists it among its direct interfaces. */
  predicate NamesDbCommand(t: TypeSymbol) {
    t.displayName == DbCommandInterfaceType
    || exists i :: 0 <= i < |t.interfaces| && t.interfaces[i].displayName == DbCommandInterfaceType
  }

  /** `IsIDbCommandOrDerived`: the test walks the base types, looking at each one's direct interfaces. */
  function IsIDbCommandOrDerived(typeSymbol: Option<TypeSymbol>): (qualifies: bool)
    ensures qualifies ==> typeSymbol.Some?
  {
    match typeSymbol
    case None => false
    case Some(t) => NamesDbCommand(t) || IsIDbCommandOrDerived(t.baseType)
  }

  /** The receiver type qualifies iff some type of its inclusive base chain names `IDbCommand`. */
  lemma {:induction false} IsIDbCommandOrDerivedIff(t: TypeSymbol)
    ensures IsIDbCommandOrDerived(Some(t)) <==> exists u :: u in InclusiveHierarchy(t) && NamesDbCommand(u)
    decreases Depth(t)
  {
    match t.baseType
    case None =>
      assert InclusiveHierarchy(t) == [t];
    case Some(b) =>
      IsIDbCommandOrDerivedIff(b);
      assert InclusiveHierarchy(t) == [t] + InclusiveHierarchy(b);
  }

  /** An interface that lists `IDbCommand` among its own interfaces qualifies. */
  lemma InterfaceExtendingDbCommandQualifies(command: TypeSymbol, extending: TypeSymbol)
    requires command.displayName == DbCommandInterfaceType
    requires extending.interfaces == [command]
    ensures IsIDbCommandOrDerived(Some(extending))
  {
    assert extending.interfaces[0].displayName == DbCommandInterfaceType;
  }

  /**
   * A class that reaches `IDbCommand` only through another interface does
   * not qualify: only the direct interfaces of each base type are looked at.
   */
  lemma IndirectDbCommandDoesNotQualify(command: TypeSymbol, extending: TypeSymbol, implementing: TypeSymbol)
    requires command.displayName == DbCommandInterfaceType
    requires extending.displayName != DbCommandInterfaceType && extending.interfaces == [command]
    requires implementing.displayName != DbCommandInterfaceType
    requires implementing.baseType == None && implementing.interfaces == [extending]
    ensures !IsIDbCommandOrDerived(Some(implementing))
  {
  }

  /** Null receivers never qualify. */
  lemma NullTypeDoesNotQualify()
    ensures !IsIDbCommandOrDerived(None)
  {
  }

  /** One member access is reported iff it is not exempt and its receiver type qualifies. */
  predicate IsReported(access: MemberAccess): (reported: bool)
    ensures reported ==> access.receiverType.Some?
  {
    !IsProviderSpecific(GetParentClassNode(Some(access.node))) && IsIDbCommandOrDerived(access.receiverType)
  }

  /** The diagnostics of the rule for a sequence of member accesses, in traversal order. */
  function Problems(accesses: seq<MemberAccess>): (problems: seq<Diagnostic>)
    ensures |problems| <= |accesses|
    ensures forall d :: d in problems ==> d.ruleId == RawSqlRuleId && d.messageArguments == []
    decreases |accesses|
  {
    if accesses == [] then []
    else
      var last := accesses[|accesses| - 1];
      Problems(accesses[..|accesses| - 1])
      + (if IsReported(last) then [Diagnostic(RawSqlRuleId, last.fullSpan, [])] else [])
  }

  /** `AnalyzeModel`: one pass over the member accesses, appending one diagnostic per reported one. */
  method AnalyzeModel(accesses: seq<MemberAccess>) returns (foundProblems: seq<Diagnostic>)
    ensures foundProblems == Problems(accesses)
  {
    foundProblems := [];
    for i := 0 to |accesses|
      invariant foundProblems == Problems(accesses[..i])
    {
      assert accesses[..i + 1][..i] == accesses[..i];
      var access := accesses[i];
      var parentClassName := GetParentClassNode(Some(access.node));
      if IsProviderSpecific(parentClassName) {
        continue;
      }
      if IsIDbCommandOrDerived(access.receiverType) {
        foundProblems := foundProblems + [Diagnostic(RawSqlRuleId, access.fullSpan, [])];
      }
    }
    assert accesses[..|accesses|] == accesses;
  }

  /** How many of the accesses are reported. */
  function ReportedCount(accesses: seq<MemberAccess>): nat
    decreases |accesses|
  {
    if accesses == [] then 0
    else ReportedCount(accesses[..|accesses| - 1]) + (if IsReported(accesses[|accesses| - 1]) then 1 else 0)
  }

  /**
   * Exactly one diagnostic per reported member access, at its full span, and
   * nothing else.
   */
  lemma {:induction false} ProblemsAreReportedAccesses(accesses: seq<MemberAccess>)
    ensures |Problems(accesses)| == ReportedCount(accesses) <= |accesses|
    ensures forall d :: d in Problems(accesses) <==>
              exists i :: 0 <= i < |accesses| && IsReported(accesses[i])
                          && d == Diagnostic(RawSqlRuleId, accesses[i].fullSpan, [])
    decreases |accesses|
  {
    if accesses != [] {
      var n := |accesses| - 1;
      ProblemsAreReportedAccesses(accesses[..n]);
      forall i | 0 <= i < n
        ensures accesses[..n][i] == accesses[i]
      {
      }
    }
  }

  /** An access directly inside a nested class with another name is checked even inside "SqlServer...". */
  lemma NearestClassDecides(outer: SyntaxNode, inner: SyntaxNode, access: SyntaxNode)
    requires outer.kind == ClassDeclaration("SqlServerRepository")
    requires inner == SyntaxNode(ClassDeclaration("Helper"), Some(outer))
    requires access == SyntaxNode(OtherSyntax, Some(inner))
    ensures GetParentClassNode(Some(access)) == "Helper"
    ensures !IsProviderSpecific(GetParentClassNode(Some(access)))
    ensures IsProviderSpecific(GetParentClassNode(Some(SyntaxNode(OtherSyntax, Some(outer)))))
  {
  }

  /** Code outside any class or record has the empty name and is never exempt. */
  lemma TopLevelCodeIsChecked(node: SyntaxNode)
    requires forall k :: 0 <= k < |Ancestry(Some(node))| ==> !IsTypeDeclaration(Ancestry(Some(node))[k])
    ensures GetParentClassNode(Some(node)) == ""
    ensures !IsProviderSpecific(GetParentClassNode(Some(node)))
  {
    NoParentClassGivesEmptyName(Some(node));
  }
}
