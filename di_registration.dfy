/**
 * Recognition of dependency-injection registration calls such as
 * `ServiceCollectionServiceExtensions.AddScoped<Foo>(services)`, which
 * registers its first type argument, over an abstract view of the bound
 * method and its arguments. A call with no arguments at all is never one
 * (`EmptyArgumentListIsRejected`).
 */
module DiRegistration {
  import opened Wrappers
  import opened Text
  import opened ClassRegistry

  /** The method an invocation binds to, as far as the recogniser looks at it. */
  datatype MethodSymbol = MethodSymbol(
    name: string,
    isExtensionMethod: bool,
    hasContainingType: bool,
    parameterTypes: seq<string>,              // display strings of the parameter types
    typeArguments: seq<Option<ClassSymbol>>)  // each type argument, if it is a named type

  /** An argument expression: `typeof(T)` (with T resolved if it is a named type) or anything else. */
  datatype Argument = TypeOfArgument(resolvedType: Option<ClassSymbol>) | OtherArgument

  /** An extension method whose first parameter's type mentions `IServiceCollection`. */
  predicate IsServiceCollectionExtensionMethod(methodSymbol: MethodSymbol): (recognised: bool)
    ensures recognised ==> |methodSymbol.parameterTypes| > 0
                           && |methodSymbol.parameterTypes[0]| >= |"IServiceCollection"|
  {
    methodSymbol.isExtensionMethod
    && methodSymbol.hasContainingType
    && |methodSymbol.parameterTypes| > 0
    && Contains(methodSymbol.parameterTypes[0], "IServiceCollection")
  }

  /** The name test for registration methods. */
  predicate IsDiRegistrationMethodName(methodName: string): (recognised: bool)
    ensures recognised ==> |methodName| >= |"Scoped"|
  {
    StartsWith(methodName, "Add")
    && (Contains(methodName, "Scoped")
        || Contains(methodName, "Singleton")
        || Contains(methodName, "Transient")
        || methodName == "AddService"
        || methodName == "TryAddService")
  }

  /**
   * The class a DI registration call registers, or None when the call is not
   * one (`IsDependencyInjectionRegistration` returning false).
   */
  function RegisteredType(target: Option<MethodSymbol>, arguments: seq<Argument>): (registered: Option<ClassSymbol>)
    ensures registered.Some? ==>
              && target.Some?
              && IsServiceCollectionExtensionMethod(target.value)
              && IsDiRegistrationMethodName(target.value.name)
              && |arguments| > 0
    ensures registered.Some? && |target.value.typeArguments| > 0 ==>
              target.value.typeArguments[0] == registered
    ensures registered.Some? && |target.value.typeArguments| == 0 ==>
              arguments[0] == TypeOfArgument(registered)
  {
    if target.None? then None
    else if !IsServiceCollectionExtensionMethod(target.value) then None
    else if !IsDiRegistrationMethodName(target.value.name) then None
    else if |arguments| == 0 then None
    else if |target.value.typeArguments| > 0 then target.value.typeArguments[0]
    else match arguments[0]
      case TypeOfArgument(t) => t
      case OtherArgument => None
  }

  /**
   * The name test is exactly: prefix "Add" and a lifetime keyword, or the name
   * "AddService". The "TryAddService" alternative can never succeed.
   */
  lemma DiRegistrationMethodNameCharacterisation(methodName: string)
    ensures IsDiRegistrationMethodName(methodName)
        <==> (StartsWith(methodName, "Add")
              && (Contains(methodName, "Scoped")
                  || Contains(methodName, "Singleton")
                  || Contains(methodName, "Transient")))
             || methodName == "AddService"
    ensures !IsDiRegistrationMethodName("TryAddService")
  {
    assert "TryAddService"[..3] != "Add" by { assert "TryAddService"[..3][0] == 'T'; }
    assert StartsWith("AddService", "Add") by { assert "AddService"[..3] == "Add"; }
  }

  /** A recognised registration call with no arguments at all yields no reference. */
  lemma EmptyArgumentListIsRejected(target: Option<MethodSymbol>)
    ensures RegisteredType(target, []) == None
  {
  }

  /** Without type arguments, only a `typeof(T)` first argument names the registered class. */
  lemma TypeOfArgumentIsUsedWithoutTypeArguments(methodSymbol: MethodSymbol, t: ClassSymbol, rest: seq<Argument>)
    requires IsServiceCollectionExtensionMethod(methodSymbol) && IsDiRegistrationMethodName(methodSymbol.name)
    requires |methodSymbol.typeArguments| == 0
    ensures RegisteredType(Some(methodSymbol), [TypeOfArgument(Some(t))] + rest) == Some(t)
    ensures RegisteredType(Some(methodSymbol), [OtherArgument] + rest) == None
  {
  }

  /** With type arguments, the first one is registered, whatever the arguments are. */
  lemma FirstTypeArgumentIsUsed(methodSymbol: MethodSymbol, arguments: seq<Argument>)
    requires IsServiceCollectionExtensionMethod(methodSymbol) && IsDiRegistrationMethodName(methodSymbol.name)
    requires |methodSymbol.typeArguments| > 0 && |arguments| > 0
    ensures RegisteredType(Some(methodSymbol), arguments) == methodSymbol.typeArguments[0]
  {
  }
}
