/** The records that stand in for the reflected metadata of the command-line dispatch engine:
    controller types, their action methods and parameters, the scalar kinds the binder knows,
    the values it produces and the settings it consults. Reflection itself is not modelled:
    a host supplies these records directly. */
module Declarations {

  datatype Option<+T> = None | Some(value: T) {
    /** The value, or `default` when absent (C#'s `??`). */
    function GetOr(default: T): T {
      match this
      case Some(v) => v
      case None => default
    }
  }

  /** Every exception the engine can raise, one constructor per distinct message or exception type. */
  datatype Error =
    | MissingControllerName                                // "Must provide a valid controller name"
    | MissingActionName                                    // "Must provide a valid action name"
    | NoMatchingActions                                    // "Could not find any actions"
    | NoSingleAction                                       // "Could not find a single action"
    | NoPrefixMatch                                        // "Could not find any action" (the prefix pattern failed)
    | FormatError(text: string)                            // Parse failure: FormatException or OverflowException
    | CannotCreateInstance(typeName: string)               // Activator.CreateInstance on an abstract type or one without a parameterless constructor
    | NoMatchingController(controller: string)             // "Could not find a matching controller for ..."
    | NoMatchingAction(action: string, controller: string) // "Could not find a matching action for ..."
    | NoSingleMatch(action: string, controller: string)    // "Could not resolve a single action for ..."
    | NotACliController(typeName: string)                  // NotImplementedException in RegisterController
    | ControllerAlreadyAdded                               // ControllerAlreadyAddedException
    | SequenceContainsNoElements                           // First() on an empty list
    | UnresolvedParameter(parameterName: string)           // "Unable to resolve a ... for parameter ..."
    | ServiceNotRegistered(typeName: string)               // GetRequiredService on a type the provider does not know
    | PropertyNotSettable(propertyName: string)            // ArgumentException from SetValue on a property without a setter

  datatype Result<+T> = Success(value: T) | Failure(error: Error)

  /** Integer kinds, whose text form is parsed exactly (see module Numbers). */
  datatype IntKind = Byte | Short | Int | Long

  /** Kinds whose text form is parsed by the .NET library (floating point, decimal, culture-dependent formats). */
  datatype LibKind = Float | Double | Decimal | TimeSpan | DateTime

  datatype PrimKind = BoolKind | IntegerKind(intKind: IntKind) | LibraryKind(libKind: LibKind) | CharKind

  /** The declared type of a parameter or property. `Primitive(k, true)` is `Nullable<k>`. */
  datatype TypeRef =
    | StringType
    | Primitive(kind: PrimKind, nullable: bool)
    | TextReaderType
    | Complex(name: string, properties: seq<Target>, constructible: bool)   // constructible: has a public parameterless constructor

  /** A parameter of an action method, or a public property of a bound type: its declared name,
      the alias of its `[Cli]` attribute if any, its type, and, for a property, whether it has a
      set accessor (public or private; `SetValue` finds either). Parameters ignore `settable`. */
  datatype Target = Target(name: string, alias: Option<string>, declaredType: TypeRef, settable: bool)

  /** A method returned by `Type.GetMethods()`, with the reflection flags the registries filter on. */
  datatype MethodDecl = MethodDecl(
    name: string,
    alias: Option<string>,
    parameters: seq<Target>,
    isPublic: bool,
    declaredHere: bool,     // DeclaringType == the scanned type
    isSpecialName: bool)    // property accessors, operators

  /** A controller type: its name, the alias of its `[Cli]` attribute, which base class it derives
      from, and its methods in reflection order. */
  datatype ControllerType = ControllerType(
    name: string,
    alias: Option<string>,
    derivesController: bool,
    derivesCliController: bool,
    methods: seq<MethodDecl>)

  /** One registered (controller, action) pair. The same shape serves as `CommandContext`
      (regex generation) and `CliExecutionContext` (token-array generation). */
  datatype CommandContext = CommandContext(
    controllerType: ControllerType,
    typeAlias: Option<string>,
    action: MethodDecl,
    methodAlias: Option<string>)

  type CliExecutionContext = CommandContext

  /** The context registered for method `m` of type `t`, with both `[Cli]` aliases. */
  function ContextFor(t: ControllerType, m: MethodDecl): CommandContext {
    CommandContext(t, t.alias, m, m.alias)
  }

  /** The contexts a registration loop over the methods `ms` of `t` appends: one per method
      `keep` accepts, in order. */
  function ContextsAmong(t: ControllerType, ms: seq<MethodDecl>, keep: MethodDecl -> bool): seq<CommandContext>
    decreases |ms|
  {
    if ms == [] then []
    else ContextsAmong(t, ms[..|ms| - 1], keep) + (if keep(ms[|ms| - 1]) then [ContextFor(t, ms[|ms| - 1])] else [])
  }

  lemma ContextsAmongNext(t: ControllerType, ms: seq<MethodDecl>, keep: MethodDecl -> bool, i: nat)
    requires i < |ms|
    ensures ContextsAmong(t, ms[..i + 1], keep)
            == ContextsAmong(t, ms[..i], keep) + (if keep(ms[i]) then [ContextFor(t, ms[i])] else [])
  {
    assert ms[..i + 1][..i] == ms[..i];
  }

  /** A registration appends exactly the accepted methods of `t`: every context pairs `t` and its
      alias with an accepted method of `ms` and that method's alias, and every accepted method is
      registered. */
  lemma {:induction false} ContextsAmongShape(t: ControllerType, ms: seq<MethodDecl>, keep: MethodDecl -> bool)
    ensures var r := ContextsAmong(t, ms, keep);
            && |r| <= |ms|
            && (forall c :: c in r ==> c.controllerType == t && c.typeAlias == t.alias
                                       && c.action in ms && keep(c.action) && c.methodAlias == c.action.alias)
            && (forall m :: m in ms && keep(m) ==> ContextFor(t, m) in r)
    decreases |ms|
  {
    if ms != [] {
      var front := ms[..|ms| - 1];
      ContextsAmongShape(t, front, keep);
      assert ms == front + [ms[|ms| - 1]];
    }
  }

  /** The names of the types a registration loop over `types` adds to the service collection. */
  function NamesOf(types: seq<ControllerType>): set<string>
    decreases |types|
  {
    if types == [] then {} else NamesOf(types[..|types| - 1]) + {types[|types| - 1].name}
  }

  lemma NamesOfNext(types: seq<ControllerType>, i: nat)
    requires i < |types|
    ensures NamesOf(types[..i + 1]) == NamesOf(types[..i]) + {types[i].name}
  {
    assert types[..i + 1][..i] == types[..i];
  }

  /** A name is added exactly when one of the types has it. */
  lemma {:induction false} NamesOfMembership(types: seq<ControllerType>, n: string)
    ensures n in NamesOf(types) <==> exists t :: t in types && t.name == n
    decreases |types|
  {
    if types != [] {
      var front := types[..|types| - 1];
      NamesOfMembership(front, n);
      assert types == front + [types[|types| - 1]];
      if exists t :: t in types && t.name == n {
        var t :| t in types && t.name == n;
        if t != types[|types| - 1] {
          assert t in front;
        }
      }
    }
  }

  /** Where an object instance came from: the service provider, or a parameterless constructor. */
  datatype Origin = FromService | Constructed

  /** The boxed values the binder produces. */
  datatype Value =
    | Null
    | Str(s: string)
    | Bool(b: bool)
    | Integer(intKind: IntKind, n: int)
    | Library(libKind: LibKind, text: string)   // a value the library parsed from `text`
    | LibraryDefault(libKind: LibKind)          // default(T) of a library kind
    | CharDefault                               // default(char)
    | ConsoleIn                                 // the Console.In reader, an opaque token
    | Instance(instanceType: TypeRef, origin: Origin, props: map<string, Value>)
    | Bound(boundType: TypeRef, args: seq<string>)   // ArgumentHelper.Bind(type, args), kept abstract

  /** The library's acceptance of a text for a kind (float.TryParse, TimeSpan.TryParse, ...). */
  type LibraryParser = (LibKind, string) -> bool

  /** A built service provider: the names of the types it can resolve. */
  type ServiceProvider = set<string>

  /** The settings the settings-driven engine reads (the non-shell part of ISettings). */
  datatype Settings = Settings(
    requireControllerName: bool,
    requireActionName: bool,
    considerTrueStrings: seq<string>,
    considerFalseStrings: seq<string>,
    commandSwitchPrefixes: seq<string>)

  /** `IConfiguration` as the context provider reads it. */
  datatype Configuration = Configuration(requireControllerName: bool, requireActionName: bool)

  /** The range of each integer kind (`MinValue`, `MaxValue`). */
  function MinValue(k: IntKind): int {
    match k
    case Byte => 0
    case Short => -0x8000
    case Int => -0x8000_0000
    case Long => -0x8000_0000_0000_0000
  }

  function MaxValue(k: IntKind): int {
    match k
    case Byte => 0xFF
    case Short => 0x7FFF
    case Int => 0x7FFF_FFFF
    case Long => 0x7FFF_FFFF_FFFF_FFFF
  }

  predicate InRange(k: IntKind, n: int) {
    MinValue(k) <= n <= MaxValue(k)
  }

  function IntKindName(k: IntKind): string {
    match k
    case Byte => "System.Byte"
    case Short => "System.Int16"
    case Int => "System.Int32"
    case Long => "System.Int64"
  }

  function LibKindName(k: LibKind): string {
    match k
    case Float => "System.Single"
    case Double => "System.Double"
    case Decimal => "System.Decimal"
    case TimeSpan => "System.TimeSpan"
    case DateTime => "System.DateTime"
  }

  function PrimKindName(k: PrimKind): string {
    match k
    case BoolKind => "System.Boolean"
    case IntegerKind(ik) => IntKindName(ik)
    case LibraryKind(lk) => LibKindName(lk)
    case CharKind => "System.Char"
  }

  /** The full name a service provider keys a type by. */
  function TypeName(t: TypeRef): string {
    match t
    case StringType => "System.String"
    case Primitive(k, nullable) => if nullable then "System.Nullable`1[" + PrimKindName(k) + "]" else PrimKindName(k)
    case TextReaderType => "System.IO.TextReader"
    case Complex(name, _, _) => name
  }

  /** `IServiceProvider.GetService(t)`. */
  function GetService(provider: ServiceProvider, t: TypeRef): Option<Value> {
    if TypeName(t) in provider then Some(Instance(t, FromService, map[])) else None
  }

  /** The properties `GetProperties()` yields for a type: declared ones for complex types; the
      reflection properties of framework types are not modelled. */
  function PropertiesOf(t: TypeRef): seq<Target> {
    if t.Complex? then t.properties else []
  }

  /** The switch name of a parameter or property: its alias, else its declared name. */
  function SwitchName(target: Target): string {
    target.alias.GetOr(target.name)
  }

  function BoolType(nullable: bool): TypeRef { Primitive(BoolKind, nullable) }

  function IntType(k: IntKind, nullable: bool): TypeRef { Primitive(IntegerKind(k), nullable) }

  function LibType(k: LibKind, nullable: bool): TypeRef { Primitive(LibraryKind(k), nullable) }

  /** A non-null value that a parameter or property of type `t` can hold. */
  predicate Fits(v: Value, t: TypeRef) {
    match v
    case Null => false
    case Str(_) => t == StringType
    case Bool(_) => t.Primitive? && t.kind == BoolKind
    case Integer(k, n) => t.Primitive? && t.kind == IntegerKind(k) && InRange(k, n)
    case Library(k, _) => t.Primitive? && t.kind == LibraryKind(k)
    case LibraryDefault(k) => t.Primitive? && t.kind == LibraryKind(k)
    case CharDefault => t.Primitive? && t.kind == CharKind
    case ConsoleIn => t == TextReaderType
    case Instance(it, _, _) => it == t
    case Bound(bt, _) => bt == t
  }

  predicate IsBoolType(t: TypeRef) {
    t.Primitive? && t.kind == BoolKind
  }
}
