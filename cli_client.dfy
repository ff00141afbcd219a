/** The token-array generation of the engine (CliHelper/CliClient.cs): controllers are registered
    by reflection over their public methods, the first two tokens name the controller and the
    action, compared with their reference names ignoring case, and the remaining tokens are bound
    to the action's parameters by position. */
module CliClient {
  import opened Declarations
  import opened Text
  import opened Linq
  import opened Extensions
  import opened ArgumentHelper

  /** `CliArguments`: what `ArgumentHelper.ParseCliArguments` makes of the tokens. */
  datatype CliArguments = CliArguments(controller: string, action: string, remaining: seq<string>)

  /** `ResolveControllerReference`: the `[Cli]` alias of the controller, else its type name with
      every occurrence of "CliController" and then of "Controller" removed. */
  function ControllerReference(c: CliExecutionContext): string {
    c.typeAlias.GetOr(RemoveAll(RemoveAll(c.controllerType.name, "CliController"), "Controller"))
  }

  /** `ResolveActionReference`: the `[Cli]` alias of the action, else the method name. */
  function ActionReference(c: CliExecutionContext): string {
    c.methodAlias.GetOr(c.action.name)
  }

  /** `pat` occurs nowhere in `s`. */
  predicate Lacks(s: string, pat: string) {
    forall i :: 0 <= i <= |s| ==> !OccursAt(s, pat, i)
  }

  /** Without an alias, a type named `a + "Controller" + b` is referred to as `a + b`: the word is
      removed wherever it stands, not only as a suffix. */
  lemma ControllerReferenceRemovesWord(c: CliExecutionContext, a: string, b: string)
    requires c.typeAlias.None? && c.controllerType.name == a + "Controller" + b
    requires Lacks(c.controllerType.name, "CliController")
    requires forall i :: 0 <= i < |a| ==> !OccursAt(c.controllerType.name, "Controller", i)
    requires Lacks(b, "Controller")
    ensures ControllerReference(c) == a + b
  {
    RemoveAllWithoutOccurrence(c.controllerType.name, "CliController");
    RemoveAllSplits(a, "Controller", b);
    RemoveAllWithoutOccurrence(b, "Controller");
    assert a + RemoveAll(b, "Controller") == a + b;
  }

  /** Without an alias, a type named `stem + "CliController"` is referred to as `stem`. */
  lemma ControllerReferenceRemovesCliController(c: CliExecutionContext, stem: string)
    requires c.typeAlias.None? && c.controllerType.name == stem + "CliController"
    requires forall i :: 0 <= i < |stem| ==> !OccursAt(c.controllerType.name, "CliController", i)
    requires Lacks(stem, "Controller")
    ensures ControllerReference(c) == stem
  {
    var name := c.controllerType.name;
    assert stem + "CliController" + [] == name;
    RemoveAllSplits(stem, "CliController", []);
    assert RemoveAll([], "CliController") == [];
    assert RemoveAll(name, "CliController") == stem;
    RemoveAllWithoutOccurrence(stem, "Controller");
  }

  /** An alias, when present, is the reference, whatever the type and method are called. */
  lemma ReferencesPreferAliases(c: CliExecutionContext)
    ensures c.typeAlias.Some? ==> ControllerReference(c) == c.typeAlias.value
    ensures c.methodAlias.Some? ==> ActionReference(c) == c.methodAlias.value
    ensures c.methodAlias.None? ==> ActionReference(c) == c.action.name
  {
  }

  /** A context refers to the controller name `name` (ignoring case). */
  predicate RefersToController(c: CliExecutionContext, name: string) {
    EqualsIgnoreCase(ControllerReference(c), name)
  }

  /** A context answers the parsed arguments: both of its references equal the parsed names,
      ignoring case. */
  predicate Answers(c: CliExecutionContext, cli: CliArguments) {
    RefersToController(c, cli.controller) && EqualsIgnoreCase(ActionReference(c), cli.action)
  }

  /** The contexts that answer the parsed arguments, in registration order. */
  function Answering(contexts: seq<CliExecutionContext>, cli: CliArguments): seq<CliExecutionContext> {
    Where(contexts, c => Answers(c, cli))
  }

  /** `GetCliExecutionContext(cliArguments)`: filter by controller reference, then by action
      reference, and require a single survivor. */
  function GetCliExecutionContext(contexts: seq<CliExecutionContext>, cli: CliArguments): Result<CliExecutionContext> {
    var byController := Where(contexts, c => RefersToController(c, cli.controller));
    if byController == [] then Failure(NoMatchingController(cli.controller))
    else
      var byAction := Where(byController, c => EqualsIgnoreCase(ActionReference(c), cli.action));
      if byAction == [] then Failure(NoMatchingAction(cli.action, cli.controller))
      else if Many(byAction) then Failure(NoSingleMatch(cli.action, cli.controller))
      else Success(byAction[0])
  }

  /** The three errors are told apart exactly: no context refers to the controller; some does,
      but none of them to the action; several answer both. Otherwise the single answering
      context is returned. */
  lemma GetCliExecutionContextOutcome(contexts: seq<CliExecutionContext>, cli: CliArguments)
    ensures var r := GetCliExecutionContext(contexts, cli);
            && ((r == Failure(NoMatchingController(cli.controller)))
                  <==> (forall c :: c in contexts ==> !RefersToController(c, cli.controller)))
            && ((r == Failure(NoMatchingAction(cli.action, cli.controller)))
                  <==> (!(forall c :: c in contexts ==> !RefersToController(c, cli.controller))
                        && forall c :: c in contexts ==> !Answers(c, cli)))
            && (r == Failure(NoSingleMatch(cli.action, cli.controller)) <==> |Answering(contexts, cli)| > 1)
            && (r.Success? <==> |Answering(contexts, cli)| == 1)
            && (r.Success? ==> r.value == Answering(contexts, cli)[0] && r.value in contexts && Answers(r.value, cli))
  {
    WhereEmpty(contexts, c => RefersToController(c, cli.controller));
    WhereWhere(contexts, c => RefersToController(c, cli.controller),
               c => EqualsIgnoreCase(ActionReference(c), cli.action), c => Answers(c, cli));
    WhereEmpty(contexts, c => Answers(c, cli));
  }

  // ---------------------------------------------------------------------------------------------
  // The positional binder of Run<T>.

  /** The types a token is required for: `bool, short, int, long, float, double, decimal`. */
  function RequiredTypes(): seq<TypeRef> {
    [BoolType(false), IntType(Short, false), IntType(Int, false), IntType(Long, false),
     LibType(Float, false), LibType(Double, false), LibType(Decimal, false)]
  }

  /** The types a token is taken for when one is left, null otherwise: `string` and the nullable
      forms of `bool, short, int, long, float, double, decimal`. */
  function OptionalTypes(): seq<TypeRef> {
    [StringType, BoolType(true), IntType(Short, true), IntType(Int, true), IntType(Long, true),
     LibType(Float, true), LibType(Double, true), LibType(Decimal, true)]
  }

  /** The state of the binding loop: the values so far (or the exception), how many remaining
      tokens the enumerator has consumed, and whether the loop was left by `break`. */
  datatype BindState = BindState(values: Result<seq<Value>>, consumed: nat, stopped: bool)

  /** One pass of the binding loop for parameter `p`. */
  function BindStep(lib: LibraryParser, provider: ServiceProvider, remaining: seq<string>, acc: BindState, p: Target): BindState {
    if acc.values.Failure? || acc.stopped then acc
    else
      var t := p.declaredType;
      var vals := acc.values.value;
      if In(t, RequiredTypes()) || In(t, OptionalTypes()) then
        if acc.consumed < |remaining| then
          match ConvertValue(lib, t, Some(remaining[acc.consumed]))
          case Success(v) => BindState(Success(vals + [v]), acc.consumed + 1, false)
          case Failure(e) => BindState(Failure(e), acc.consumed + 1, false)
        else if In(t, RequiredTypes()) then BindState(Failure(UnresolvedParameter(p.name)), acc.consumed, false)
        else BindState(Success(vals + [Null]), acc.consumed, false)
      else
        match GetService(provider, t)
        case Some(service) => BindState(Success(vals + [service]), acc.consumed, false)
        case None => BindState(Success(vals + [Bound(t, remaining)]), acc.consumed, true)
  }

  /** The binding loop over the parameters `ps`, from no values and an unread enumerator. */
  function Positional(lib: LibraryParser, provider: ServiceProvider, remaining: seq<string>, ps: seq<Target>): BindState
    decreases |ps|
  {
    if ps == [] then BindState(Success([]), 0, false)
    else BindStep(lib, provider, remaining, Positional(lib, provider, remaining, ps[..|ps| - 1]), ps[|ps| - 1])
  }

  lemma PositionalNext(lib: LibraryParser, provider: ServiceProvider, remaining: seq<string>, ps: seq<Target>, i: nat)
    requires i < |ps|
    ensures Positional(lib, provider, remaining, ps[..i + 1])
            == BindStep(lib, provider, remaining, Positional(lib, provider, remaining, ps[..i]), ps[i])
  {
    assert ps[..i + 1][..i] == ps[..i];
  }

  /** Once the loop has thrown or broken off, the later parameters change nothing. */
  lemma {:induction false} PositionalSettled(lib: LibraryParser, provider: ServiceProvider, remaining: seq<string>, ps: seq<Target>, i: nat)
    requires i <= |ps|
    requires var s := Positional(lib, provider, remaining, ps[..i]); s.values.Failure? || s.stopped
    ensures Positional(lib, provider, remaining, ps) == Positional(lib, provider, remaining, ps[..i])
    decreases |ps| - i
  {
    if i == |ps| {
      assert ps[..i] == ps;
    } else {
      PositionalNext(lib, provider, remaining, ps, i);
      PositionalSettled(lib, provider, remaining, ps, i + 1);
    }
  }

  /** A bound value: null only for a parameter of a nullable type, otherwise a value of the
      parameter's type. */
  predicate SlotFits(v: Value, t: TypeRef) {
    if v == Null then t in NullableTypes() else Fits(v, t)
  }

  /** What a successful binding produces: one value per parameter up to the one that broke the
      loop, each fitting its parameter; the loop breaks only after binding `Bind`'s model of all
      remaining tokens, and it runs to the end otherwise; the enumerator never reads past the end. */
  predicate BoundShape(s: BindState, ps: seq<Target>, remaining: seq<string>)
    requires s.values.Success?
  {
    var vals := s.values.value;
    && |vals| <= |ps| && s.consumed <= |remaining|
    && (forall k :: 0 <= k < |vals| ==> SlotFits(vals[k], ps[k].declaredType))
    && (!s.stopped ==> |vals| == |ps|)
    && (s.stopped ==> vals != [] && vals[|vals| - 1] == Bound(ps[|vals| - 1].declaredType, remaining))
  }

  /** The optional types are all in the nullable list, so a missing token gives them null. */
  lemma OptionalTypesAreNullable(t: TypeRef)
    requires In(t, OptionalTypes())
    ensures t in NullableTypes()
  {
    InIsMembership(t, OptionalTypes());
    NullableTypesMembership(t);
  }

  /** A parameter taking a token, with a token left: the converted token is appended. */
  lemma BindConvertedSlot(lib: LibraryParser, provider: ServiceProvider, remaining: seq<string>, acc: BindState, p: Target)
    returns (v: Value)
    requires acc.values.Success? && !acc.stopped && acc.consumed < |remaining|
    requires In(p.declaredType, RequiredTypes()) || In(p.declaredType, OptionalTypes())
    requires BindStep(lib, provider, remaining, acc, p).values.Success?
    ensures BindStep(lib, provider, remaining, acc, p) == BindState(Success(acc.values.value + [v]), acc.consumed + 1, false)
    ensures SlotFits(v, p.declaredType)
  {
    var c := ConvertValue(lib, p.declaredType, Some(remaining[acc.consumed]));
    v := c.value;
  }

  /** An optional parameter with no token left: null is appended. */
  lemma BindMissingSlot(lib: LibraryParser, provider: ServiceProvider, remaining: seq<string>, acc: BindState, p: Target)
    requires acc.values.Success? && !acc.stopped && acc.consumed >= |remaining|
    requires In(p.declaredType, RequiredTypes()) || In(p.declaredType, OptionalTypes())
    requires BindStep(lib, provider, remaining, acc, p).values.Success?
    ensures BindStep(lib, provider, remaining, acc, p) == BindState(Success(acc.values.value + [Null]), acc.consumed, false)
    ensures SlotFits(Null, p.declaredType)
  {
    OptionalTypesAreNullable(p.declaredType);
  }

  /** Any other parameter: the service, or else `Bind`'s value, which breaks the loop. */
  lemma BindOtherSlot(lib: LibraryParser, provider: ServiceProvider, remaining: seq<string>, acc: BindState, p: Target)
    returns (v: Value)
    requires acc.values.Success? && !acc.stopped
    requires !(In(p.declaredType, RequiredTypes()) || In(p.declaredType, OptionalTypes()))
    ensures var s := BindStep(lib, provider, remaining, acc, p);
            && s.values == Success(acc.values.value + [v]) && s.consumed == acc.consumed
            && SlotFits(v, p.declaredType)
            && (s.stopped ==> v == Bound(p.declaredType, remaining))
  {
    var t := p.declaredType;
    var vals := acc.values.value;
    var service := GetService(provider, t);
    if service.Some? {
      v := service.value;
      assert BindStep(lib, provider, remaining, acc, p) == BindState(Success(vals + [v]), acc.consumed, false);
    } else {
      v := Bound(t, remaining);
      assert BindStep(lib, provider, remaining, acc, p) == BindState(Success(vals + [v]), acc.consumed, true);
    }
  }

  /** One pass on a running loop appends exactly one value, which fits the parameter; it breaks
      only after appending `Bind`'s value; the enumerator stays within the tokens. */
  lemma BindStepSlot(lib: LibraryParser, provider: ServiceProvider, remaining: seq<string>, acc: BindState, p: Target)
    returns (v: Value)
    requires acc.values.Success? && !acc.stopped && acc.consumed <= |remaining|
    requires BindStep(lib, provider, remaining, acc, p).values.Success?
    ensures var s := BindStep(lib, provider, remaining, acc, p);
            && s.values.value == acc.values.value + [v]
            && SlotFits(v, p.declaredType)
            && s.consumed <= |remaining|
            && (s.stopped ==> v == Bound(p.declaredType, remaining))
  {
    if !(In(p.declaredType, RequiredTypes()) || In(p.declaredType, OptionalTypes())) {
      v := BindOtherSlot(lib, provider, remaining, acc, p);
    } else if acc.consumed < |remaining| {
      v := BindConvertedSlot(lib, provider, remaining, acc, p);
    } else {
      BindMissingSlot(lib, provider, remaining, acc, p);
      v := Null;
    }
  }

  /** One pass for a parameter that requires a token: it succeeds only by converting the next
      token. */
  lemma BindStepRequired(lib: LibraryParser, provider: ServiceProvider, remaining: seq<string>, acc: BindState, p: Target)
    requires acc.values.Success? && !acc.stopped
    requires p.declaredType in RequiredTypes()
    ensures var s := BindStep(lib, provider, remaining, acc, p);
            s.values.Success? ==>
              && acc.consumed < |remaining|
              && s == BindState(Success(acc.values.value + [s.values.value[|acc.values.value|]]), acc.consumed + 1, false)
              && Success(s.values.value[|acc.values.value|])
                   == ConvertValue(lib, p.declaredType, Some(remaining[acc.consumed]))
  {
    InIsMembership(p.declaredType, RequiredTypes());
  }

  /** One pass keeps the shape of a successful binding. */
  lemma BindStepShape(lib: LibraryParser, provider: ServiceProvider, remaining: seq<string>, acc: BindState, front: seq<Target>, p: Target)
    requires acc.values.Success? ==> BoundShape(acc, front, remaining)
    requires acc.values.Success? && acc.stopped ==> |front| > 0
    ensures var s := BindStep(lib, provider, remaining, acc, p);
            s.values.Success? ==> BoundShape(s, if acc.stopped then front else front + [p], remaining)
  {
    var s := BindStep(lib, provider, remaining, acc, p);
    if s.values.Success? && !acc.stopped {
      var vals := acc.values.value;
      var ps := front + [p];
      var v := BindStepSlot(lib, provider, remaining, acc, p);
      forall k | 0 <= k < |s.values.value| ensures SlotFits(s.values.value[k], ps[k].declaredType) {
        if k < |vals| {
          assert s.values.value[k] == vals[k] && ps[k] == front[k];
        }
      }
    }
  }

  /** Every successful binding has the shape `BoundShape` describes. */
  lemma {:induction false} PositionalShape(lib: LibraryParser, provider: ServiceProvider, remaining: seq<string>, ps: seq<Target>)
    ensures var s := Positional(lib, provider, remaining, ps);
            s.values.Success? ==> BoundShape(s, ps, remaining)
    decreases |ps|
  {
    if ps != [] {
      var front := ps[..|ps| - 1];
      var acc := Positional(lib, provider, remaining, front);
      PositionalShape(lib, provider, remaining, front);
      BindStepShape(lib, provider, remaining, acc, front, ps[|ps| - 1]);
      assert front + [ps[|ps| - 1]] == ps;
    }
  }

  /** When every parameter requires a token, binding is purely positional: it succeeds only if
      there are at least as many remaining tokens as parameters, and then parameter `k` holds the
      conversion of token `k`. */
  lemma {:induction false} RequiredBindingIsPositional(lib: LibraryParser, provider: ServiceProvider, remaining: seq<string>, ps: seq<Target>)
    requires forall k :: 0 <= k < |ps| ==> ps[k].declaredType in RequiredTypes()
    ensures var s := Positional(lib, provider, remaining, ps);
            s.values.Success? ==>
              && !s.stopped && s.consumed == |ps| <= |remaining| && |s.values.value| == |ps|
              && forall k :: 0 <= k < |ps| ==>
                   Success(s.values.value[k]) == ConvertValue(lib, ps[k].declaredType, Some(remaining[k]))
    decreases |ps|
  {
    if ps != [] {
      var front := ps[..|ps| - 1];
      var p := ps[|ps| - 1];
      RequiredBindingIsPositional(lib, provider, remaining, front);
      var acc := Positional(lib, provider, remaining, front);
      var s := Positional(lib, provider, remaining, ps);
      if s.values.Success? {
        assert acc.values.Success? && !acc.stopped;
        BindStepRequired(lib, provider, remaining, acc, p);
        var vals := acc.values.value;
        forall k | 0 <= k < |ps|
          ensures Success(s.values.value[k]) == ConvertValue(lib, ps[k].declaredType, Some(remaining[k]))
        {
          if k < |front| {
            assert s.values.value[k] == vals[k] && ps[k] == front[k];
          }
        }
      }
    }
  }

  /** The binding loop of `Run<T>`: an enumerator over the remaining tokens and a growing list of
      values; a parameter that is neither required nor optional and is not a service is bound by
      `Bind` to all remaining tokens, and the loop breaks. */
  method BindParameters(lib: LibraryParser, provider: ServiceProvider, ps: seq<Target>, remaining: seq<string>)
    returns (r: Result<seq<Value>>)
    ensures r == Positional(lib, provider, remaining, ps).values
  {
    var values: seq<Value> := [];
    var consumed := 0;
    var i := 0;
    while i < |ps|
      invariant 0 <= i <= |ps|
      invariant Positional(lib, provider, remaining, ps[..i]) == BindState(Success(values), consumed, false)
    {
      PositionalNext(lib, provider, remaining, ps, i);
      var t := ps[i].declaredType;
      if In(t, RequiredTypes()) || In(t, OptionalTypes()) {
        if consumed < |remaining| {
          var parsed := ConvertValue(lib, t, Some(remaining[consumed]));
          consumed := consumed + 1;
          if parsed.Failure? {
            PositionalSettled(lib, provider, remaining, ps, i + 1);
            return Failure(parsed.error);
          }
          values := values + [parsed.value];
        } else if In(t, RequiredTypes()) {
          PositionalSettled(lib, provider, remaining, ps, i + 1);
          return Failure(UnresolvedParameter(ps[i].name));
        } else {
          values := values + [Null];
        }
      } else {
        var service := GetService(provider, t);
        if service.Some? {
          values := values + [service.value];
        } else {
          values := values + [Bound(t, remaining)];
          PositionalSettled(lib, provider, remaining, ps, i + 1);
          return Success(values);
        }
      }
      i := i + 1;
    }
    assert ps[..i] == ps;
    r := Success(values);
  }

  /** `Run<T>(args)` up to the invocation: insert the primary controller, parse, resolve, bind,
      then require the controller as a service. */
  function Dispatch(contexts: seq<CliExecutionContext>, primary: Option<string>, provider: ServiceProvider,
                    args: seq<string>, insert: (seq<string>, string) -> seq<string>,
                    parse: seq<string> -> CliArguments, lib: LibraryParser): Result<(CliExecutionContext, seq<Value>)>
  {
    var cli := parse(if primary.Some? then insert(args, primary.value) else args);
    match GetCliExecutionContext(contexts, cli)
    case Failure(e) => Failure(e)
    case Success(ctx) =>
      match Positional(lib, provider, cli.remaining, ctx.action.parameters).values
      case Failure(e) => Failure(e)
      case Success(vals) =>
        if ctx.controllerType.name in provider then Success((ctx, vals))
        else Failure(ServiceNotRegistered(ctx.controllerType.name))
  }

  /** A dispatch succeeds only on the single context answering the parsed arguments (parsed
      after the primary controller, if any, was inserted), whose controller the provider can
      build, with values fitting the parameters as `BoundShape` describes. */
  lemma DispatchShape(contexts: seq<CliExecutionContext>, primary: Option<string>, provider: ServiceProvider,
                      args: seq<string>, insert: (seq<string>, string) -> seq<string>,
                      parse: seq<string> -> CliArguments, lib: LibraryParser)
    ensures var r := Dispatch(contexts, primary, provider, args, insert, parse, lib);
            var cli := parse(if primary.Some? then insert(args, primary.value) else args);
            r.Success? ==>
              && Answering(contexts, cli) == [r.value.0] && r.value.0 in contexts
              && r.value.0.controllerType.name in provider
              && BoundShape(Positional(lib, provider, cli.remaining, r.value.0.action.parameters),
                            r.value.0.action.parameters, cli.remaining)
              && Positional(lib, provider, cli.remaining, r.value.0.action.parameters).values == Success(r.value.1)
  {
    var cli := parse(if primary.Some? then insert(args, primary.value) else args);
    GetCliExecutionContextOutcome(contexts, cli);
    var ctx := GetCliExecutionContext(contexts, cli);
    if ctx.Success? {
      PositionalShape(lib, provider, cli.remaining, ctx.value.action.parameters);
      var answering := Answering(contexts, cli);
      assert answering == [answering[0]];
    }
  }

  // ---------------------------------------------------------------------------------------------
  // Registration.

  /** The methods `RegisterController` turns into actions: public and declared by the type itself
      (property accessors included). */
  predicate IsActionMethod(m: MethodDecl) {
    m.isPublic && m.declaredHere
  }

  predicate DerivesCliController(t: ControllerType) {
    t.derivesCliController
  }

  /** The contexts `RegisterController(t)` appends. */
  function ActionContextsOf(t: ControllerType): seq<CliExecutionContext> {
    ContextsAmong(t, t.methods, IsActionMethod)
  }

  /** The contexts registering each of `types` in turn appends. */
  function ActionContextsOfAll(types: seq<ControllerType>): seq<CliExecutionContext>
    decreases |types|
  {
    if types == [] then [] else ActionContextsOfAll(types[..|types| - 1]) + ActionContextsOf(types[|types| - 1])
  }

  lemma ActionContextsOfAllNext(types: seq<ControllerType>, i: nat)
    requires i < |types|
    ensures ActionContextsOfAll(types[..i + 1]) == ActionContextsOfAll(types[..i]) + ActionContextsOf(types[i])
  {
    assert types[..i + 1][..i] == types[..i];
  }

  class CliClient {
    /** `_cliExecutionContexts`: the registered (controller, action) pairs, in order. */
    var contexts: seq<CliExecutionContext>
    /** `_serviceCollection`: the names of the registered service types. */
    var services: set<string>
    /** `_serviceProvider`: the collection as last built, absent before the first build. */
    var serviceProvider: Option<ServiceProvider>
    /** `_primaryControllerOverride`. */
    var primary: Option<string>

    /** The registration modes exclude each other: once a primary controller is set, every
        context belongs to that one controller, and the override is its reference. */
    predicate Valid()
      reads this
    {
      primary.Some? ==>
        && contexts != []
        && primary.value == ControllerReference(contexts[0])
        && forall c :: c in contexts ==> c.controllerType == contexts[0].controllerType
    }

    /** `CliClient.Create()`: nothing registered, no provider, no primary controller. */
    constructor Create()
      ensures contexts == [] && services == {} && serviceProvider == None && primary == None
      ensures Valid()
    {
      contexts := [];
      services := {};
      serviceProvider := None;
      primary := None;
    }

    /** `RegisterController(controllerType)`: a type that does not derive from `CliController` is
        rejected before anything changes; otherwise one context per action method is appended,
        in order, and the type becomes a transient service. Private in the source: an internal
        step of `AddControllers` and `AddPrimaryController`, which establish `Valid()` around it;
        it leaves `primary` as it was. */
    method RegisterController(t: ControllerType) returns (r: Result<()>)
      modifies this
      ensures !DerivesCliController(t) ==> r == Failure(NotACliController(t.name)) && unchanged(this)
      ensures DerivesCliController(t) ==>
                && r == Success(())
                && contexts == old(contexts) + ActionContextsOf(t)
                && services == old(services) + {t.name}
                && serviceProvider == old(serviceProvider) && primary == old(primary)
    {
      if !DerivesCliController(t) {
        return Failure(NotACliController(t.name));
      }
      var i := 0;
      while i < |t.methods|
        invariant 0 <= i <= |t.methods|
        invariant contexts == old(contexts) + ContextsAmong(t, t.methods[..i], IsActionMethod)
        invariant services == old(services) && serviceProvider == old(serviceProvider) && primary == old(primary)
      {
        ContextsAmongNext(t, t.methods, IsActionMethod, i);
        var m := t.methods[i];
        if IsActionMethod(m) {
          contexts := contexts + [ContextFor(t, m)];
        }
        i := i + 1;
      }
      assert t.methods[..i] == t.methods;
      services := services + {t.name};
      r := Success(());
    }

    /** The `foreach` of `RegisterAssembly`: each type registered in turn. An internal step of
        `AddControllers`, which establishes `Valid()` around it. */
    method RegisterAll(types: seq<ControllerType>)
      requires forall k :: 0 <= k < |types| ==> DerivesCliController(types[k])
      modifies this
      ensures contexts == old(contexts) + ActionContextsOfAll(types)
      ensures services == old(services) + NamesOf(types)
      ensures serviceProvider == old(serviceProvider) && primary == old(primary)
    {
      var i := 0;
      while i < |types|
        invariant 0 <= i <= |types|
        invariant contexts == old(contexts) + ActionContextsOfAll(types[..i])
        invariant services == old(services) + NamesOf(types[..i])
        invariant serviceProvider == old(serviceProvider) && primary == old(primary)
      {
        ActionContextsOfAllNext(types, i);
        NamesOfNext(types, i);
        var registered := RegisterController(types[i]);
        i := i + 1;
      }
      assert types[..i] == types;
    }

    /** `RegisterAssembly(assembly)`: every subclass of `CliController` among the types, in order.
        Private in the source: an internal step of `AddControllers`, which calls it only while no
        primary controller is set. */
    method RegisterAssembly(assembly: seq<ControllerType>)
      modifies this
      ensures contexts == old(contexts) + ActionContextsOfAll(Where(assembly, DerivesCliController))
      ensures services == old(services) + NamesOf(Where(assembly, DerivesCliController))
      ensures serviceProvider == old(serviceProvider) && primary == old(primary)
    {
      RegisterAll(Where(assembly, DerivesCliController));
    }

    /** `AddControllers(assembly)`: refused once a primary controller is set. */
    method AddControllers(assembly: seq<ControllerType>) returns (r: Result<()>)
      requires Valid()
      modifies this
      ensures Valid()
      ensures old(primary).Some? ==> r == Failure(ControllerAlreadyAdded) && unchanged(this)
      ensures old(primary).None? ==>
                && r == Success(())
                && contexts == old(contexts) + ActionContextsOfAll(Where(assembly, DerivesCliController))
                && services == old(services) + NamesOf(Where(assembly, DerivesCliController))
                && serviceProvider == old(serviceProvider) && primary == None
    {
      if primary.Some? {
        return Failure(ControllerAlreadyAdded);
      }
      RegisterAssembly(assembly);
      r := Success(());
    }

    /** `AddPrimaryController(controllerType)`: refused once any context is registered; the
        override becomes the reference of the first context registered, and a controller without
        actions makes `First()` throw (after its registration took effect). */
    method AddPrimaryController(t: ControllerType) returns (r: Result<()>)
      requires Valid()
      modifies this
      ensures Valid()
      ensures old(contexts) != [] ==> r == Failure(ControllerAlreadyAdded) && unchanged(this)
      ensures old(contexts) == [] && !DerivesCliController(t) ==> r == Failure(NotACliController(t.name)) && unchanged(this)
      ensures old(contexts) == [] && DerivesCliController(t) ==>
                && contexts == ActionContextsOf(t)
                && services == old(services) + {t.name} && serviceProvider == old(serviceProvider)
                && (contexts == [] ==> r == Failure(SequenceContainsNoElements) && primary == None)
                && (contexts != [] ==> r == Success(()) && primary == Some(ControllerReference(contexts[0])))
    {
      if |contexts| > 0 {
        return Failure(ControllerAlreadyAdded);
      }
      r := RegisterController(t);
      if r.Failure? {
        return;
      }
      if contexts == [] {
        return Failure(SequenceContainsNoElements);
      }
      ContextsAmongShape(t, t.methods, IsActionMethod);
      primary := Some(ControllerReference(contexts[0]));
    }

    /** `AddServices(addServices)`: the callback's effect, the service types it adds, then the
        provider is built from the collection. */
    method AddServices(added: set<string>)
      requires Valid()
      modifies this
      ensures Valid()
      ensures services == old(services) + added && serviceProvider == Some(services)
      ensures contexts == old(contexts) && primary == old(primary)
    {
      services := services + added;
      serviceProvider := Some(services);
    }

    /** `Run<T>(args)` up to the invocation: builds the provider if there is none yet, then
        dispatches with it. */
    method Run(args: seq<string>, insert: (seq<string>, string) -> seq<string>,
               parse: seq<string> -> CliArguments, lib: LibraryParser)
      returns (r: Result<(CliExecutionContext, seq<Value>)>)
      requires Valid()
      modifies this
      ensures Valid()
      ensures serviceProvider == if old(serviceProvider).None? then Some(old(services)) else old(serviceProvider)
      ensures contexts == old(contexts) && services == old(services) && primary == old(primary)
      ensures r == Dispatch(contexts, primary, serviceProvider.value, args, insert, parse, lib)
    {
      if serviceProvider.None? {
        serviceProvider := Some(services);
      }
      var tokens := args;
      if primary.Some? {
        tokens := insert(args, primary.value);
      }
      var cli := parse(tokens);
      var ctx := GetCliExecutionContext(contexts, cli);
      if ctx.Failure? {
        return Failure(ctx.error);
      }
      var values := BindParameters(lib, serviceProvider.value, ctx.value.action.parameters, cli.remaining);
      if values.Failure? {
        return Failure(values.error);
      }
      if ctx.value.controllerType.name !in serviceProvider.value {
        return Failure(ServiceNotRegistered(ctx.value.controllerType.name));
      }
      r := Success((ctx.value, values.value));
    }
  }
}
