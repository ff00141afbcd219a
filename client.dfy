/** The builder-style entry point of the regex generation (CliHelper/Client.cs): controllers are
    registered into a service collection and a context registry, the collection is frozen into a
    provider by `Run`, and a command line is resolved and bound with the Client's own fixed binder
    (switch prefixes `--` and `/`, fixed true and false words). */
module Client {
  import opened Declarations
  import opened Text
  import opened Linq
  import opened Switches
  import opened Resolution
  import opened ArgumentService
  import opened CommandContextProvider

  /** `_trueStringValues`. */
  function TrueStringValues(): seq<string> { ["true", "yes", "y", "1"] }

  /** `_falseStringValues`. */
  function FalseStringValues(): seq<string> { ["false", "no", "n", "0"] }

  /** The binder vocabulary the Client's patterns are built from: the prefix alternatives `--|\/`
      in that order, and the two word lists. */
  function ClientVocabulary(): Vocabulary {
    Vocabulary(["--", "/"], TrueStringValues(), FalseStringValues())
  }

  /** The service type `Run` adds for the registry's context list. */
  const CommandContextsService: string := "System.Collections.Generic.List`1[CliHelper.CommandContext]"

  /** What `AddControllers(assembly)` keeps of an assembly's types: subclasses of `Controller`. */
  predicate DerivesController(t: ControllerType) { t.derivesController }

  /** `string.Join(' ', args)`. */
  function JoinWithSpace(args: seq<string>): string
    decreases |args|
  {
    if args == [] then []
    else if |args| == 1 then args[0]
    else JoinWithSpace(args[..|args| - 1]) + " " + args[|args| - 1]
  }

  /** The contexts `AddControllers(types)` registers, type after type. */
  function ContextsOfAll(types: seq<ControllerType>): seq<CommandContext>
    decreases |types|
  {
    if types == [] then [] else ContextsOfAll(types[..|types| - 1]) + CommandContextsOf(types[|types| - 1])
  }

  lemma ContextsOfAllNext(types: seq<ControllerType>, i: nat)
    requires i < |types|
    ensures ContextsOfAll(types[..i + 1]) == ContextsOfAll(types[..i]) + CommandContextsOf(types[i])
  {
    assert types[..i + 1][..i] == types[..i];
  }

  /** Registering several types registers exactly the command methods of those types: every
      context names one of the types and one of its command methods, and every command method of
      every type is registered. */
  lemma {:induction false} ContextsOfAllShape(types: seq<ControllerType>)
    ensures forall c :: c in ContextsOfAll(types) ==>
              c.controllerType in types && c.action in c.controllerType.methods && IsCommandMethod(c.action)
    ensures forall t, m :: t in types && m in t.methods && IsCommandMethod(m) ==> ContextFor(t, m) in ContextsOfAll(types)
    decreases |types|
  {
    if types != [] {
      var front := types[..|types| - 1];
      var last := types[|types| - 1];
      ContextsOfAllShape(front);
      ContextsAmongShape(last, last.methods, IsCommandMethod);
      assert types == front + [last];
      forall t, m | t in types && m in t.methods && IsCommandMethod(m)
        ensures ContextFor(t, m) in ContextsOfAll(types)
      {
        if t != last {
          assert t in front;
        }
      }
    }
  }

  /** `HandleCommandExecution(args)` up to the invocation: the resolved context and the values
      bound to its parameters. */
  function Execute(contexts: seq<CommandContext>, configuration: Configuration, provider: ServiceProvider,
                   lib: LibraryParser, args: string): Result<(CommandContext, seq<Value>)>
  {
    var (ctx, rest) := Resolve(contexts, configuration.requireControllerName, configuration.requireActionName, args);
    if ctx.Failure? then Failure(ctx.error)
    else if ctx.value.controllerType.name !in provider then Failure(ServiceNotRegistered(ctx.value.controllerType.name))
    else match MethodParameters(ClientVocabulary(), lib, provider, ctx.value.action.parameters, rest).0
      case Success(vals) => Success((ctx.value, vals))
      case Failure(e) => Failure(e)
  }

  /** A command executes only on the single registered context its prefix selects, whose
      controller the provider can build, with one argument per parameter of the action, each null
      or of the parameter's type; a resolution failure is reported as it is. */
  lemma ExecuteShape(contexts: seq<CommandContext>, configuration: Configuration, provider: ServiceProvider,
                     lib: LibraryParser, args: string)
    ensures var r := Execute(contexts, configuration, provider, lib, args);
            var m := MatchCommandPrefix(contexts, args);
            r.Success? ==>
              && r.value.0 in contexts && Selects(r.value.0, m.controller, m.action)
              && |Selected(contexts, m.controller, m.action)| == 1
              && r.value.0.controllerType.name in provider
              && SlotsFit(r.value.1, r.value.0.action.parameters)
  {
    var r := Execute(contexts, configuration, provider, lib, args);
    if r.Success? {
      var rest := ExecuteResolved(contexts, configuration, provider, lib, args);
      MethodParametersShape(ClientVocabulary(), lib, provider, r.value.0.action.parameters, rest);
    }
  }

  /** A successful execution ran on the resolved context, with the values bound from the rest of
      the command line. */
  lemma ExecuteResolved(contexts: seq<CommandContext>, configuration: Configuration, provider: ServiceProvider,
                        lib: LibraryParser, args: string) returns (rest: string)
    requires Execute(contexts, configuration, provider, lib, args).Success?
    ensures var r := Execute(contexts, configuration, provider, lib, args).value;
            var res := Resolve(contexts, configuration.requireControllerName, configuration.requireActionName, args);
            && res.0 == Success(r.0) && rest == res.1 && r.0.controllerType.name in provider
            && MethodParameters(ClientVocabulary(), lib, provider, r.0.action.parameters, rest).0 == Success(r.1)
  {
    rest := Resolve(contexts, configuration.requireControllerName, configuration.requireActionName, args).1;
  }

  /** A resolution failure is what the execution reports. */
  lemma ExecuteReportsResolutionFailure(contexts: seq<CommandContext>, configuration: Configuration, provider: ServiceProvider,
                                        lib: LibraryParser, args: string)
    requires Resolve(contexts, configuration.requireControllerName, configuration.requireActionName, args).0.Failure?
    ensures Execute(contexts, configuration, provider, lib, args)
            == Failure(Resolve(contexts, configuration.requireControllerName, configuration.requireActionName, args).0.error)
  {
  }

  /** Every switch the Client recognises, boolean or named, starts with `--` or `/` followed by
      the switch name, ignoring case. */
  lemma ClientSwitchStartsWithPrefix(t: TypeRef, name: string, args: string)
    requires Find(PatternFor(ClientVocabulary(), t, name), args, 0).Some?
    ensures var m := Find(PatternFor(ClientVocabulary(), t, name), args, 0).value;
            (StartsWithIgnoreCase(args, m.start, "--") && StartsWithIgnoreCase(args, m.start + 2, name))
            || (StartsWithIgnoreCase(args, m.start, "/") && StartsWithIgnoreCase(args, m.start + 1, name))
  {
    var p := SwitchPrefix(ClientVocabulary(), t, name, args, Find(PatternFor(ClientVocabulary(), t, name), args, 0).value.start);
    ClientPrefixCases(args, Find(PatternFor(ClientVocabulary(), t, name), args, 0).value.start, name, p);
  }

  lemma ClientPrefixCases(args: string, start: nat, name: string, p: string)
    requires p in ClientVocabulary().prefixes
    requires StartsWithIgnoreCase(args, start, p) && StartsWithIgnoreCase(args, start + |p|, name)
    ensures (StartsWithIgnoreCase(args, start, "--") && StartsWithIgnoreCase(args, start + 2, name))
            || (StartsWithIgnoreCase(args, start, "/") && StartsWithIgnoreCase(args, start + 1, name))
  {
  }

  /** The Client's boolean conversion: true exactly for the true words, false for the false words
      and, for a plain `bool`, for any other text; a `bool?` is null for any other text. The words
      are compared after lower-casing the text, so `YES` and `No` count too. */
  lemma ClientBooleanWords(lib: LibraryParser, nullable: bool, text: string)
    ensures var r := MasterConvertSimpleType(ClientVocabulary(), lib, BoolType(nullable), text);
            && (r == Success(Bool(true)) <==> ToLower(text) in TrueStringValues())
            && (r == Success(Bool(false)) <==> ToLower(text) in FalseStringValues() || (!nullable && ToLower(text) !in TrueStringValues()))
            && (r == Success(Null) <==> nullable && ToLower(text) !in TrueStringValues() + FalseStringValues())
  {
  }

  class Client {
    /** `_configuration`: the two `Require*` flags. */
    var configuration: Configuration
    /** `_serviceCollection`: the names of the registered service types. */
    var services: set<string>
    /** `_serviceProvider`: the collection as frozen by `Run`, absent before. */
    var serviceProvider: Option<ServiceProvider>
    /** `_commandContextProvider`. */
    const registry: ContextProvider

    /** `Client.Create()`: neither name required, nothing registered. */
    constructor()
      ensures configuration == Configuration(false, false) && services == {} && serviceProvider == None
      ensures fresh(registry) && registry.master == []
    {
      configuration := Configuration(false, false);
      services := {};
      serviceProvider := None;
      registry := new ContextProvider();
    }

    /** `AddControllers(params Type[] types)`: each type becomes a transient service and has its
        command contexts registered. */
    method AddControllers(types: seq<ControllerType>)
      modifies this, registry
      ensures services == old(services) + NamesOf(types)
      ensures registry.master == old(registry.master) + ContextsOfAll(types)
      ensures configuration == old(configuration) && serviceProvider == old(serviceProvider)
    {
      var i := 0;
      while i < |types|
        invariant 0 <= i <= |types|
        invariant services == old(services) + NamesOf(types[..i])
        invariant registry.master == old(registry.master) + ContextsOfAll(types[..i])
        invariant configuration == old(configuration) && serviceProvider == old(serviceProvider)
      {
        ContextsOfAllNext(types, i);
        NamesOfNext(types, i);
        AddController(types[i]);
        i := i + 1;
      }
      assert types[..i] == types;
    }

    /** One pass of the `AddControllers` loop. */
    method AddController(t: ControllerType)
      modifies this, registry
      ensures services == old(services) + {t.name}
      ensures registry.master == old(registry.master) + CommandContextsOf(t)
      ensures configuration == old(configuration) && serviceProvider == old(serviceProvider)
    {
      services := services + {t.name};
      registry.RegisterCommandContexts(t);
    }

    /** `AddControllers(Assembly assembly)`: the subclasses of `Controller` among the assembly's types. */
    method AddControllersOf(assembly: seq<ControllerType>)
      modifies this, registry
      ensures services == old(services) + NamesOf(Where(assembly, DerivesController))
      ensures registry.master == old(registry.master) + ContextsOfAll(Where(assembly, DerivesController))
      ensures configuration == old(configuration) && serviceProvider == old(serviceProvider)
    {
      AddControllers(Where(assembly, DerivesController));
    }

    /** `Configure(configure)`: the callback's effect, the new flags. */
    method Configure(flags: Configuration)
      modifies this
      ensures configuration == flags
      ensures services == old(services) && serviceProvider == old(serviceProvider)
    {
      configuration := flags;
    }

    /** `AddServices(configureServices)`: the callback's effect, the service types it adds. */
    method AddServices(added: set<string>)
      modifies this
      ensures services == old(services) + added
      ensures configuration == old(configuration) && serviceProvider == old(serviceProvider)
    {
      services := services + added;
    }

    /** The first half of `Run(args)`: registers the default controller and the context list,
        and freezes the services into the provider. */
    method Build(defaultController: ControllerType)
      modifies this, registry
      ensures registry.master == old(registry.master) + CommandContextsOf(defaultController)
      ensures services == old(services) + {defaultController.name, CommandContextsService}
      ensures serviceProvider == Some(services) && configuration == old(configuration)
    {
      AddController(defaultController);
      services := services + {CommandContextsService};
      serviceProvider := Some(services);
    }

    /** `Run(args)`: builds, then handles the joined arguments; with no arguments the interactive
        shell would start instead (`None`). */
    method Run(args: seq<string>, defaultController: ControllerType, lib: LibraryParser)
      returns (r: Option<Result<(CommandContext, seq<Value>)>>)
      modifies this, registry
      ensures registry.master == old(registry.master) + CommandContextsOf(defaultController)
      ensures services == old(services) + {defaultController.name, CommandContextsService}
      ensures serviceProvider == Some(services) && configuration == old(configuration)
      ensures r == if args == [] then None
                   else Some(Execute(registry.master, configuration, services, lib, JoinWithSpace(args)))
    {
      Build(defaultController);
      if args == [] {
        r := None;
      } else {
        var outcome := HandleCommandExecution(lib, JoinWithSpace(args));
        r := Some(outcome);
      }
    }

    /** `HandleCommandExecution(args)` up to the invocation: resolve, require the controller
        service, bind the parameters. */
    method HandleCommandExecution(lib: LibraryParser, args: string) returns (r: Result<(CommandContext, seq<Value>)>)
      requires serviceProvider.Some?
      ensures r == Execute(registry.master, configuration, serviceProvider.value, lib, args)
    {
      var ctx, rest := registry.ExtractCommandContext(args, configuration);
      if ctx.Failure? {
        return Failure(ctx.error);
      }
      var c := ctx.value;
      if c.controllerType.name !in serviceProvider.value {
        return Failure(ServiceNotRegistered(c.controllerType.name));
      }
      var values, _ := ExtractMethodParameters(lib, c.action, rest);
      if values.Failure? {
        return Failure(values.error);
      }
      r := Success((c, values.value));
    }

    /** `ExtractStronglyTypedInstance(targetType, ref args)` with the Client's vocabulary. */
    method ExtractStronglyTypedInstance(lib: LibraryParser, t: TypeRef, args: string) returns (r: Result<Value>, rest: string)
      requires serviceProvider.Some?
      ensures (r, rest) == StronglyTypedInstance(ClientVocabulary(), lib, serviceProvider.value, t, args)
    {
      r, rest := ArgumentService.ExtractStronglyTypedInstance(ClientVocabulary(), lib, serviceProvider.value, t, args);
    }

    /** `ExtractMethodParameters(method, ref args)` with the Client's vocabulary. */
    method ExtractMethodParameters(lib: LibraryParser, m: MethodDecl, args: string) returns (r: Result<seq<Value>>, rest: string)
      requires serviceProvider.Some?
      ensures (r, rest) == MethodParameters(ClientVocabulary(), lib, serviceProvider.value, m.parameters, args)
    {
      r, rest := ArgumentService.ExtractMethodParameters(ClientVocabulary(), lib, serviceProvider.value, m, args);
    }
  }
}
