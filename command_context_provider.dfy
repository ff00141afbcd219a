/** The registry of the regex generation (CliHelper/Services/CommandContextProvider.cs): a list of
    command contexts that registration appends to and resolution reads. */
module CommandContextProvider {
  import opened Declarations
  import opened Resolution

  /** The methods registration keeps: public, declared on the type itself, and not a property
      accessor or operator. */
  predicate IsCommandMethod(m: MethodDecl) {
    m.isPublic && m.declaredHere && !m.isSpecialName
  }

  /** The contexts one registration of `t` appends. */
  function CommandContextsOf(t: ControllerType): seq<CommandContext> {
    ContextsAmong(t, t.methods, IsCommandMethod)
  }

  class ContextProvider {
    /** `_master`, the registered contexts in registration order. */
    var master: seq<CommandContext>

    constructor()
      ensures master == []
    {
      master := [];
    }

    /** `RegisterCommandContexts(type)`: appends the contexts of `t`'s command methods, one at a time. */
    method RegisterCommandContexts(t: ControllerType)
      modifies this
      ensures master == old(master) + CommandContextsOf(t)
    {
      var i := 0;
      while i < |t.methods|
        invariant 0 <= i <= |t.methods|
        invariant master == old(master) + ContextsAmong(t, t.methods[..i], IsCommandMethod)
      {
        var m := t.methods[i];
        ContextsAmongNext(t, t.methods, IsCommandMethod, i);
        if IsCommandMethod(m) {
          master := master + [CommandContext(t, t.alias, m, m.alias)];
        }
        i := i + 1;
      }
      assert t.methods[..i] == t.methods;
    }

    /** `ExtractCommandContext(ref args, configuration)`: resolution on the registry, which it
        leaves as it is (the narrowing works on a copy). */
    method ExtractCommandContext(args: string, configuration: Configuration) returns (r: Result<CommandContext>, rest: string)
      ensures (r, rest) == Resolve(master, configuration.requireControllerName, configuration.requireActionName, args)
    {
      var m := MatchCommandPrefix(master, args);
      rest := args[m.end..];
      if configuration.requireControllerName && m.controller == [] {
        return Failure(MissingControllerName), rest;
      }
      if configuration.requireActionName && m.action == [] {
        return Failure(MissingActionName), rest;
      }
      var filtered := Narrow(master, m.controller, m.action);
      if |filtered| == 0 {
        r := Failure(NoMatchingActions);
      } else if |filtered| == 1 {
        r := Success(filtered[0]);
      } else {
        r := Failure(NoSingleAction);
      }
    }
  }
}
