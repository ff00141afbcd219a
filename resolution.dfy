/** Command resolution of the regex generation, shared by ArgumentService.ExtractCommandContext and
    CommandContextProvider.ExtractCommandContext: the prefix pattern

        ^(?<Controller>c1|c2|...)? *(?<Action>a1|a2|...)? *

    (controller and action candidates each ordered by decreasing length, matched ignoring case) is
    cut from the front of the argument string, then the registry is narrowed to the contexts whose
    names equal what was matched. */
module Resolution {
  import opened Declarations
  import opened Text
  import opened Linq

  /** The name a context answers to as a controller: the type's alias, else the type name. */
  function ControllerName(c: CommandContext): string {
    c.typeAlias.GetOr(c.controllerType.name)
  }

  /** The name a context answers to as an action: the method's alias, else the method name. */
  function ActionName(c: CommandContext): string {
    c.methodAlias.GetOr(c.action.name)
  }

  predicate IsSpace(c: char) { c == ' ' }

  /** The groups of a match of the prefix pattern and where its parts lie in the argument string. */
  datatype CommandPrefix = CommandPrefix(controller: string, action: string, actionStart: nat, end: nat)

  /** The controller candidates, one per context (`Select(r => r.TypeAttribute?.Alias ?? r.Type.Name)`). */
  function ControllerNames(contexts: seq<CommandContext>): seq<string> {
    Select(contexts, ControllerName)
  }

  /** The action candidates, one per context, whichever controller it belongs to. */
  function ActionNames(contexts: seq<CommandContext>): seq<string> {
    Select(contexts, ActionName)
  }

  /** The match of the prefix pattern. Every part is optional, so there always is one (possibly
      empty): the controller group at the start, the spaces after it, the action group and the
      spaces after that. */
  function MatchCommandPrefix(contexts: seq<CommandContext>, args: string): (m: CommandPrefix)
    ensures |m.controller| <= m.actionStart && m.actionStart + |m.action| <= m.end <= |args|
    ensures forall k :: |m.controller| <= k < m.actionStart ==> args[k] == ' '
    ensures forall k :: m.actionStart + |m.action| <= k < m.end ==> args[k] == ' '
    ensures m.actionStart < |args| ==> args[m.actionStart] != ' '
    ensures m.end < |args| ==> args[m.end] != ' '
  {
    var controller := LongestMatchAt(ControllerNames(contexts), args, 0);
    LongestMatchAtBounds(ControllerNames(contexts), args, 0);
    var p := RunEnd(args, |controller|, IsSpace);
    var action := LongestMatchAt(ActionNames(contexts), args, p);
    LongestMatchAtBounds(ActionNames(contexts), args, p);
    var e := RunEnd(args, p + |action|, IsSpace);
    CommandPrefix(controller, action, p, e)
  }

  /** No alternative can be undone by a later failure, so each group holds the first candidate,
      in decreasing length order, found at its position: the controller group captures the
      longest registered controller name the text starts with, and the action group the longest
      action name after the spaces that follow it. */
  lemma MatchCommandPrefixIsLongest(contexts: seq<CommandContext>, args: string)
    ensures var m := MatchCommandPrefix(contexts, args);
            && IsLongestMatch(ControllerNames(contexts), args, 0, m.controller)
            && IsLongestMatch(ActionNames(contexts), args, m.actionStart, m.action)
  {
    var m := MatchCommandPrefix(contexts, args);
    LongestMatchAtIsLongest(ControllerNames(contexts), args, 0);
    LongestMatchAtIsLongest(ActionNames(contexts), args, m.actionStart);
  }


  /** What the two successive `Where` filters keep: contexts whose controller name equals the
      matched controller and whose action name equals the matched action, ignoring case; an empty
      group filters nothing. */
  predicate Selects(c: CommandContext, controller: string, action: string) {
    (controller == [] || EqualsIgnoreCase(ControllerName(c), controller))
    && (action == [] || EqualsIgnoreCase(ActionName(c), action))
  }

  function Selected(contexts: seq<CommandContext>, controller: string, action: string): seq<CommandContext> {
    Where(contexts, c => Selects(c, controller, action))
  }

  /** The narrowing as the source writes it: a copy, filtered by controller, then by action. */
  function Narrow(contexts: seq<CommandContext>, controller: string, action: string): seq<CommandContext> {
    var byController := if controller == [] then contexts
                        else Where(contexts, c => EqualsIgnoreCase(ControllerName(c), controller));
    if action == [] then byController
    else Where(byController, c => EqualsIgnoreCase(ActionName(c), action))
  }

  /** The two successive filters keep exactly the contexts `Selects` accepts, in registry order. */
  lemma NarrowIsSelected(contexts: seq<CommandContext>, controller: string, action: string)
    ensures Narrow(contexts, controller, action) == Selected(contexts, controller, action)
  {
    var sel := c => Selects(c, controller, action);
    if controller == [] && action == [] {
      WhereAll(contexts, sel);
    } else if controller == [] {
      WhereCongruent(contexts, c => EqualsIgnoreCase(ActionName(c), action), sel);
    } else if action == [] {
      WhereCongruent(contexts, c => EqualsIgnoreCase(ControllerName(c), controller), sel);
    } else {
      WhereWhere(contexts, c => EqualsIgnoreCase(ControllerName(c), controller),
                 c => EqualsIgnoreCase(ActionName(c), action), sel);
    }
  }

  /** The checks that follow the match of the prefix pattern, on its two groups. */
  function Decide(contexts: seq<CommandContext>, requireControllerName: bool, requireActionName: bool,
                  controller: string, action: string): (r: Result<CommandContext>)
    ensures r != Failure(NoPrefixMatch)
    ensures r == Failure(MissingControllerName) <==> requireControllerName && controller == []
    ensures r == Failure(MissingActionName) <==>
              !(requireControllerName && controller == []) && requireActionName && action == []
    ensures var passes := !(requireControllerName && controller == []) && !(requireActionName && action == []);
            && (r == Failure(NoMatchingActions) <==> passes && forall c :: c in contexts ==> !Selects(c, controller, action))
            && (r == Failure(NoSingleAction) <==> passes && |Selected(contexts, controller, action)| > 1)
            && (r.Success? <==> passes && |Selected(contexts, controller, action)| == 1)
    ensures r.Success? ==> r.value in contexts && Selects(r.value, controller, action)
  {
    if requireControllerName && controller == [] then Failure(MissingControllerName)
    else if requireActionName && action == [] then Failure(MissingActionName)
    else
      var filtered := Narrow(contexts, controller, action);
      NarrowIsSelected(contexts, controller, action);
      WhereEmpty(contexts, c => Selects(c, controller, action));
      if |filtered| == 0 then Failure(NoMatchingActions)
      else if |filtered| == 1 then Success(filtered[0])
      else Failure(NoSingleAction)
  }

  /** Resolution with the two `Require*` flags: the context, and the argument string with the
      matched prefix removed (the removal happens before any of the checks can fail). The prefix
      pattern always matches, so the "Could not find any action" branch is never taken. */
  function Resolve(contexts: seq<CommandContext>, requireControllerName: bool, requireActionName: bool, args: string)
    : (r: (Result<CommandContext>, string))
    ensures var m := MatchCommandPrefix(contexts, args);
            r.1 == args[m.end..]
    ensures r.0 != Failure(NoPrefixMatch)
    ensures var m := MatchCommandPrefix(contexts, args);
            r.0 == Failure(MissingControllerName) <==> requireControllerName && m.controller == []
    ensures var m := MatchCommandPrefix(contexts, args);
            r.0 == Failure(MissingActionName) <==>
              !(requireControllerName && m.controller == []) && requireActionName && m.action == []
    ensures var m := MatchCommandPrefix(contexts, args);
            var passes := !(requireControllerName && m.controller == []) && !(requireActionName && m.action == []);
            && (r.0 == Failure(NoMatchingActions) <==> passes && forall c :: c in contexts ==> !Selects(c, m.controller, m.action))
            && (r.0 == Failure(NoSingleAction) <==> passes && |Selected(contexts, m.controller, m.action)| > 1)
            && (r.0.Success? <==> passes && |Selected(contexts, m.controller, m.action)| == 1)
    ensures r.0.Success? ==> var m := MatchCommandPrefix(contexts, args);
            r.0.value in contexts && Selects(r.0.value, m.controller, m.action)
  {
    var m := MatchCommandPrefix(contexts, args);
    (Decide(contexts, requireControllerName, requireActionName, m.controller, m.action), args[m.end..])
  }

  /** What resolution promises whatever the flags: only a prefix of the argument string is
      removed, a context it returns is a registered one, and a missing name is reported only
      when it is required. */
  lemma ResolveOutline(contexts: seq<CommandContext>, requireControllerName: bool, requireActionName: bool, args: string)
    ensures var r := Resolve(contexts, requireControllerName, requireActionName, args);
            && IsSuffixOf(r.1, args)
            && r.0 != Failure(NoPrefixMatch)
            && (r.0.Success? ==> r.0.value in contexts)
            && (r.0 == Failure(MissingControllerName) ==> requireControllerName)
            && (r.0 == Failure(MissingActionName) ==> requireActionName)
  {
    var m := MatchCommandPrefix(contexts, args);
    assert Resolve(contexts, requireControllerName, requireActionName, args).1 == args[m.end..];
  }

  /** When exactly one registered context answers to the matched names, and it is registered
      once, the narrowing yields exactly that context. */
  lemma {:induction false} SelectedIsUnique(contexts: seq<CommandContext>, controller: string, action: string, c: CommandContext)
    requires c in contexts && Selects(c, controller, action)
    requires forall d :: d in contexts && Selects(d, controller, action) ==> d == c
    requires multiset(contexts)[c] == 1
    ensures Selected(contexts, controller, action) == [c]
    decreases |contexts|
  {
    var sel := c' => Selects(c', controller, action);
    if contexts[0] == c {
      assert c !in contexts[1..] by {
        assert contexts == [c] + contexts[1..];
        assert multiset(contexts) == multiset{c} + multiset(contexts[1..]);
      }
      WhereEmpty(contexts[1..], sel);
    } else {
      assert contexts == [contexts[0]] + contexts[1..];
      assert multiset(contexts[1..])[c] == 1 by {
        assert multiset(contexts) == multiset{contexts[0]} + multiset(contexts[1..]);
      }
      SelectedIsUnique(contexts[1..], controller, action, c);
    }
  }
}
