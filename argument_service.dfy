/** The settings-driven binder of the regex generation (CliHelper/Services/ArgumentService.cs):
    switch extraction, scalar conversion, and the fallback chain that fills an action's parameters.
    The Client (module Client) runs the same binder with a fixed vocabulary. */
module ArgumentService {
  import opened Declarations
  import opened Text
  import opened Numbers
  import opened Switches
  import opened Resolution

  /** What a binder recognises: switch prefixes in the order its patterns list them, and the words
      that mean true and false. */
  datatype Vocabulary = Vocabulary(prefixes: seq<string>, trueStrings: seq<string>, falseStrings: seq<string>)

  /** The vocabulary of the settings: prefixes escaped and ordered by decreasing length. */
  function SettingsVocabulary(settings: Settings): Vocabulary {
    Vocabulary(SortByLengthDesc(settings.commandSwitchPrefixes), settings.considerTrueStrings, settings.considerFalseStrings)
  }

  /** `ExtractCommandContext(ref args)` with the two `Require*` settings: the argument string
      loses only a prefix, a context it returns is a registered one, and the prefix pattern never
      fails to match. */
  function ExtractCommandContext(settings: Settings, contexts: seq<CommandContext>, args: string)
    : (r: (Result<CommandContext>, string))
    ensures IsSuffixOf(r.1, args)
    ensures r.0 != Failure(NoPrefixMatch)
    ensures r.0.Success? ==> r.0.value in contexts
    ensures r.0 == Failure(MissingControllerName) ==> settings.requireControllerName
    ensures r.0 == Failure(MissingActionName) ==> settings.requireActionName
  {
    ResolveOutline(contexts, settings.requireControllerName, settings.requireActionName, args);
    Resolve(contexts, settings.requireControllerName, settings.requireActionName, args)
  }

  /** `Activator.CreateInstance(t)`: the default of a value type (null for a nullable one), a new
      object of a class with a parameterless constructor, and an exception otherwise. */
  function DefaultInstance(t: TypeRef): (r: Result<Value>)
    ensures r.Success? && r.value != Null ==> Fits(r.value, t)
    ensures r == Success(Null) <==> t.Primitive? && t.nullable
    ensures r.Failure? <==> t == StringType || t == TextReaderType || (t.Complex? && !t.constructible)
  {
    match t
    case StringType => Failure(CannotCreateInstance(TypeName(t)))
    case TextReaderType => Failure(CannotCreateInstance(TypeName(t)))
    case Complex(_, _, constructible) =>
      if constructible then Success(Instance(t, Constructed, map[])) else Failure(CannotCreateInstance(TypeName(t)))
    case Primitive(kind, nullable) =>
      if nullable then Success(Null)
      else match kind
        case BoolKind => Success(Bool(false))
        case IntegerKind(k) => Success(Integer(k, 0))
        case LibraryKind(k) => Success(LibraryDefault(k))
        case CharKind => Success(CharDefault)
  }

  /** `MasterConvertSimpleType(targetType, stringValue)`. */
  function MasterConvertSimpleType(voc: Vocabulary, lib: LibraryParser, t: TypeRef, text: string): (r: Result<Value>)
    ensures r.Success? && r.value != Null ==> Fits(r.value, t)
    ensures r.Failure? ==> r.error == FormatError(text) && t.Primitive? && !t.nullable
    ensures t == StringType ==> r == Success(Str(text))
    ensures IsBoolType(t) ==>
              r == Success(if ToLower(text) in voc.trueStrings then Bool(true)
                           else if ToLower(text) in voc.falseStrings then Bool(false)
                           else if t.nullable then Null else Bool(false))
    ensures t.Primitive? && t.kind.IntegerKind? ==>
              match ParseInteger(t.kind.intKind, text)
              case Some(n) => r == Success(Integer(t.kind.intKind, n))
              case None => r == if t.nullable then Success(Null) else Failure(FormatError(text))
    ensures t.Primitive? && t.kind.LibraryKind? ==>
              r == if lib(t.kind.libKind, text) then Success(Library(t.kind.libKind, text))
                   else if t.nullable then Success(Null) else Failure(FormatError(text))
    ensures t == TextReaderType || t.Complex? || (t.Primitive? && t.kind == CharKind) ==> r == Success(Null)
  {
    match t
    case StringType => Success(Str(text))
    case Primitive(BoolKind, _) =>
      var lower := ToLower(text);
      if lower in voc.trueStrings then Success(Bool(true))
      else if lower in voc.falseStrings then Success(Bool(false))
      else DefaultInstance(t)
    case Primitive(IntegerKind(k), nullable) =>
      (match ParseInteger(k, text)
       case Some(n) => Success(Integer(k, n))
       case None => if nullable then Success(Null) else Failure(FormatError(text)))
    case Primitive(LibraryKind(k), nullable) =>
      if lib(k, text) then Success(Library(k, text))
      else if nullable then Success(Null) else Failure(FormatError(text))
    case Primitive(CharKind, _) => Success(Null)
    case TextReaderType => Success(Null)
    case Complex(_, _, _) => Success(Null)
  }

  /** Every in-range integer written by `ToString()` converts back to itself, for the plain and the
      nullable kind; out of range, the plain kind fails and the nullable one yields null. */
  lemma ConvertIntegerRoundTrip(voc: Vocabulary, lib: LibraryParser, k: IntKind, nullable: bool, n: int)
    ensures MasterConvertSimpleType(voc, lib, IntType(k, nullable), IntToString(n)) ==
              if InRange(k, n) then Success(Integer(k, n))
              else if nullable then Success(Null) else Failure(FormatError(IntToString(n)))
  {
    ParseIntegerRoundTrip(k, n);
  }

  /** `ExtractSpecialInstance(t)`: the console reader for `TextReader`, null for anything else. */
  function ExtractSpecialInstance(t: TypeRef): (r: Value)
    ensures r != Null <==> t == TextReaderType
    ensures r != Null ==> Fits(r, t)
  {
    if t == TextReaderType then ConsoleIn else Null
  }

  /** The pattern `ExtractSimpleTypeInstance` builds: the boolean one for `bool` and `bool?`, the
      named one for everything else. */
  function PatternFor(voc: Vocabulary, t: TypeRef, name: string): SwitchPattern {
    if IsBoolType(t) then BooleanPattern(voc.prefixes, name, voc.trueStrings, voc.falseStrings)
    else NamedSwitch(voc.prefixes, name)
  }

  /** A switch the binder recognises starts with one of the vocabulary's prefixes, `p`, followed
      by the switch name, ignoring case. */
  lemma SwitchPrefix(voc: Vocabulary, t: TypeRef, name: string, args: string, i: nat) returns (p: string)
    requires i <= |args| && MatchAt(PatternFor(voc, t, name), args, i).Some?
    ensures p in voc.prefixes && StartsWithIgnoreCase(args, i, p) && StartsWithIgnoreCase(args, i + |p|, name)
  {
    p := MatchAtPrefix(PatternFor(voc, t, name), args, i);
  }

  /** `ExtractSimpleTypeInstance(t, name, ref args)`: the converted value of the first switch for
      `name` (null when there is none) and the argument string with every match of the pattern
      removed. */
  function ExtractSimpleTypeInstance(voc: Vocabulary, lib: LibraryParser, t: TypeRef, name: string, args: string)
    : (r: (Result<Value>, string))
    ensures r.0.Success? && r.0.value != Null ==> Fits(r.0.value, t)
    ensures r.0.Failure? ==> !IsBoolType(t)
    ensures |r.1| <= |args|
    ensures Find(PatternFor(voc, t, name), args, 0).None? ==> r == (Success(Null), args)
    ensures Find(PatternFor(voc, t, name), args, 0).Some? ==> r.1 == ReplaceAll(PatternFor(voc, t, name), args, 0)
    ensures IsBoolType(t) ==>
              match Find(PatternFor(voc, t, name), args, 0)
              case Some(SwitchMatch(_, _, None)) => r.0 == Success(Bool(true))
              case Some(SwitchMatch(_, _, Some(lit))) => r.0 == MasterConvertSimpleType(voc, lib, t, lit)
              case None => true
    ensures !IsBoolType(t) ==>
              match Find(PatternFor(voc, t, name), args, 0)
              case Some(m) => m.value.Some?
                              && r.0 == MasterConvertSimpleType(voc, lib, t, Trim(m.value.value, IsValueTrimmed))
              case None => true
  {
    var pat := PatternFor(voc, t, name);
    match Find(pat, args, 0)
    case None => (Success(Null), args)
    case Some(m) =>
      var rest := ReplaceAll(pat, args, 0);
      if IsBoolType(t) then
        match m.value
        case Some(lit) => (MasterConvertSimpleType(voc, lib, t, lit), rest)
        case None => (Success(Bool(true)), rest)
      else
        (MasterConvertSimpleType(voc, lib, t, Trim(m.value.value, IsValueTrimmed)), rest)
  }

  /** A named switch's value, as converted, never holds '-' or a quote and neither starts nor ends
      with a space. */
  lemma NamedValueIsClean(voc: Vocabulary, t: TypeRef, name: string, args: string)
    requires !IsBoolType(t) && Find(PatternFor(voc, t, name), args, 0).Some?
    ensures var v := Trim(Find(PatternFor(voc, t, name), args, 0).value.value.value, IsValueTrimmed);
            (forall c :: c in v ==> c != '-' && c != '"' && c != '\'')
            && (v == [] || (v[0] != ' ' && v[|v| - 1] != ' '))
  {
    var m := Find(PatternFor(voc, t, name), args, 0).value;
    assert MatchAt(PatternFor(voc, t, name), args, m.start) == Some(m);
    TrimmedValueChars(m.value.value);
  }

  /** A boolean switch's literal is a longest true or false word found right after the separator
      run: words are tried longest first and need no boundary after them. */
  lemma BooleanLiteralIsLongest(voc: Vocabulary, name: string, args: string, q: nat)
    requires q <= |args|
    requires FirstMatchAt(SortByLengthDesc(voc.trueStrings + voc.falseStrings), args, q).Some?
    ensures var lit := FirstMatchAt(SortByLengthDesc(voc.trueStrings + voc.falseStrings), args, q).value;
            lit in voc.trueStrings + voc.falseStrings
            && forall w :: w in voc.trueStrings + voc.falseStrings && StartsWithIgnoreCase(args, q, w) ==> |w| <= |lit|
  {
    var words := voc.trueStrings + voc.falseStrings;
    SortByLengthDescCorrect(words);
    SortKeepsElements(words);
    FirstMatchOnSortedIsLongest(SortByLengthDesc(words), args, q);
  }

  /** `property.SetValue(instance, value)`. */
  function SetProperty(inst: Value, name: string, v: Value): Value {
    if inst.Instance? then inst.(props := inst.props[name := v]) else inst
  }

  /** The value one property or parameter gets from the switches: the simple value, else the
      special instance. */
  function SwitchValue(voc: Vocabulary, lib: LibraryParser, p: Target, args: string): (r: (Result<Value>, string))
    ensures r.0.Success? && r.0.value != Null ==> Fits(r.0.value, p.declaredType)
    ensures |r.1| <= |args|
  {
    var (v, rest) := ExtractSimpleTypeInstance(voc, lib, p.declaredType, SwitchName(p), args);
    if v == Success(Null) then (Success(ExtractSpecialInstance(p.declaredType)), rest) else (v, rest)
  }

  /** One pass of the property loop: a property whose switch value is not null is set on the
      instance, and `SetValue` throws when the property has no setter; a failure ends the loop. */
  function PropertyStep(voc: Vocabulary, lib: LibraryParser, acc: (Result<Value>, string), p: Target)
    : (r: (Result<Value>, string))
    ensures |r.1| <= |acc.1|
  {
    if acc.0.Failure? then acc
    else
      var (v, rest) := SwitchValue(voc, lib, p, acc.1);
      if v.Failure? then (Failure(v.error), rest)
      else if v.value == Null then (acc.0, rest)
      else if !p.settable then (Failure(PropertyNotSettable(p.name)), rest)
      else (Success(SetProperty(acc.0.value, p.name, v.value)), rest)
  }

  /** The property loop of `ExtractStronglyTypedInstance` over `props`, from `inst`. */
  function SetProperties(voc: Vocabulary, lib: LibraryParser, props: seq<Target>, inst: Value, args: string)
    : (r: (Result<Value>, string))
    ensures |r.1| <= |args|
    decreases |props|
  {
    if props == [] then (Success(inst), args)
    else PropertyStep(voc, lib, SetProperties(voc, lib, props[..|props| - 1], inst, args), props[|props| - 1])
  }

  lemma SetPropertiesNext(voc: Vocabulary, lib: LibraryParser, props: seq<Target>, i: nat, inst: Value, args: string)
    requires i < |props|
    ensures SetProperties(voc, lib, props[..i + 1], inst, args)
            == PropertyStep(voc, lib, SetProperties(voc, lib, props[..i], inst, args), props[i])
  {
    assert props[..i + 1][..i] == props[..i];
  }

  /** One pass of the property loop sets the property to its own switch value exactly when that
      value is not null and the property has a setter, throws when it has none, leaves the object
      alone when the value is null, and ends the loop with the exception when the extraction
      throws; the argument string is what the extraction left. */
  lemma PropertyStepAssigns(voc: Vocabulary, lib: LibraryParser, acc: (Result<Value>, string), p: Target)
    requires acc.0.Success? && acc.0.value.Instance?
    ensures var r := PropertyStep(voc, lib, acc, p);
            var (v, rest) := SwitchValue(voc, lib, p, acc.1);
            var inst := acc.0.value;
            && r.1 == rest
            && (v.Failure? ==> r.0 == Failure(v.error))
            && (v == Success(Null) ==> r.0 == acc.0)
            && (v.Success? && v.value != Null && !p.settable ==> r.0 == Failure(PropertyNotSettable(p.name)))
            && (v.Success? && v.value != Null && p.settable ==>
                  r.0 == Success(Instance(inst.instanceType, inst.origin, inst.props[p.name := v.value])))
  {
  }

  /** The property loop keeps the object's type and origin, and assigns only properties of the
      type, and only non-null values. */
  lemma {:induction false} SetPropertiesAssignsNonNull(voc: Vocabulary, lib: LibraryParser, props: seq<Target>, inst: Value, args: string)
    requires inst.Instance?
    ensures var r := SetProperties(voc, lib, props, inst, args).0;
            r.Success? ==>
              && r.value.Instance? && r.value.instanceType == inst.instanceType && r.value.origin == inst.origin
              && (forall k :: k in r.value.props && k !in inst.props ==> r.value.props[k] != Null && exists p :: p in props && p.name == k)
              && inst.props.Keys <= r.value.props.Keys
              && (forall k :: k in inst.props && r.value.props[k] != inst.props[k] ==> r.value.props[k] != Null)
    decreases |props|
  {
    if props != [] {
      var front := props[..|props| - 1];
      SetPropertiesAssignsNonNull(voc, lib, front, inst, args);
      var acc := SetProperties(voc, lib, front, inst, args).0;
      if acc.Success? {
        var p := props[|props| - 1];
        PropertyStepAssigns(voc, lib, SetProperties(voc, lib, front, inst, args), p);
        var r := SetProperties(voc, lib, props, inst, args).0;
        if r.Success? {
          forall k | k in r.value.props && k !in inst.props
            ensures r.value.props[k] != Null && exists p :: p in props && p.name == k
          {
            if k in acc.value.props {
              var q :| q in front && q.name == k;
              assert q in props;
            } else {
              assert props[|props| - 1] in props;
            }
          }
        }
      }
    }
  }

  /** The switch value the `i`-th property gets, from the argument string the earlier properties
      left behind. */
  function PropertySwitchValue(voc: Vocabulary, lib: LibraryParser, props: seq<Target>, i: nat, inst: Value, args: string)
    : Result<Value>
    requires i < |props|
  {
    SwitchValue(voc, lib, props[i], SetProperties(voc, lib, props[..i], inst, args).1).0
  }

  /** No later property of the list has the same name as the `i`-th. */
  predicate LastNamed(props: seq<Target>, i: nat) {
    i < |props| && forall j :: i < j < |props| ==> props[j].name != props[i].name
  }

  /** Dropping a later property changes no earlier property's switch value. */
  lemma PropertySwitchValueFront(voc: Vocabulary, lib: LibraryParser, props: seq<Target>, i: nat, inst: Value, args: string)
    requires i < |props| - 1
    ensures PropertySwitchValue(voc, lib, props, i, inst, args) == PropertySwitchValue(voc, lib, props[..|props| - 1], i, inst, args)
  {
    assert props[..i] == props[..|props| - 1][..i];
  }

  /** A pass for another property leaves property `k` as it was. */
  lemma PropertyStepKeepsOther(voc: Vocabulary, lib: LibraryParser, acc: (Result<Value>, string), p: Target, k: string)
    requires acc.0.Success? && acc.0.value.Instance? && p.name != k
    ensures var r := PropertyStep(voc, lib, acc, p).0;
            r.Success? ==>
              && r.value.Instance?
              && (k in r.value.props <==> k in acc.0.value.props)
              && (k in acc.0.value.props ==> r.value.props[k] == acc.0.value.props[k])
  {
    PropertyStepAssigns(voc, lib, acc, p);
  }

  /** The last pass of the loop sets its property to that property's own switch value when it
      is not null, and fails when that property has no setter. */
  lemma SetPropertiesLastAssigns(voc: Vocabulary, lib: LibraryParser, props: seq<Target>, inst: Value, args: string)
    requires inst.Instance? && props != []
    ensures var r := SetProperties(voc, lib, props, inst, args).0;
            var v := PropertySwitchValue(voc, lib, props, |props| - 1, inst, args);
            v.Success? && v.value != Null ==>
              && (!props[|props| - 1].settable ==> r.Failure?)
              && (r.Success? ==>
                    && props[|props| - 1].settable && r.value.Instance?
                    && props[|props| - 1].name in r.value.props && r.value.props[props[|props| - 1].name] == v.value)
  {
    var front := props[..|props| - 1];
    var acc := SetProperties(voc, lib, front, inst, args);
    if acc.0.Success? {
      SetPropertiesAssignsNonNull(voc, lib, front, inst, args);
      PropertyStepAssigns(voc, lib, acc, props[|props| - 1]);
    }
  }

  /** When the `i`-th property's own switch value is not null, the property loop throws if that
      property has no setter, and otherwise, when no later property has the same name, leaves the
      property holding exactly that value. */
  lemma {:induction false} SetPropertiesAssignsOwnValue(voc: Vocabulary, lib: LibraryParser, props: seq<Target>, i: nat, inst: Value, args: string)
    requires inst.Instance? && i < |props| && LastNamed(props, i)
    ensures var r := SetProperties(voc, lib, props, inst, args).0;
            var v := PropertySwitchValue(voc, lib, props, i, inst, args);
            v.Success? && v.value != Null ==>
              && (!props[i].settable ==> r.Failure?)
              && (r.Success? ==>
                    && props[i].settable && r.value.Instance?
                    && props[i].name in r.value.props && r.value.props[props[i].name] == v.value)
    decreases |props|
  {
    var n := |props|;
    if i == n - 1 {
      SetPropertiesLastAssigns(voc, lib, props, inst, args);
    } else {
      var front := props[..n - 1];
      var acc := SetProperties(voc, lib, front, inst, args);
      var r := SetProperties(voc, lib, props, inst, args).0;
      assert r == PropertyStep(voc, lib, acc, props[n - 1]).0;
      if acc.0.Success? {
        assert LastNamed(front, i);
        PropertySwitchValueFront(voc, lib, props, i, inst, args);
        SetPropertiesAssignsOwnValue(voc, lib, front, i, inst, args);
        SetPropertiesAssignsNonNull(voc, lib, front, inst, args);
        PropertyStepKeepsOther(voc, lib, acc, props[n - 1], props[i].name);
      } else {
        assert r.Failure?;
      }
    }
  }

  /** When every switch value for `k` is null, so is every one before the last property, and so
      is the last property's own when it is named `k`. */
  lemma UnswitchedFront(voc: Vocabulary, lib: LibraryParser, props: seq<Target>, front: seq<Target>, inst: Value, args: string, k: string)
    requires props != [] && front == props[..|props| - 1]
    requires forall i :: 0 <= i < |props| && props[i].name == k ==>
               PropertySwitchValue(voc, lib, props, i, inst, args) == Success(Null)
    ensures forall i :: 0 <= i < |front| && front[i].name == k ==>
              PropertySwitchValue(voc, lib, front, i, inst, args) == Success(Null)
    ensures props[|props| - 1].name == k ==>
              SwitchValue(voc, lib, props[|props| - 1], SetProperties(voc, lib, front, inst, args).1).0 == Success(Null)
  {
    forall i | 0 <= i < |front| && front[i].name == k
      ensures PropertySwitchValue(voc, lib, front, i, inst, args) == Success(Null)
    {
      PropertySwitchValueFront(voc, lib, props, i, inst, args);
    }
    if props[|props| - 1].name == k {
      assert props[..|props| - 1] == front;
      assert PropertySwitchValue(voc, lib, props, |props| - 1, inst, args) == Success(Null);
    }
  }

  /** A property name whose switch values are all null keeps what the instance had: absent stays
      absent, present keeps its value. */
  lemma {:induction false} SetPropertiesKeepsUnswitched(voc: Vocabulary, lib: LibraryParser, props: seq<Target>, inst: Value, args: string, k: string)
    requires inst.Instance?
    requires forall i :: 0 <= i < |props| && props[i].name == k ==>
               PropertySwitchValue(voc, lib, props, i, inst, args) == Success(Null)
    ensures var r := SetProperties(voc, lib, props, inst, args).0;
            r.Success? ==>
              && r.value.Instance?
              && (k in r.value.props <==> k in inst.props)
              && (k in inst.props ==> r.value.props[k] == inst.props[k])
    decreases |props|
  {
    if props != [] {
      var n := |props|;
      var front := props[..n - 1];
      var p := props[n - 1];
      var acc := SetProperties(voc, lib, front, inst, args);
      UnswitchedFront(voc, lib, props, front, inst, args, k);
      SetPropertiesKeepsUnswitched(voc, lib, front, inst, args, k);
      assert SetProperties(voc, lib, props, inst, args).0 == PropertyStep(voc, lib, acc, p).0;
      if acc.0.Success? {
        SetPropertiesAssignsNonNull(voc, lib, front, inst, args);
        if p.name == k {
          PropertyStepAssigns(voc, lib, acc, p);
        } else {
          PropertyStepKeepsOther(voc, lib, acc, p, k);
        }
      }
    }
  }

  /** `ExtractStronglyTypedInstance` as a value: the service instance, else a default instance,
      with its properties bound from the switches. */
  function StronglyTypedInstance(voc: Vocabulary, lib: LibraryParser, provider: ServiceProvider, t: TypeRef, args: string)
    : (r: (Result<Value>, string))
  {
    var inst := match GetService(provider, t) case Some(s) => Success(s) case None => DefaultInstance(t);
    if inst.Failure? then (inst, args) else SetProperties(voc, lib, PropertiesOf(t), inst.value, args)
  }

  /** The strongly typed instance has the requested type, or is null (a nullable value type
      without a service), and the argument string only shrinks. It comes from the provider
      exactly when the provider knows the type; otherwise it is a default instance, and when
      none can be created that failure is the result, with the argument string untouched. */
  lemma StronglyTypedInstanceFits(voc: Vocabulary, lib: LibraryParser, provider: ServiceProvider, t: TypeRef, args: string)
    ensures var r := StronglyTypedInstance(voc, lib, provider, t, args);
            && (r.0.Success? && r.0.value != Null ==> Fits(r.0.value, t)) && |r.1| <= |args|
            && (TypeName(t) in provider && r.0.Success? ==> r.0.value.Instance? && r.0.value.origin == FromService)
            && (TypeName(t) !in provider && r.0.Success? && r.0.value.Instance? ==> r.0.value.origin == Constructed)
            && (TypeName(t) !in provider && DefaultInstance(t).Failure? ==> r == (DefaultInstance(t), args))
  {
    var inst := match GetService(provider, t) case Some(s) => Success(s) case None => DefaultInstance(t);
    if inst.Success? {
      if inst.value.Instance? {
        SetPropertiesAssignsNonNull(voc, lib, PropertiesOf(t), inst.value, args);
      } else {
        assert PropertiesOf(t) == [];
      }
    }
  }

  /** `ExtractStronglyTypedInstance(t, ref args)`. */
  method ExtractStronglyTypedInstance(voc: Vocabulary, lib: LibraryParser, provider: ServiceProvider, t: TypeRef, args: string)
    returns (r: Result<Value>, rest: string)
    ensures (r, rest) == StronglyTypedInstance(voc, lib, provider, t, args)
  {
    var inst := match GetService(provider, t) case Some(s) => Success(s) case None => DefaultInstance(t);
    if inst.Failure? {
      return inst, args;
    }
    var props := PropertiesOf(t);
    r, rest := inst, args;
    var i := 0;
    while i < |props|
      invariant 0 <= i <= |props|
      invariant (r, rest) == SetProperties(voc, lib, props[..i], inst.value, args)
      invariant r.Success?
    {
      var p := props[i];
      SetPropertiesNext(voc, lib, props, i, inst.value, args);
      var (value, rest') := SwitchValue(voc, lib, p, rest);
      rest := rest';
      if value.Failure? {
        SetPropertiesFailureSticks(voc, lib, props, i + 1, inst.value, args);
        return Failure(value.error), rest;
      }
      if value.value != Null {
        if !p.settable {
          SetPropertiesFailureSticks(voc, lib, props, i + 1, inst.value, args);
          return Failure(PropertyNotSettable(p.name)), rest;
        }
        r := Success(SetProperty(r.value, p.name, value.value));
      }
      i := i + 1;
    }
    assert props[..i] == props;
  }

  /** Once the property loop has failed, the remaining properties change nothing. */
  lemma {:induction false} SetPropertiesFailureSticks(voc: Vocabulary, lib: LibraryParser, props: seq<Target>, i: nat, inst: Value, args: string)
    requires i <= |props|
    requires SetProperties(voc, lib, props[..i], inst, args).0.Failure?
    ensures SetProperties(voc, lib, props, inst, args) == SetProperties(voc, lib, props[..i], inst, args)
    decreases |props| - i
  {
    if i < |props| {
      SetPropertiesNext(voc, lib, props, i, inst, args);
      SetPropertiesFailureSticks(voc, lib, props, i + 1, inst, args);
    } else {
      assert props[..i] == props;
    }
  }

  /** The value of one parameter: simple, else special, else strongly typed. */
  function ParameterValue(voc: Vocabulary, lib: LibraryParser, provider: ServiceProvider, p: Target, args: string)
    : (r: (Result<Value>, string))
    ensures r.0.Success? && r.0.value != Null ==> Fits(r.0.value, p.declaredType)
    ensures |r.1| <= |args|
  {
    var (v, rest) := SwitchValue(voc, lib, p, args);
    if v.Failure? || v.value != Null then (v, rest)
    else
      StronglyTypedInstanceFits(voc, lib, provider, p.declaredType, rest);
      StronglyTypedInstance(voc, lib, provider, p.declaredType, rest)
  }

  /** One pass of the parameter loop: the next slot is filled; a failure ends the loop. */
  function ParameterStep(voc: Vocabulary, lib: LibraryParser, provider: ServiceProvider,
                         acc: (Result<seq<Value>>, string), p: Target): (r: (Result<seq<Value>>, string))
    ensures |r.1| <= |acc.1|
    ensures acc.0.Success? && r.0.Success? ==>
              && |r.0.value| == |acc.0.value| + 1 && r.0.value[..|acc.0.value|] == acc.0.value
              && var v := r.0.value[|acc.0.value|]; v == Null || Fits(v, p.declaredType)
  {
    if acc.0.Failure? then acc
    else
      var (v, rest) := ParameterValue(voc, lib, provider, p, acc.1);
      if v.Failure? then (Failure(v.error), rest)
      else (Success(acc.0.value + [v.value]), rest)
  }

  /** The parameter loop of `ExtractMethodParameters` over `ps`: one slot per parameter, in order. */
  function MethodParameters(voc: Vocabulary, lib: LibraryParser, provider: ServiceProvider, ps: seq<Target>, args: string)
    : (r: (Result<seq<Value>>, string))
    decreases |ps|
  {
    if ps == [] then (Success([]), args)
    else ParameterStep(voc, lib, provider, MethodParameters(voc, lib, provider, ps[..|ps| - 1], args), ps[|ps| - 1])
  }

  lemma MethodParametersNext(voc: Vocabulary, lib: LibraryParser, provider: ServiceProvider, ps: seq<Target>, i: nat, args: string)
    requires i < |ps|
    ensures MethodParameters(voc, lib, provider, ps[..i + 1], args)
            == ParameterStep(voc, lib, provider, MethodParameters(voc, lib, provider, ps[..i], args), ps[i])
  {
    assert ps[..i + 1][..i] == ps[..i];
  }

  /** One slot per parameter, each holding null or a value of the parameter's type. */
  predicate SlotsFit(vals: seq<Value>, ps: seq<Target>) {
    |vals| == |ps| && forall k :: 0 <= k < |ps| ==> vals[k] == Null || Fits(vals[k], ps[k].declaredType)
  }

  lemma SlotsFitExtend(acc: seq<Value>, vals: seq<Value>, front: seq<Target>, p: Target)
    requires SlotsFit(acc, front)
    requires |vals| == |acc| + 1 && vals[..|acc|] == acc
    requires vals[|acc|] == Null || Fits(vals[|acc|], p.declaredType)
    ensures SlotsFit(vals, front + [p])
  {
    forall k | 0 <= k < |front| + 1
      ensures vals[k] == Null || Fits(vals[k], (front + [p])[k].declaredType)
    {
      if k < |front| {
        assert vals[k] == acc[k];
      }
    }
  }

  /** One more pass of the parameter loop fills the slot of the next parameter. */
  lemma ParameterStepSlots(voc: Vocabulary, lib: LibraryParser, provider: ServiceProvider,
                           acc: (Result<seq<Value>>, string), front: seq<Target>, p: Target)
    requires acc.0.Success? ==> SlotsFit(acc.0.value, front)
    ensures var r := ParameterStep(voc, lib, provider, acc, p);
            r.0.Success? ==> SlotsFit(r.0.value, front + [p])
  {
    var r := ParameterStep(voc, lib, provider, acc, p);
    if r.0.Success? {
      SlotsFitExtend(acc.0.value, r.0.value, front, p);
    }
  }

  /** Exactly one slot per parameter, each holding a value of the parameter's type or null, and
      the argument string only shrinks. */
  lemma {:induction false} MethodParametersShape(voc: Vocabulary, lib: LibraryParser, provider: ServiceProvider, ps: seq<Target>, args: string)
    ensures var r := MethodParameters(voc, lib, provider, ps, args);
            |r.1| <= |args| && (r.0.Success? ==> SlotsFit(r.0.value, ps))
    decreases |ps|
  {
    if ps != [] {
      var front := ps[..|ps| - 1];
      MethodParametersShape(voc, lib, provider, front, args);
      ParameterStepSlots(voc, lib, provider, MethodParameters(voc, lib, provider, front, args), front, ps[|ps| - 1]);
      assert front + [ps[|ps| - 1]] == ps;
    }
  }


  /** One pass of the parameter loop of `ExtractMethodParameters`: the simple value, else the
      special instance, else the strongly typed instance. */
  method ExtractParameterValue(voc: Vocabulary, lib: LibraryParser, provider: ServiceProvider, p: Target, args: string)
    returns (value: Result<Value>, rest: string)
    ensures (value, rest) == ParameterValue(voc, lib, provider, p, args)
  {
    var (simple, rest1) := SwitchValue(voc, lib, p, args);
    value, rest := simple, rest1;
    if value.Success? && value.value == Null {
      value, rest := ExtractStronglyTypedInstance(voc, lib, provider, p.declaredType, rest);
    }
  }

  /** `ExtractMethodParameters(method, ref args)`: fills an array with one value per parameter. */
  method ExtractMethodParameters(voc: Vocabulary, lib: LibraryParser, provider: ServiceProvider, method_: MethodDecl, args: string)
    returns (r: Result<seq<Value>>, rest: string)
    ensures (r, rest) == MethodParameters(voc, lib, provider, method_.parameters, args)
  {
    var ps := method_.parameters;
    var result := new Value[|ps|](_ => Null);
    rest := args;
    var i := 0;
    ghost var values: seq<Value> := [];
    while i < |ps|
      invariant 0 <= i <= |ps|
      invariant result[..i] == values
      invariant MethodParameters(voc, lib, provider, ps[..i], args) == (Success(values), rest)
    {
      MethodParametersExtend(voc, lib, provider, ps, i, args, values, rest);
      var value;
      value, rest := ExtractParameterValue(voc, lib, provider, ps[i], rest);
      if value.Failure? {
        MethodParametersFailureSticks(voc, lib, provider, ps, i + 1, args);
        return Failure(value.error), rest;
      }
      result[i] := value.value;
      values := values + [value.value];
      assert result[..i + 1] == values;
      i := i + 1;
    }
    assert ps[..i] == ps;
    r := Success(result[..]);
    assert result[..] == result[..i];
  }

  /** One more pass of the parameter loop after a run that has not failed. */
  lemma MethodParametersExtend(voc: Vocabulary, lib: LibraryParser, provider: ServiceProvider, ps: seq<Target>, i: nat, args: string,
                               values: seq<Value>, rest: string)
    requires i < |ps| && MethodParameters(voc, lib, provider, ps[..i], args) == (Success(values), rest)
    ensures var (v, rest') := ParameterValue(voc, lib, provider, ps[i], rest);
            MethodParameters(voc, lib, provider, ps[..i + 1], args)
              == if v.Failure? then (Failure(v.error), rest') else (Success(values + [v.value]), rest')
  {
    MethodParametersNext(voc, lib, provider, ps, i, args);
  }

  /** Once the parameter loop has failed, the remaining parameters change nothing. */
  lemma {:induction false} MethodParametersFailureSticks(voc: Vocabulary, lib: LibraryParser, provider: ServiceProvider, ps: seq<Target>, i: nat, args: string)
    requires i <= |ps|
    requires MethodParameters(voc, lib, provider, ps[..i], args).0.Failure?
    ensures MethodParameters(voc, lib, provider, ps, args) == MethodParameters(voc, lib, provider, ps[..i], args)
    decreases |ps| - i
  {
    if i < |ps| {
      MethodParametersNext(voc, lib, provider, ps, i, args);
      MethodParametersFailureSticks(voc, lib, provider, ps, i + 1, args);
    } else {
      assert ps[..i] == ps;
    }
  }
}
