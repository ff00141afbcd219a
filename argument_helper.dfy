/** `ArgumentHelper.ConvertValue` of the token-array generation (CliHelper/ArgumentHelper.cs): one
    command-line token converted to a parameter's type with `TryParse`, falling back to null for
    the nullable types and to a `FormatException` for the rest. */
module ArgumentHelper {
  import opened Declarations
  import opened Text
  import opened Numbers
  import opened Extensions

  /** `_nullableTypes`: the types a failed or missing conversion yields null for. */
  function NullableTypes(): seq<TypeRef> {
    [StringType, BoolType(true), IntType(Byte, true), IntType(Short, true), IntType(Int, true), IntType(Long, true),
     LibType(Float, true), LibType(Double, true), LibType(Decimal, true)]
  }

  /** The library kinds `ConvertValue` has a `TryParse` branch for (not TimeSpan nor DateTime). */
  predicate HasLibraryBranch(k: LibKind) { k == Float || k == Double || k == Decimal }

  /** `ConvertValue(targetType, stringValue)`, `None` standing for a null string: the branch for
      the type's kind, then the nullable fallback, then `FormatException`. */
  function ConvertValue(lib: LibraryParser, t: TypeRef, text: Option<string>): (r: Result<Value>)
    ensures t == StringType ==> r == Success(match text case Some(s) => Str(s) case None => Null)
    ensures r.Success? && r.value != Null ==> Fits(r.value, t)
    ensures r == Success(Null) ==> t in NullableTypes()
    ensures r.Failure? ==> t !in NullableTypes() && r.error == FormatError(text.GetOr(""))
    ensures IsBoolType(t) ==>
              r == match ParseBool(text)
                   case Some(b) => Success(Bool(b))
                   case None => if t.nullable then Success(Null) else Failure(FormatError(text.GetOr("")))
    ensures t.Primitive? && t.kind.IntegerKind? && text.Some? ==>
              r == match ParseInteger(t.kind.intKind, text.value)
                   case Some(n) => Success(Integer(t.kind.intKind, n))
                   case None => if t.nullable then Success(Null) else Failure(FormatError(text.value))
    ensures text.None? && t in NullableTypes() ==> r == Success(Null)
  {
    NullableTypesMembership(t);
    var fallback := if t in NullableTypes() then Success(Null) else Failure(FormatError(text.GetOr("")));
    match t
    case StringType => Success(match text case Some(s) => Str(s) case None => Null)
    case Primitive(BoolKind, _) =>
      (match ParseBool(text) case Some(b) => Success(Bool(b)) case None => fallback)
    case Primitive(IntegerKind(k), _) =>
      (match text
       case None => fallback
       case Some(s) => match ParseInteger(k, s) case Some(n) => Success(Integer(k, n)) case None => fallback)
    case Primitive(LibraryKind(k), _) =>
      if HasLibraryBranch(k) && text.Some? && lib(k, text.value) then Success(Library(k, text.value)) else fallback
    case _ => fallback
  }

  /** A type is in the nullable list exactly when it is `string` or the nullable form of a kind
      `ConvertValue` has a branch for. */
  predicate IsNullableBranchType(t: TypeRef) {
    t == StringType
    || (t.Primitive? && t.nullable
        && (t.kind.BoolKind? || t.kind.IntegerKind? || (t.kind.LibraryKind? && HasLibraryBranch(t.kind.libKind))))
  }

  lemma NullableTypesMembership(t: TypeRef)
    ensures t in NullableTypes() <==> IsNullableBranchType(t)
  {
    var ts := NullableTypes();
    if IsNullableBranchType(t) && t != StringType {
      match t.kind
      case BoolKind => assert t == ts[1];
      case IntegerKind(k) =>
        if k == Byte { assert t == ts[2]; }
        else if k == Short { assert t == ts[3]; }
        else if k == Int { assert t == ts[4]; }
        else { assert t == ts[5]; }
      case LibraryKind(k) =>
        if k == Float { assert t == ts[6]; }
        else if k == Double { assert t == ts[7]; }
        else { assert t == ts[8]; }
    }
  }

  /** The fallback is chosen by `targetType.In(_nullableTypes)`, which is list membership. */
  lemma NullableFallback(t: TypeRef)
    ensures In(t, NullableTypes()) <==> IsNullableBranchType(t)
  {
    InIsMembership(t, NullableTypes());
    NullableTypesMembership(t);
  }

  /** `bool.ToString()` converts back for `bool` and `bool?`: `ConvertValue(typeof(bool), "True")` is true. */
  lemma ConvertBoolRoundTrip(lib: LibraryParser, b: bool, nullable: bool)
    ensures ConvertValue(lib, BoolType(nullable), Some(BoolToString(b))) == Success(Bool(b))
  {
    ParseBoolToString(b);
  }

  /** `n.ToString()` converts back for every integer kind and its nullable form when `n` is in
      range (the `MaxValue.ToString()` tests); out of range, the plain kind throws. */
  lemma ConvertIntegerRoundTrip(lib: LibraryParser, k: IntKind, nullable: bool, n: int)
    ensures ConvertValue(lib, IntType(k, nullable), Some(IntToString(n))) ==
              if InRange(k, n) then Success(Integer(k, n))
              else if nullable then Success(Null) else Failure(FormatError(IntToString(n)))
  {
    ParseIntegerRoundTrip(k, n);
  }

  /** `TimeSpan`, `DateTime`, their nullable forms, `char`, readers and complex types have no branch
      and are not in the nullable list: every conversion to them throws. */
  lemma UnhandledTypesAlwaysFail(lib: LibraryParser, t: TypeRef, text: Option<string>)
    requires t.Complex? || t == TextReaderType || (t.Primitive? && t.kind == CharKind)
             || (t.Primitive? && t.kind.LibraryKind? && t.kind.libKind in {TimeSpan, DateTime})
    ensures ConvertValue(lib, t, text) == Failure(FormatError(text.GetOr("")))
  {
  }
}
