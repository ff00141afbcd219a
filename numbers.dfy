/** Text to scalar conversions the binders call: `byte/short/int/long.Parse` and `TryParse` under
    `NumberStyles.Integer`, `ToString()` of an integer, and `bool.TryParse`. */
module Numbers {
  import opened Declarations
  import opened Text

  predicate IsDigit(c: char) { '0' <= c <= '9' }

  function DigitValue(c: char): nat
    requires IsDigit(c)
  {
    c as int - '0' as int
  }

  function Digit(d: nat): char
    requires d < 10
  {
    ('0' as int + d) as char
  }

  /** The value of a run of decimal digits, most significant first (leading zeros allowed). */
  function DigitsValue(ds: string): nat
    requires forall i :: 0 <= i < |ds| ==> IsDigit(ds[i])
  {
    if ds == [] then 0 else DigitsValue(ds[..|ds| - 1]) * 10 + DigitValue(ds[|ds| - 1])
  }

  /** The white space integer parsing skips: U+0009..U+000D and U+0020 (not the wider `char.IsWhiteSpace`). */
  predicate IsNumberWhite(c: char) { 0x09 <= c as int <= 0x0D || c == ' ' }

  predicate IsNul(c: char) { c == '\0' }

  /** `TryParse(text, out n)` for an integer kind under `NumberStyles.Integer`: optional leading
      white space, an optional `+` or `-`, at least one decimal digit, optional trailing white
      space, then only NUL characters up to the end; the value must lie in the kind's range.
      `Parse` fails exactly where this gives `None`. */
  function ParseInteger(k: IntKind, text: string): (r: Option<int>)
    ensures r.Some? ==> InRange(k, r.value)
  {
    var a := RunEnd(text, 0, IsNumberWhite);
    var signed := a < |text| && (text[a] == '-' || text[a] == '+');
    var b := if signed then a + 1 else a;
    var c := RunEnd(text, b, IsDigit);
    var d := RunEnd(text, c, IsNumberWhite);
    var e := RunEnd(text, d, IsNul);
    if c == b || e < |text| then None
    else Checked(k, signed && text[a] == '-', DigitsValue(text[b..c]))
  }

  /** The parsed value from its sign and magnitude, if it lies in the kind's range (otherwise
      `Parse` throws an `OverflowException`). */
  function Checked(k: IntKind, negative: bool, magnitude: nat): (r: Option<int>)
    ensures r.Some? ==> InRange(k, r.value)
  {
    var m: int := magnitude;
    var n := if negative then -m else m;
    if InRange(k, n) then Some(n) else None
  }

  /** Decimal digits of a natural number, without leading zeros. */
  function NatToString(n: nat): (s: string)
    ensures s != [] && forall i :: 0 <= i < |s| ==> IsDigit(s[i])
  {
    if n < 10 then [Digit(n)] else NatToString(n / 10) + [Digit(n % 10)]
  }

  /** `n.ToString()` for an integer: a `-` before the digits of a negative number. */
  function IntToString(n: int): (s: string)
    ensures s != [] && (s[0] == '-' || IsDigit(s[0]))
  {
    if n < 0 then "-" + NatToString(-n) else NatToString(n)
  }

  lemma {:induction false} NatToStringValue(n: nat)
    ensures DigitsValue(NatToString(n)) == n
  {
    var s := NatToString(n);
    if n >= 10 {
      NatToStringValue(n / 10);
      assert s[..|s| - 1] == NatToString(n / 10);
    }
  }

  /** `Parse(n.ToString())` gives back `n` for every value of the kind, and fails (overflow) for
      every integer outside its range: the `MaxValue.ToString()` round trip of the conversion tests. */
  lemma ParseIntegerRoundTrip(k: IntKind, n: int)
    ensures ParseInteger(k, IntToString(n)) == if InRange(k, n) then Some(n) else None
  {
    if n < 0 {
      NatToStringValue(-n);
      ParseNegativeDigits(k, NatToString(-n));
    } else {
      NatToStringValue(n);
      ParseDigits(k, NatToString(n));
    }
  }

  /** Decimal digits, with no sign and no padding, parse to their value when it is in range. */
  lemma ParseDigits(k: IntKind, ds: string)
    requires ds != [] && forall i :: 0 <= i < |ds| ==> IsDigit(ds[i])
    ensures ParseInteger(k, ds) == Checked(k, false, DigitsValue(ds))
  {
    assert ds[0..|ds|] == ds;
    ParseStages(ds, 0);
    assert ds[0] != '-' && ds[0] != '+';
  }

  /** A minus sign followed by decimal digits parses to the negated value when it is in range. */
  lemma ParseNegativeDigits(k: IntKind, ds: string)
    requires ds != [] && forall i :: 0 <= i < |ds| ==> IsDigit(ds[i])
    ensures ParseInteger(k, "-" + ds) == Checked(k, true, DigitsValue(ds))
  {
    var text := "-" + ds;
    assert text[1..] == ds;
    ParseMinusDigits(k, text);
  }

  lemma ParseMinusDigits(k: IntKind, text: string)
    requires |text| >= 2 && text[0] == '-' && forall i :: 1 <= i < |text| ==> IsDigit(text[i])
    ensures ParseInteger(k, text) == Checked(k, true, DigitsValue(text[1..]))
  {
    ParseStages(text, 1);
    assert text[1..|text|] == text[1..];
  }

  /** Where the stages of `ParseInteger` stop on a text made of an optional sign (`b` is 0 or 1)
      and digits. */
  lemma ParseStages(text: string, b: nat)
    requires b <= 1 && b < |text| && (b == 1 <==> text[0] == '-') && (b == 0 ==> IsDigit(text[0]))
    requires forall i :: b <= i < |text| ==> IsDigit(text[i])
    ensures RunEnd(text, 0, IsNumberWhite) == 0
    ensures RunEnd(text, b, IsDigit) == |text|
    ensures RunEnd(text, |text|, IsNumberWhite) == |text| && RunEnd(text, |text|, IsNul) == |text|
  {
    RunEndAt(text, 0, 0, IsNumberWhite);
    RunEndAt(text, b, |text|, IsDigit);
    RunEndAt(text, |text|, |text|, IsNumberWhite);
    RunEndAt(text, |text|, |text|, IsNul);
  }

  /** The characters `bool.TryParse` trims before comparing: white space and NUL. */
  predicate IsBoolPadding(c: char) { IsWhiteSpace(c) || c == '\0' }

  /** `bool.TryParse(text, out b)`: "True" or "False" in any letter case, once surrounding white
      space and NUL characters are trimmed; a null text fails. */
  function ParseBool(text: Option<string>): (r: Option<bool>)
    ensures r.Some? ==> text.Some?
  {
    match text
    case None => None
    case Some(t) =>
      var trimmed := Trim(t, IsBoolPadding);
      if EqualsIgnoreCase(trimmed, "True") then Some(true)
      else if EqualsIgnoreCase(trimmed, "False") then Some(false)
      else None
  }

  /** `b.ToString()`. */
  function BoolToString(b: bool): string {
    if b then "True" else "False"
  }

  /** `bool.TryParse` accepts what `bool.ToString` produces, padded with white space, and in any
      letter case (here: the lower-case spelling the conversion tests also use). */
  lemma ParseBoolRoundTrip(b: bool, pre: string, post: string)
    requires forall i :: 0 <= i < |pre| ==> IsBoolPadding(pre[i])
    requires forall i :: 0 <= i < |post| ==> IsBoolPadding(post[i])
    ensures ParseBool(Some(pre + BoolToString(b) + post)) == Some(b)
    ensures ParseBool(Some(pre + ToLower(BoolToString(b)) + post)) == Some(b)
  {
    ParseBoolSpelling(b, pre, BoolToString(b), post);
    var y := LowerBoolText(b);
    ParseBoolSpelling(b, pre, y, post);
  }

  /** A spelling of `b` that `bool.ToString` or its lower-case form gives parses back to `b`. */
  lemma ParseBoolSpelling(b: bool, pre: string, x: string, post: string)
    requires forall i :: 0 <= i < |pre| ==> IsBoolPadding(pre[i])
    requires forall i :: 0 <= i < |post| ==> IsBoolPadding(post[i])
    requires x == BoolToString(b) || x == ToLower(BoolToString(b))
    ensures ParseBool(Some(pre + x + post)) == Some(b)
  {
    var y := LowerBoolText(b);
    ParseBoolPadded(pre, x, post);
  }

  /** `bool.TryParse(b.ToString())` gives back `b`. */
  lemma ParseBoolToString(b: bool)
    ensures ParseBool(Some(BoolToString(b))) == Some(b)
  {
    var y := LowerBoolText(b);
    ParseBoolPadded("", BoolToString(b), "");
    assert "" + BoolToString(b) + "" == BoolToString(b);
  }

  lemma ParseBoolPadded(pre: string, x: string, post: string)
    requires forall i :: 0 <= i < |pre| ==> IsBoolPadding(pre[i])
    requires forall i :: 0 <= i < |post| ==> IsBoolPadding(post[i])
    requires x != [] && !IsBoolPadding(x[0]) && !IsBoolPadding(x[|x| - 1])
    ensures ParseBool(Some(pre + x + post)) ==
              if EqualsIgnoreCase(x, "True") then Some(true)
              else if EqualsIgnoreCase(x, "False") then Some(false)
              else None
  {
    TrimPadded(pre, x, post, IsBoolPadding);
  }

  /** The lower-case spellings "true" and "false", and how they compare with "True" and "False". */
  lemma LowerBoolText(b: bool) returns (y: string)
    ensures y == ToLower(BoolToString(b)) == (if b then "true" else "false")
    ensures EqualsIgnoreCase(y, "True") == b && EqualsIgnoreCase(BoolToString(b), "True") == b
    ensures EqualsIgnoreCase(y, "False") == !b && EqualsIgnoreCase(BoolToString(b), "False") == !b
  {
    var lt := ToLower("True");
    var lf := ToLower("False");
    assert lt == "true" by {
      assert |lt| == 4 && lt[0] == 't' && lt[1] == 'r' && lt[2] == 'u' && lt[3] == 'e';
    }
    assert lf == "false" by {
      assert |lf| == 5 && lf[0] == 'f' && lf[1] == 'a' && lf[2] == 'l' && lf[3] == 's' && lf[4] == 'e';
    }
    var ly := ToLower(if b then "true" else "false");
    assert ly == if b then "true" else "false" by {
      assert forall i :: 0 <= i < |ly| ==> ly[i] == (if b then "true" else "false")[i];
    }
    assert lt != lf;
    y := if b then "true" else "false";
  }
}
