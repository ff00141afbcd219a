/** The two switch patterns the binders build for a parameter or property, as explicit matchers.

    Boolean switch:  (?<Prefix>p1|p2|...)(?<ArgumentName>name)(?<ArgumentNameTerminator>[\s:=]+(?<ArgumentValue>l1|l2|...)?|$)
    Named switch:    (?<Prefix>p1|p2|...)(?<ArgumentName>name)(?<ArgumentNameTerminator>[\s:=]+)(?<ArgumentValue>V+|"V*"|'V*')
                     with V = [\w\s:\\.-{}]

    Both are matched ignoring case, leftmost first; alternatives are tried in list order and a
    failing continuation backtracks into the next alternative. `Regex.Replace(args, "")` removes
    every match, scanning left to right without overlap. */
module Switches {
  import opened Declarations
  import opened Text

  /** `\w` on ASCII: letters, digits and the underscore. */
  predicate IsWordChar(c: char) {
    ('a' <= c <= 'z') || ('A' <= c <= 'Z') || ('0' <= c <= '9') || c == '_'
  }

  /** The terminator class `[\s:=]`. */
  predicate IsSeparator(c: char) {
    IsWhiteSpace(c) || c == ':' || c == '='
  }

  /** The value class `[\w\s:\\.-{}]` as the regex engine reads it: `.-{` is the RANGE U+002E..U+007B,
      so '-' (U+002D) and both quotes are outside it, while '/', ';', '<', '=', '>', '?', '@', '[', ']',
      '^' and '`' are inside. */
  predicate IsValueChar(c: char) {
    IsWordChar(c) || IsWhiteSpace(c) || c == ':' || c == '\\' || ('.' <= c <= '{') || c == '}'
  }

  /** The characters `Trim('\'', '"', ' ')` removes from a named switch value. */
  predicate IsValueTrimmed(c: char) {
    c == '\'' || c == '"' || c == ' '
  }

  /** A switch pattern, with its prefixes and literals already in the order the pattern lists them. */
  datatype SwitchPattern =
    | BooleanSwitch(prefixes: seq<string>, name: string, literals: seq<string>)
    | NamedSwitch(prefixes: seq<string>, name: string)

  /** One match: where it starts and ends in the argument string, and the ArgumentValue group
      (`None` when the group did not take part in the match). */
  datatype SwitchMatch = SwitchMatch(start: nat, end: nat, value: Option<string>)

  /** The boolean pattern for a switch name: the prefixes in the order given, the literals (true
      strings, then false strings) ordered by decreasing length. */
  function BooleanPattern(prefixes: seq<string>, name: string, trueStrings: seq<string>, falseStrings: seq<string>): SwitchPattern {
    BooleanSwitch(prefixes, name, SortByLengthDesc(trueStrings + falseStrings))
  }

  /** `"V*"` or `'V*'` at `q`: the end of the quoted value, if it is closed. */
  function QuotedEnd(s: string, q: nat, quote: char): (e: Option<nat>)
    requires q <= |s|
    ensures e.Some? ==> q + 2 <= e.value <= |s| && s[q] == quote && s[e.value - 1] == quote
    ensures e.Some? ==> forall k :: q < k < e.value - 1 ==> IsValueChar(s[k])
    ensures e.Some? && (quote == '"' || quote == '\'') ==> WellFormedValue(s[q..e.value])
  {
    if q < |s| && s[q] == quote then
      var e := RunEnd(s, q + 1, IsValueChar);
      if e < |s| && s[e] == quote then
        var v := s[q..e + 1];
        assert |v| >= 2 && v[0] == quote && v[|v| - 1] == quote;
        assert forall k :: 0 < k < |v| - 1 ==> v[k] == s[q + k] && IsValueChar(v[k]);
        Some(e + 1)
      else None
    else None
  }

  /** A value as the named pattern captures it: only value characters, or a quote, value
      characters and the same quote. */
  predicate WellFormedValue(v: string) {
    (forall k :: 0 <= k < |v| ==> IsValueChar(v[k]))
    || (|v| >= 2 && (v[0] == '"' || v[0] == '\'') && v[|v| - 1] == v[0]
        && forall k :: 0 < k < |v| - 1 ==> IsValueChar(v[k]))
  }

  /** The ArgumentValue group of the named pattern, once the separator run `s[j..q]` is taken
      greedily. When no alternative matches at `q` and the run has at least two characters, the
      engine gives one separator back: every separator is a value character, so `V+` then matches
      exactly that last separator. */
  function NamedValueAt(s: string, j: nat, q: nat): (r: Option<(nat, string)>)
    requires j < q <= |s|
    requires forall k :: j <= k < q ==> IsSeparator(s[k])
    ensures r.Some? ==> |r.value.1| <= r.value.0 <= |s| && q - 1 <= r.value.0 - |r.value.1|
    ensures r.Some? ==> r.value.1 == s[r.value.0 - |r.value.1|..r.value.0]
    ensures r.Some? ==> r.value.1 != [] && WellFormedValue(r.value.1)
  {
    if q < |s| && IsValueChar(s[q]) then
      var e := RunEnd(s, q, IsValueChar);
      Some((e, s[q..e]))
    else if QuotedEnd(s, q, '"').Some? then
      var e := QuotedEnd(s, q, '"').value;
      Some((e, s[q..e]))
    else if QuotedEnd(s, q, '\'').Some? then
      var e := QuotedEnd(s, q, '\'').value;
      Some((e, s[q..e]))
    else if q - j >= 2 then
      assert IsSeparator(s[q - 1]) && IsValueChar(s[q - 1]);
      Some((q, s[q - 1..q]))
    else None
  }

  /** The terminator and value of a pattern once prefix and name matched and ended at `j`:
      the end of the match and the ArgumentValue group. */
  function TailAt(pat: SwitchPattern, s: string, j: nat): (r: Option<(nat, Option<string>)>)
    requires j <= |s|
    ensures r.Some? ==> j <= r.value.0 <= |s|
    ensures r.Some? && pat.NamedSwitch? ==> r.value.1.Some? && WellFormedValue(r.value.1.value)
  {
    match pat
    case BooleanSwitch(_, _, literals) =>
      if j < |s| && IsSeparator(s[j]) then
        var q := RunEnd(s, j, IsSeparator);
        match FirstMatchAt(literals, s, q)
        case Some(lit) => Some((q + |lit|, Some(s[q..q + |lit|])))
        case None => Some((q, None))
      else if j == |s| then Some((j, None))
      else None
    case NamedSwitch(_, _) =>
      var q := RunEnd(s, j, IsSeparator);
      if q == j then None
      else match NamedValueAt(s, j, q)
        case Some((e, v)) => Some((e, Some(v)))
        case None => None
  }

  /** The match starting at `i` that tries the prefixes `ps` in order. */
  function MatchWith(pat: SwitchPattern, s: string, i: nat, ps: seq<string>): (r: Option<SwitchMatch>)
    requires i <= |s|
    ensures r.Some? ==> r.value.start == i <= r.value.end <= |s|
    ensures r.Some? && pat.NamedSwitch? ==> r.value.value.Some? && WellFormedValue(r.value.value.value)
  {
    if ps == [] then None
    else
      var p := ps[0];
      if StartsWithIgnoreCase(s, i, p) && StartsWithIgnoreCase(s, i + |p|, pat.name) then
        match TailAt(pat, s, i + |p| + |pat.name|)
        case Some((e, v)) => Some(SwitchMatch(i, e, v))
        case None => MatchWith(pat, s, i, ps[1..])
      else MatchWith(pat, s, i, ps[1..])
  }

  /** A prefix that is not followed by the name is passed over. */
  lemma MatchWithSkips(pat: SwitchPattern, s: string, i: nat, ps: seq<string>)
    requires i <= |s| && ps != []
    requires !(StartsWithIgnoreCase(s, i, ps[0]) && StartsWithIgnoreCase(s, i + |ps[0]|, pat.name))
    ensures MatchWith(pat, s, i, ps) == MatchWith(pat, s, i, ps[1..])
  {
  }

  /** A match begins with one of the prefixes tried, `p`, followed by the switch name (ignoring case). */
  lemma {:induction false} MatchWithPrefix(pat: SwitchPattern, s: string, i: nat, ps: seq<string>) returns (p: string)
    requires i <= |s| && MatchWith(pat, s, i, ps).Some?
    ensures p in ps && StartsWithIgnoreCase(s, i, p) && StartsWithIgnoreCase(s, i + |p|, pat.name)
    decreases |ps|
  {
    if ps == [] {
      assert false;
    } else if StartsWithIgnoreCase(s, i, ps[0]) && StartsWithIgnoreCase(s, i + |ps[0]|, pat.name) {
      p := ps[0];
    } else {
      MatchWithSkips(pat, s, i, ps);
      p := MatchWithPrefix(pat, s, i, ps[1..]);
    }
  }

  /** The match of the pattern that starts exactly at `i`, if any. */
  function MatchAt(pat: SwitchPattern, s: string, i: nat): (r: Option<SwitchMatch>)
    requires i <= |s|
    ensures r.Some? ==> r.value.start == i <= r.value.end <= |s|
    ensures r.Some? && pat.NamedSwitch? ==> r.value.value.Some? && WellFormedValue(r.value.value.value)
  {
    MatchWith(pat, s, i, pat.prefixes)
  }

  /** `Regex.Match(s, from)`: the leftmost match starting at or after `from`. */
  function Find(pat: SwitchPattern, s: string, from: nat): (r: Option<SwitchMatch>)
    requires from <= |s|
    ensures r.Some? ==> from <= r.value.start <= |s| && MatchAt(pat, s, r.value.start) == r
    ensures r.Some? ==> forall j :: from <= j < r.value.start ==> MatchAt(pat, s, j).None?
    ensures r.None? ==> forall j :: from <= j <= |s| ==> MatchAt(pat, s, j).None?
    decreases |s| - from
  {
    var m := MatchAt(pat, s, from);
    if m.Some? then m
    else if from == |s| then None
    else Find(pat, s, from + 1)
  }

  /** A match at `i` begins with one of the pattern's prefixes, `p`, followed by its name. */
  lemma MatchAtPrefix(pat: SwitchPattern, s: string, i: nat) returns (p: string)
    requires i <= |s| && MatchAt(pat, s, i).Some?
    ensures p in pat.prefixes && StartsWithIgnoreCase(s, i, p) && StartsWithIgnoreCase(s, i + |p|, pat.name)
  {
    p := MatchWithPrefix(pat, s, i, pat.prefixes);
  }

  /** `Regex.Replace(s, m => string.Empty)` from position `from`: every match found by scanning
      left to right is cut out; after an empty match the scan moves on by one character. */
  function ReplaceAll(pat: SwitchPattern, s: string, from: nat): (r: string)
    requires from <= |s|
    ensures |r| <= |s| - from
    decreases |s| - from
  {
    match Find(pat, s, from)
    case None => s[from..]
    case Some(m) =>
      if m.end > m.start then s[from..m.start] + ReplaceAll(pat, s, m.end)
      else if m.start < |s| then s[from..m.start + 1] + ReplaceAll(pat, s, m.start + 1)
      else s[from..]
  }

  /** Removal cuts out the first match and keeps everything before it, so the argument string
      shrinks by at least the length of that match. */
  lemma ReplaceAllCutsFirstMatch(pat: SwitchPattern, s: string, m: SwitchMatch)
    requires Find(pat, s, 0) == Some(m)
    ensures |ReplaceAll(pat, s, 0)| <= |s| - (m.end - m.start)
    ensures ReplaceAll(pat, s, 0)[..m.start] == s[..m.start]
  {
    if m.end == m.start && m.start < |s| {
      assert ReplaceAll(pat, s, 0) == s[..m.start + 1] + ReplaceAll(pat, s, m.start + 1);
    }
  }

  /** Without a match nothing is removed. */
  lemma ReplaceAllWithoutMatch(pat: SwitchPattern, s: string)
    requires forall j :: 0 <= j <= |s| ==> MatchAt(pat, s, j).None?
    ensures ReplaceAll(pat, s, 0) == s
  {
  }

  /** A named value, once trimmed of quotes and spaces, holds value characters only: in
      particular no '-' and no quote, and it neither starts nor ends with a space. */
  lemma TrimmedValueChars(v: string)
    requires WellFormedValue(v)
    ensures forall k :: 0 <= k < |Trim(v, IsValueTrimmed)| ==> IsValueChar(Trim(v, IsValueTrimmed)[k])
    ensures forall c :: c in Trim(v, IsValueTrimmed) ==> c != '-' && c != '"' && c != '\''
    ensures var t := Trim(v, IsValueTrimmed); t == [] || (t[0] != ' ' && t[|t| - 1] != ' ')
  {
    if forall k :: 0 <= k < |v| ==> IsValueChar(v[k]) {
      TrimmedBareValue(v);
    } else {
      TrimmedQuotedValue(v);
    }
    ValueCharsExclude(Trim(v, IsValueTrimmed));
  }

  /** Value characters include neither '-' nor a quote. */
  lemma ValueCharsExclude(t: string)
    requires forall k :: 0 <= k < |t| ==> IsValueChar(t[k])
    ensures forall c :: c in t ==> c != '-' && c != '"' && c != '\''
  {
    forall c | c in t ensures c != '-' && c != '"' && c != '\'' {
      var k :| 0 <= k < |t| && t[k] == c;
    }
  }

  lemma TrimmedBareValue(v: string)
    requires forall k :: 0 <= k < |v| ==> IsValueChar(v[k])
    ensures forall k :: 0 <= k < |Trim(v, IsValueTrimmed)| ==> IsValueChar(Trim(v, IsValueTrimmed)[k])
  {
    var t := Trim(v, IsValueTrimmed);
    forall k | 0 <= k < |t| ensures IsValueChar(t[k]) {
      assert t[k] in v;
    }
  }

  lemma TrimmedQuotedValue(v: string)
    requires |v| >= 2 && (v[0] == '"' || v[0] == '\'') && v[|v| - 1] == v[0]
    requires forall k :: 0 < k < |v| - 1 ==> IsValueChar(v[k])
    ensures forall k :: 0 <= k < |Trim(v, IsValueTrimmed)| ==> IsValueChar(Trim(v, IsValueTrimmed)[k])
  {
    var t := Trim(v, IsValueTrimmed);
    TrimDropsEnds(v, IsValueTrimmed);
    forall k | 0 <= k < |t| ensures IsValueChar(t[k]) {
      assert t[k] in v[1..|v| - 1];
      var m :| 0 <= m < |v| - 2 && v[1..|v| - 1][m] == t[k];
      assert v[m + 1] == t[k];
    }
  }

  /** When both ends of `s` are dropped, the trimmed text lies strictly inside them. */
  lemma TrimDropsEnds(s: string, drop: char -> bool)
    requires |s| >= 2 && drop(s[0]) && drop(s[|s| - 1])
    ensures forall c :: c in Trim(s, drop) ==> c in s[1..|s| - 1]
  {
    var i := LeadingCount(s, drop);
    var rest := s[i..];
    var j := TrailingCount(rest, drop);
    var t := Trim(s, drop);
    assert t == rest[..|rest| - j];
    if i < |s| {
      assert j >= 1;
      forall c | c in t ensures c in s[1..|s| - 1] {
        var k :| 0 <= k < |t| && t[k] == c;
        assert s[i + k] == c;
        assert 1 <= i + k < |s| - 1;
        assert s[1..|s| - 1][i + k - 1] == c;
      }
    }
  }
}
