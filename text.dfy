/** String operations the engine relies on: ASCII case folding (standing in for RegexOptions.IgnoreCase,
    StringComparison.OrdinalIgnoreCase and ToLower), Trim, String.Replace with an empty replacement,
    and the stable descending-length ordering that builds every regex alternation. */
module Text {
  import opened Declarations

  function LowerChar(c: char): char {
    if 'A' <= c <= 'Z' then (c as int + 32) as char else c
  }

  function ToLower(s: string): (r: string)
    ensures |r| == |s|
  {
    seq(|s|, i requires 0 <= i < |s| => LowerChar(s[i]))
  }

  /** `string.Equals(a, b, StringComparison.OrdinalIgnoreCase)`. */
  predicate EqualsIgnoreCase(a: string, b: string) {
    ToLower(a) == ToLower(b)
  }

  /** `lit` occurs at position `p` of `s`, ignoring case (a literal regex piece under IgnoreCase). */
  predicate StartsWithIgnoreCase(s: string, p: nat, lit: string) {
    p + |lit| <= |s| && EqualsIgnoreCase(s[p..p + |lit|], lit)
  }

  /** `a` is what remains of `b` once a prefix is cut off. */
  predicate IsSuffixOf(a: string, b: string) {
    |a| <= |b| && a == b[|b| - |a|..]
  }

  lemma EqualsIgnoreCaseSameLength(a: string, b: string)
    requires EqualsIgnoreCase(a, b)
    ensures |a| == |b|
  {
    assert |ToLower(a)| == |ToLower(b)|;
  }

  lemma EqualsIgnoreCaseTransitive(a: string, b: string, c: string)
    requires EqualsIgnoreCase(a, b) && EqualsIgnoreCase(b, c)
    ensures EqualsIgnoreCase(a, c)
  {
  }

  // ---------------------------------------------------------------------------------------------
  // OrderByDescending(s => s.Length): a stable sort by decreasing length.

  predicate SortedByLengthDesc(s: seq<string>) {
    forall i, j :: 0 <= i < j < |s| ==> |s[i]| >= |s[j]|
  }

  /** Inserts `x` after every element at least as long as it (so equal lengths keep their order). */
  function InsertByLength(x: string, s: seq<string>): (r: seq<string>)
    ensures |r| == |s| + 1
  {
    if s == [] then [x]
    else if |s[0]| >= |x| then [s[0]] + InsertByLength(x, s[1..])
    else [x] + s
  }

  /** Insertion adds `x` to the elements. */
  lemma {:induction false} InsertByLengthElements(x: string, s: seq<string>)
    ensures multiset(InsertByLength(x, s)) == multiset(s) + multiset{x}
  {
    if s != [] && |s[0]| >= |x| {
      InsertByLengthElements(x, s[1..]);
      assert s == [s[0]] + s[1..];
    }
  }

  /** Insertion adds nothing longer than `x` or the longest element. */
  lemma {:induction false} InsertByLengthBounded(x: string, s: seq<string>, n: nat)
    requires |x| <= n && forall i :: 0 <= i < |s| ==> |s[i]| <= n
    ensures forall i :: 0 <= i < |InsertByLength(x, s)| ==> |InsertByLength(x, s)[i]| <= n
  {
    if s != [] && |s[0]| >= |x| {
      InsertByLengthBounded(x, s[1..], n);
    }
  }

  /** Insertion keeps the order. */
  lemma {:induction false} InsertByLengthSorted(x: string, s: seq<string>)
    requires SortedByLengthDesc(s)
    ensures SortedByLengthDesc(InsertByLength(x, s))
  {
    if s != [] && |s[0]| >= |x| {
      InsertByLengthSorted(x, s[1..]);
      InsertByLengthBounded(x, s[1..], |s[0]|);
    }
  }

  /** The candidates in order of decreasing length, equal lengths in their original order. */
  function SortByLengthDesc(s: seq<string>): (r: seq<string>)
    ensures |r| == |s|
  {
    if s == [] then [] else InsertByLength(s[|s| - 1], SortByLengthDesc(s[..|s| - 1]))
  }

  /** The sort orders by decreasing length and is a permutation. */
  lemma {:induction false} SortByLengthDescCorrect(s: seq<string>)
    ensures SortedByLengthDesc(SortByLengthDesc(s))
    ensures multiset(SortByLengthDesc(s)) == multiset(s)
  {
    if s != [] {
      SortByLengthDescCorrect(s[..|s| - 1]);
      InsertByLengthSorted(s[|s| - 1], SortByLengthDesc(s[..|s| - 1]));
      InsertByLengthElements(s[|s| - 1], SortByLengthDesc(s[..|s| - 1]));
      assert s == s[..|s| - 1] + [s[|s| - 1]];
    }
  }

  lemma SortKeepsElements(cands: seq<string>)
    ensures forall c :: c in cands <==> c in SortByLengthDesc(cands)
  {
    SortByLengthDescCorrect(cands);
    var sorted := SortByLengthDesc(cands);
    forall c ensures c in cands <==> c in sorted {
      assert c in cands <==> c in multiset(cands);
      assert c in sorted <==> c in multiset(sorted);
    }
  }

  /** The first candidate, in list order, that occurs at `p` ignoring case: how a regex alternation
      `c1|c2|...` with nothing that can fail after it chooses its branch. */
  function FirstMatchAt(cands: seq<string>, s: string, p: nat): (r: Option<string>)
    ensures r.Some? ==> r.value in cands && StartsWithIgnoreCase(s, p, r.value)
    ensures r.None? ==> forall c :: c in cands ==> !StartsWithIgnoreCase(s, p, c)
  {
    if cands == [] then None
    else if StartsWithIgnoreCase(s, p, cands[0]) then Some(cands[0])
    else FirstMatchAt(cands[1..], s, p)
  }

  /** The candidate chosen is the one at index `k`, and none before it occurs at `p`. */
  lemma {:induction false} FirstMatchAtIndex(cands: seq<string>, s: string, p: nat) returns (k: nat)
    requires FirstMatchAt(cands, s, p).Some?
    ensures k < |cands| && cands[k] == FirstMatchAt(cands, s, p).value
    ensures forall j :: 0 <= j < k ==> !StartsWithIgnoreCase(s, p, cands[j])
  {
    if StartsWithIgnoreCase(s, p, cands[0]) {
      k := 0;
    } else {
      var k1 := FirstMatchAtIndex(cands[1..], s, p);
      k := k1 + 1;
      forall j | 0 <= j < k ensures !StartsWithIgnoreCase(s, p, cands[j]) {
        if j > 0 { assert cands[j] == cands[1..][j - 1]; }
      }
    }
  }

  /** On a list sorted by decreasing length, the first candidate that matches is a longest one. */
  lemma {:induction false} FirstMatchOnSortedIsLongest(cands: seq<string>, s: string, p: nat)
    requires SortedByLengthDesc(cands)
    ensures FirstMatchAt(cands, s, p).Some? ==>
              forall c :: c in cands && StartsWithIgnoreCase(s, p, c) ==> |c| <= |FirstMatchAt(cands, s, p).value|
  {
    var r := FirstMatchAt(cands, s, p);
    if r.Some? {
      var k := FirstMatchAtIndex(cands, s, p);
      forall c | c in cands && StartsWithIgnoreCase(s, p, c) ensures |c| <= |r.value| {
        var i :| 0 <= i < |cands| && cands[i] == c;
        if i > k {
          assert |cands[k]| >= |cands[i]|;
        }
      }
    }
  }

  /** The first match on the candidates sorted by decreasing length is a longest matching
      candidate, and there is none only when no candidate matches. */
  lemma SortedFirstMatch(cands: seq<string>, s: string, p: nat)
    ensures var r := FirstMatchAt(SortByLengthDesc(cands), s, p);
            && (r.Some? ==> r.value in cands && StartsWithIgnoreCase(s, p, r.value)
                            && forall c :: c in cands && StartsWithIgnoreCase(s, p, c) ==> |c| <= |r.value|)
            && (r.None? ==> forall c :: c in cands ==> !StartsWithIgnoreCase(s, p, c))
  {
    SortKeepsElements(cands);
    SortByLengthDescCorrect(cands);
    FirstMatchOnSortedIsLongest(SortByLengthDesc(cands), s, p);
  }

  /** The text a regex group `(c1|c2|...)?` built from the candidates sorted by decreasing length
      captures at position `p`: the longest candidate occurring there ignoring case, as it is
      written in `s`; empty when none occurs. */
  predicate IsLongestMatch(cands: seq<string>, s: string, p: nat, r: string) {
    && p + |r| <= |s| && r == s[p..p + |r|]
    && (forall c :: c in cands && StartsWithIgnoreCase(s, p, c) ==> |c| <= |r|)
    && ((exists c :: c in cands && StartsWithIgnoreCase(s, p, c)) ==>
          exists c :: c in cands && StartsWithIgnoreCase(s, p, c) && EqualsIgnoreCase(c, r))
    && ((forall c :: c in cands ==> !StartsWithIgnoreCase(s, p, c)) ==> r == [])
  }

  function LongestMatchAt(cands: seq<string>, s: string, p: nat): string
    requires p <= |s|
  {
    match FirstMatchAt(SortByLengthDesc(cands), s, p)
    case Some(c) => if p + |c| <= |s| then s[p..p + |c|] else []
    case None => []
  }

  /** The group captures the longest candidate occurring at `p`, as written in `s`. */
  lemma LongestMatchAtIsLongest(cands: seq<string>, s: string, p: nat)
    requires p <= |s|
    ensures IsLongestMatch(cands, s, p, LongestMatchAt(cands, s, p))
  {
    LongestMatchAtBounds(cands, s, p);
    LongestMatchAtWitness(cands, s, p);
  }

  lemma LongestMatchAtBounds(cands: seq<string>, s: string, p: nat)
    requires p <= |s|
    ensures var r := LongestMatchAt(cands, s, p);
            && p + |r| <= |s| && r == s[p..p + |r|]
            && (forall c :: c in cands && StartsWithIgnoreCase(s, p, c) ==> |c| <= |r|)
            && ((forall c :: c in cands ==> !StartsWithIgnoreCase(s, p, c)) ==> r == [])
  {
    SortedFirstMatch(cands, s, p);
    var first := FirstMatchAt(SortByLengthDesc(cands), s, p);
    if first.Some? {
      assert |LongestMatchAt(cands, s, p)| == |first.value|;
    }
  }

  lemma LongestMatchAtWitness(cands: seq<string>, s: string, p: nat)
    requires p <= |s|
    ensures (exists c :: c in cands && StartsWithIgnoreCase(s, p, c)) ==>
              exists c :: c in cands && StartsWithIgnoreCase(s, p, c) && EqualsIgnoreCase(c, LongestMatchAt(cands, s, p))
  {
    SortKeepsElements(cands);
    var first := FirstMatchAt(SortByLengthDesc(cands), s, p);
    if first.Some? {
      var c := first.value;
      EqualsIgnoreCaseSameLength(s[p..p + |c|], c);
      assert LongestMatchAt(cands, s, p) == s[p..p + |c|];
      assert ToLower(c) == ToLower(s[p..p + |c|]);
    }
  }

  // ---------------------------------------------------------------------------------------------
  // Character classes and runs.

  /** `char.IsWhiteSpace`, which is also the regex class `\s`: U+0009..U+000D, U+0085 and the
      Unicode separators (categories Zs, Zl, Zp). */
  predicate IsWhiteSpace(c: char) {
    var n := c as int;
    (0x09 <= n <= 0x0D) || n == 0x20 || n == 0x85 || n == 0xA0 || n == 0x1680
    || (0x2000 <= n <= 0x200A) || n == 0x2028 || n == 0x2029 || n == 0x202F || n == 0x205F || n == 0x3000
  }

  /** The end of the longest run of characters satisfying `inRun` that starts at `p`. */
  function RunEnd(s: string, p: nat, inRun: char -> bool): (e: nat)
    requires p <= |s|
    ensures p <= e <= |s|
    ensures forall k :: p <= k < e ==> inRun(s[k])
    ensures e < |s| ==> !inRun(s[e])
    decreases |s| - p
  {
    if p < |s| && inRun(s[p]) then RunEnd(s, p + 1, inRun) else p
  }

  /** A run is determined by where it stops: if the characters from `p` up to `e` are in the run
      and the one at `e` is not (or `e` is the end), the run ends at `e`. */
  lemma {:induction false} RunEndAt(s: string, p: nat, e: nat, inRun: char -> bool)
    requires p <= e <= |s|
    requires forall k :: p <= k < e ==> inRun(s[k])
    requires e < |s| ==> !inRun(s[e])
    ensures RunEnd(s, p, inRun) == e
    decreases e - p
  {
    if p < e {
      RunEndAt(s, p + 1, e, inRun);
    }
  }

  // ---------------------------------------------------------------------------------------------
  // string.Trim(params char[]) and the trims the parsers apply, for a predicate `drop` on characters.

  /** The number of leading characters of `s` that `drop` accepts. */
  function LeadingCount(s: string, drop: char -> bool): (k: nat)
    ensures k <= |s|
    ensures forall i :: 0 <= i < k ==> drop(s[i])
    ensures k < |s| ==> !drop(s[k])
  {
    if s != [] && drop(s[0]) then 1 + LeadingCount(s[1..], drop) else 0
  }

  /** The number of trailing characters of `s` that `drop` accepts. */
  function TrailingCount(s: string, drop: char -> bool): (k: nat)
    ensures k <= |s|
    ensures forall i :: |s| - k <= i < |s| ==> drop(s[i])
    ensures k < |s| ==> !drop(s[|s| - 1 - k])
  {
    if s != [] && drop(s[|s| - 1]) then 1 + TrailingCount(s[..|s| - 1], drop) else 0
  }

  /** `s` without its leading and trailing characters that `drop` accepts. */
  function Trim(s: string, drop: char -> bool): (r: string)
    ensures |r| <= |s|
    ensures r == [] || (!drop(r[0]) && !drop(r[|r| - 1]))
    ensures forall c :: c in r ==> c in s
    ensures (s == [] || (!drop(s[0]) && !drop(s[|s| - 1]))) ==> r == s
  {
    var i := LeadingCount(s, drop);
    var rest := s[i..];
    var j := TrailingCount(rest, drop);
    assert forall c :: c in rest[..|rest| - j] ==> c in s by {
      forall c | c in rest[..|rest| - j] ensures c in s {
        var k :| 0 <= k < |rest| - j && rest[k] == c;
        assert s[i + k] == c;
      }
    }
    assert s != [] && !drop(s[0]) && !drop(s[|s| - 1]) ==> i == 0 && rest == s && j == 0;
    rest[..|rest| - j]
  }

  /** Trimming removes exactly the padding: a text whose ends `drop` rejects, surrounded by
      characters `drop` accepts, comes back unchanged. */
  lemma TrimPadded(pre: string, x: string, post: string, drop: char -> bool)
    requires forall i :: 0 <= i < |pre| ==> drop(pre[i])
    requires forall i :: 0 <= i < |post| ==> drop(post[i])
    requires x != [] && !drop(x[0]) && !drop(x[|x| - 1])
    ensures Trim(pre + x + post, drop) == x
  {
    var s := pre + x + post;
    LeadingCountAt(s, drop, |pre|);
    var rest := s[|pre|..];
    assert rest == x + post;
    TrailingCountAt(rest, drop, |post|);
  }

  lemma {:induction false} LeadingCountAt(s: string, drop: char -> bool, k: nat)
    requires k < |s| && !drop(s[k])
    requires forall i :: 0 <= i < k ==> drop(s[i])
    ensures LeadingCount(s, drop) == k
  {
    if k > 0 {
      LeadingCountAt(s[1..], drop, k - 1);
    }
  }

  lemma {:induction false} TrailingCountAt(s: string, drop: char -> bool, k: nat)
    requires k < |s| && !drop(s[|s| - 1 - k])
    requires forall i :: |s| - k <= i < |s| ==> drop(s[i])
    ensures TrailingCount(s, drop) == k
  {
    if k > 0 {
      TrailingCountAt(s[..|s| - 1], drop, k - 1);
    }
  }

  // ---------------------------------------------------------------------------------------------
  // string.Replace(pat, string.Empty): ordinal, left to right, non-overlapping.

  /** `pat` occurs in `s` starting at `i`. */
  predicate OccursAt(s: string, pat: string, i: nat) {
    i + |pat| <= |s| && s[i..i + |pat|] == pat
  }

  function RemoveAll(s: string, pat: string): string
    requires |pat| > 0
    decreases |s|
  {
    if |s| < |pat| then s
    else if s[..|pat|] == pat then RemoveAll(s[|pat|..], pat)
    else [s[0]] + RemoveAll(s[1..], pat)
  }

  /** A string in which `pat` does not occur is left unchanged. */
  lemma {:induction false} RemoveAllWithoutOccurrence(s: string, pat: string)
    requires |pat| > 0
    requires forall i :: 0 <= i <= |s| ==> !OccursAt(s, pat, i)
    ensures RemoveAll(s, pat) == s
    decreases |s|
  {
    if |s| >= |pat| {
      assert !OccursAt(s, pat, 0);
      forall i | 0 <= i <= |s[1..]| ensures !OccursAt(s[1..], pat, i) {
        assert !OccursAt(s, pat, i + 1);
        if i + |pat| <= |s[1..]| { assert s[1..][i..i + |pat|] == s[i + 1..i + 1 + |pat|]; }
      }
      RemoveAllWithoutOccurrence(s[1..], pat);
    }
  }

  /** An occurrence of `pat` anywhere, not only at the end, is removed: when no earlier occurrence
      starts inside `a`, `a + pat + b` becomes `a` followed by the removal applied to `b`. */
  lemma {:induction false} RemoveAllSplits(a: string, pat: string, b: string)
    requires |pat| > 0
    requires forall i :: 0 <= i < |a| ==> !OccursAt(a + pat + b, pat, i)
    ensures RemoveAll(a + pat + b, pat) == a + RemoveAll(b, pat)
    decreases |a|
  {
    var s := a + pat + b;
    if a == [] {
      assert s == pat + b;
      assert s[..|pat|] == pat;
      assert s[|pat|..] == b;
    } else {
      assert !OccursAt(s, pat, 0);
      assert s[..|pat|] != pat;
      forall i | 0 <= i < |a[1..]| ensures !OccursAt(a[1..] + pat + b, pat, i) {
        assert !OccursAt(s, pat, i + 1);
        assert s[1..] == a[1..] + pat + b;
        if i + |pat| <= |s[1..]| { assert s[1..][i..i + |pat|] == s[i + 1..i + 1 + |pat|]; }
      }
      RemoveAllSplits(a[1..], pat, b);
      assert s[1..] == a[1..] + pat + b;
      assert [s[0]] + (a[1..] + RemoveAll(b, pat)) == a + RemoveAll(b, pat);
    }
  }
}
