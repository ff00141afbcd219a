/** The two collection helpers the token-array binder uses (CliHelper/Extensions.cs). */
module Extensions {

  /** `instance.In(items)`: scans `items` in order and stops at the first element equal to `x`. */
  function In<T(==)>(x: T, items: seq<T>): bool {
    if items == [] then false
    else if items[0] == x then true
    else In(x, items[1..])
  }

  /** `items.Many()`: more than one element. */
  function Many<T>(items: seq<T>): bool {
    |items| > 1
  }

  /** `In` is membership: true exactly when some element equals `x`. */
  lemma {:induction false} InIsMembership<T>(x: T, items: seq<T>)
    ensures In(x, items) <==> x in items
  {
    if items != [] && items[0] != x {
      InIsMembership(x, items[1..]);
      assert items == [items[0]] + items[1..];
    }
  }

  /** Order and duplicates in `items` do not change the answer of `In`: only the set of elements matters. */
  lemma InDependsOnlyOnElements<T>(x: T, a: seq<T>, b: seq<T>)
    requires forall y :: y in a <==> y in b
    ensures In(x, a) == In(x, b)
  {
    InIsMembership(x, a);
    InIsMembership(x, b);
  }

  /** `Many` is false exactly for the empty and the single-element collections. */
  lemma NotManyMeansAtMostOne<T>(items: seq<T>)
    ensures !Many(items) <==> items == [] || items == [items[0]]
  {
    if |items| > 1 {
      assert items[1] in items && |[items[0]]| == 1;
    }
  }
}
