/**
 * The orderings the results are sorted into: by distance `k` alone after a
 * Levenshtein search, and by the composite key after account information
 * was fetched.  `sort_unstable_by_key` promises a permutation sorted by the
 * key and nothing about the order of equal keys, which is what the
 * contracts here state.
 */
module Ranking {
  import opened Wrappers
  import opened Model

  /** A sort key: four integers compared lexicographically, like a Rust tuple. */
  datatype SortKey = SortKey(a: int, b: int, c: int, d: int)

  predicate KeyLe(x: SortKey, y: SortKey)
  {
    x.a < y.a
    || (x.a == y.a && (x.b < y.b
    || (x.b == y.b && (x.c < y.c
    || (x.c == y.c && x.d <= y.d)))))
  }

  lemma KeyLeTotal(x: SortKey, y: SortKey)
    ensures KeyLe(x, y) || KeyLe(y, x)
    ensures KeyLe(x, y) && KeyLe(y, x) ==> x == y
  {
  }

  /** Which of the two keys a sort uses. */
  datatype Order = ByK | Composite

  /** `m.timestamp()` of an optional time, 0 when absent. */
  function SecondsOr0(t: Option<Millis>): int
  {
    match t
    case None => 0
    case Some(ms) => Seconds(ms)
  }

  /**
   * The key of a result: `m.k`, or the tuple
   * `(k, -seen_ts or 0, -created_ts or 0, u32::MAX - games)`.
   */
  function Key(order: Order, m: Match): (key: SortKey)
    ensures key.a == m.k
    ensures order == Composite ==>
      key.b == -SecondsOr0(m.seenAt) && key.c == -SecondsOr0(m.createdAt) && key.d == U32_MAX - m.games
    ensures order == ByK ==> key.b == 0 && key.c == 0 && key.d == 0
  {
    match order
    case ByK => SortKey(m.k, 0, 0, 0)
    case Composite => SortKey(m.k, -SecondsOr0(m.seenAt), -SecondsOr0(m.createdAt), U32_MAX - m.games)
  }

  /** Every element's key is at most the key of every later element. */
  predicate SortedBy(order: Order, xs: seq<Match>)
  {
    forall i, j :: 0 <= i < j < |xs| ==> KeyLe(Key(order, xs[i]), Key(order, xs[j]))
  }

  /** Every key of `xs` is at least `b`. */
  predicate AllAbove(order: Order, b: SortKey, xs: seq<Match>)
  {
    forall k :: 0 <= k < |xs| ==> KeyLe(b, Key(order, xs[k]))
  }

  /** A list with a head is sorted when the tail is and nothing in the tail is below the head. */
  lemma SortedCons(order: Order, h: Match, xs: seq<Match>)
    requires SortedBy(order, xs) && AllAbove(order, Key(order, h), xs)
    ensures SortedBy(order, [h] + xs)
  {
  }

  /** `x` put before the first element whose key is larger. */
  function Insert(order: Order, x: Match, xs: seq<Match>): (r: seq<Match>)
    ensures multiset(r) == multiset(xs) + multiset{x}
  {
    if xs == [] then [x]
    else if KeyLe(Key(order, x), Key(order, xs[0])) then [x] + xs
    else
      assert xs == [xs[0]] + xs[1..];
      [xs[0]] + Insert(order, x, xs[1..])
  }

  lemma {:induction false} InsertAbove(order: Order, b: SortKey, x: Match, xs: seq<Match>)
    requires AllAbove(order, b, xs) && KeyLe(b, Key(order, x))
    ensures AllAbove(order, b, Insert(order, x, xs))
  {
    if xs != [] && !KeyLe(Key(order, x), Key(order, xs[0])) {
      InsertAbove(order, b, x, xs[1..]);
    }
  }

  /** Inserting into a sorted list keeps it sorted. */
  lemma {:induction false} InsertSorted(order: Order, x: Match, xs: seq<Match>)
    requires SortedBy(order, xs)
    ensures SortedBy(order, Insert(order, x, xs))
  {
    if xs == [] {
    } else if KeyLe(Key(order, x), Key(order, xs[0])) {
      SortedCons(order, x, xs);
    } else {
      InsertSorted(order, x, xs[1..]);
      KeyLeTotal(Key(order, x), Key(order, xs[0]));
      InsertAbove(order, Key(order, xs[0]), x, xs[1..]);
      SortedCons(order, xs[0], Insert(order, x, xs[1..]));
    }
  }

  /**
   * `sort_unstable_by_key`: the results rearranged so that keys ascend.  The
   * loop inserts each element into the sorted prefix built so far.
   */
  method SortByKey(order: Order, xs: seq<Match>) returns (r: seq<Match>)
    ensures SortedBy(order, r)
    ensures multiset(r) == multiset(xs)
  {
    r := [];
    for i := 0 to |xs|
      invariant SortedBy(order, r)
      invariant multiset(r) == multiset(xs[..i])
    {
      InsertSorted(order, xs[i], r);
      r := Insert(order, xs[i], r);
      assert xs[..i + 1] == xs[..i] + [xs[i]];
    }
    assert xs[..|xs|] == xs;
  }

  /** After the sort by `k`, distances never decrease along the list. */
  lemma SortedByKAscends(xs: seq<Match>, i: int, j: int)
    requires SortedBy(ByK, xs)
    requires 0 <= i < j < |xs|
    ensures xs[i].k <= xs[j].k
  {
    assert KeyLe(Key(ByK, xs[i]), Key(ByK, xs[j]));
  }

  /**
   * After the composite sort: lower distances come first; among equal
   * distances, the more recently seen account first (an account never seen
   * counts as seen at the epoch); then the more recently created; then the
   * one with more games.
   */
  lemma CompositeRanking(xs: seq<Match>, i: int, j: int)
    requires SortedBy(Composite, xs)
    requires 0 <= i < j < |xs|
    ensures xs[i].k <= xs[j].k
    ensures xs[i].k == xs[j].k ==> SecondsOr0(xs[i].seenAt) >= SecondsOr0(xs[j].seenAt)
    ensures xs[i].k == xs[j].k && SecondsOr0(xs[i].seenAt) == SecondsOr0(xs[j].seenAt)
            ==> SecondsOr0(xs[i].createdAt) >= SecondsOr0(xs[j].createdAt)
    ensures xs[i].k == xs[j].k && SecondsOr0(xs[i].seenAt) == SecondsOr0(xs[j].seenAt)
            && SecondsOr0(xs[i].createdAt) == SecondsOr0(xs[j].createdAt)
            ==> xs[i].games >= xs[j].games
  {
    assert KeyLe(Key(Composite, xs[i]), Key(Composite, xs[j]));
  }

  /** The composite order refines the order by `k`: a list sorted by it is sorted by `k` too. */
  lemma CompositeRefinesByK(xs: seq<Match>)
    requires SortedBy(Composite, xs)
    ensures SortedBy(ByK, xs)
  {
    forall i, j | 0 <= i < j < |xs|
      ensures KeyLe(Key(ByK, xs[i]), Key(ByK, xs[j]))
    {
      CompositeRanking(xs, i, j);
    }
  }
}
