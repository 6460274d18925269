/**
 * The scan of `do_search`: the corpus is cut into chunks of 100 000
 * users; each chunk is scanned into its own buffer, which is then appended
 * to the shared results, while a progress counter is bumped every 4096
 * users.  The chunks run on a thread pool; here they run one after the
 * other, in an arrival order that is a parameter.
 */
module Scan {
  import opened Wrappers
  import opened Model
  import opened Search

  /** The chunk size passed to `par_chunks`. */
  const CHUNK_SIZE: nat := 100_000

  /** The amount added to the progress counter at each tick. */
  const TICK: nat := 0xfff

  /** Concatenation of a list of lists. */
  function Flatten<T>(xss: seq<seq<T>>): seq<T>
  {
    if xss == [] then [] else xss[0] + Flatten(xss[1..])
  }

  lemma {:induction false} FlattenAppend<T>(a: seq<seq<T>>, b: seq<seq<T>>)
    ensures Flatten(a + b) == Flatten(a) + Flatten(b)
  {
    if a == [] {
      assert a + b == b;
    } else {
      assert (a + b)[1..] == a[1..] + b;
      FlattenAppend(a[1..], b);
    }
  }

  /** `par_chunks(n)`: consecutive slices of `n` elements, the last one possibly shorter. */
  function Chunks<T>(xs: seq<T>, n: nat): (cs: seq<seq<T>>)
    requires n > 0
    ensures Flatten(cs) == xs
    ensures forall i :: 0 <= i < |cs| ==> 0 < |cs[i]| <= n
    ensures forall i :: 0 <= i < |cs| - 1 ==> |cs[i]| == n
    decreases |xs|
  {
    if xs == [] then []
    else if |xs| <= n then
      assert Flatten([xs]) == xs + Flatten<T>([]);
      [xs]
    else
      var rest := Chunks(xs[n..], n);
      assert Flatten([xs[..n]] + rest) == xs[..n] + Flatten(rest);
      assert xs == xs[..n] + xs[n..];
      [xs[..n]] + rest
  }

  /** `par_chunks(n)` yields `ceil(|xs| / n)` slices: the last slice ends the list and is not empty. */
  lemma {:induction false} ChunksCount<T>(xs: seq<T>, n: nat)
    requires n > 0
    ensures xs == [] ==> |Chunks(xs, n)| == 0
    ensures xs != [] ==> (|Chunks(xs, n)| - 1) * n < |xs| <= |Chunks(xs, n)| * n
    decreases |xs|
  {
    if |xs| > n {
      ChunksCount(xs[n..], n);
      var c := |Chunks(xs[n..], n)|;
      assert |Chunks(xs, n)| == c + 1;
      assert (c + 1) * n == c * n + n;
    }
  }

  /** The hit `user` gives under the searcher, if any. */
  function HitOf(user: Username, s: Searcher, e: Engines): seq<Match>
  {
    match Matches(s, user.id, e)
    case Some(k) => [NewMatch(user, k)]
    case None => []
  }

  /** The hits among `users`, in corpus order: `Match::new(user, k)` for each user whose id matches. */
  function Hits(users: seq<Username>, s: Searcher, e: Engines): (r: seq<Match>)
    ensures |r| <= |users|
  {
    if users == [] then [] else HitOf(users[0], s, e) + Hits(users[1..], s, e)
  }

  lemma {:induction false} HitsAppend(a: seq<Username>, b: seq<Username>, s: Searcher, e: Engines)
    ensures Hits(a + b, s, e) == Hits(a, s, e) + Hits(b, s, e)
  {
    if a == [] {
      assert a + b == b;
    } else {
      var t := a[1..];
      assert (a + b)[0] == a[0] && (a + b)[1..] == t + b;
      HitsAppend(t, b, s, e);
      HitsCons(a[0], t + b, Hits(t, s, e), Hits(b, s, e), s, e);
    }
  }

  /** Regrouping the head's hits in front of an appended tail. */
  lemma HitsCons(u: Username, t: seq<Username>, x: seq<Match>, y: seq<Match>, s: Searcher, e: Engines)
    requires Hits(t, s, e) == x + y
    ensures HitOf(u, s, e) + Hits(t, s, e) == (HitOf(u, s, e) + x) + y
  {
  }

  /** A match is a hit exactly when it is `Match::new(user, k)` for a user of the list that matches at `k`. */
  lemma {:induction false} HitsMembers(users: seq<Username>, s: Searcher, e: Engines, m: Match)
    ensures m in Hits(users, s, e) <==>
      exists i :: 0 <= i < |users| && Matches(s, users[i].id, e).Some?
                  && m == NewMatch(users[i], Matches(s, users[i].id, e).value)
  {
    if users != [] {
      HitsMembers(users[1..], s, e, m);
      assert forall i :: 1 <= i < |users| ==> users[i] == users[1..][i - 1];
      if m in Hits(users[1..], s, e) {
        var i :| 0 <= i < |users[1..]| && Matches(s, users[1..][i].id, e).Some?
                  && m == NewMatch(users[1..][i], Matches(s, users[1..][i].id, e).value);
        assert users[i + 1] == users[1..][i];
      }
    }
  }

  /** How many `i` in `0..n` have `i & 0xfff == 0`, that is, are multiples of 4096. */
  function Ticks(n: nat): nat
  {
    (n + 4095) / 4096
  }

  /**
   * The loop over one chunk: the hits, in order, and the amount the chunk
   * adds to the progress counter (0xfff at every index whose low twelve
   * bits are zero; `i & 0xfff` keeps the low twelve bits, so it is
   * `i % 4096`).
   */
  method ScanChunk(users: seq<Username>, s: Searcher, e: Engines) returns (curr: seq<Match>, ticks: nat)
    ensures curr == Hits(users, s, e)
    ensures ticks == TICK * Ticks(|users|)
  {
    curr := [];
    ticks := 0;
    for i := 0 to |users|
      invariant curr == Hits(users[..i], s, e)
      invariant ticks == TICK * Ticks(i)
    {
      var user := users[i];
      match Matches(s, user.id, e) {
        case Some(k) => curr := curr + [NewMatch(user, k)];
        case None =>
      }
      if i % 4096 == 0 {
        ticks := ticks + TICK;
      }
      HitsSnoc(users, i, s, e);
      TicksStep(i);
      assert TICK * (Ticks(i) + 1) == TICK * Ticks(i) + TICK;
    }
    assert users[..|users|] == users;
  }

  lemma HitsSnoc(users: seq<Username>, i: nat, s: Searcher, e: Engines)
    requires i < |users|
    ensures Hits(users[..i + 1], s, e) == Hits(users[..i], s, e) + HitOf(users[i], s, e)
  {
    assert users[..i + 1] == users[..i] + [users[i]];
    HitsAppend(users[..i], [users[i]], s, e);
    assert Hits([users[i]], s, e) == HitOf(users[i], s, e) + Hits([], s, e);
  }

  /** One more index adds a tick exactly when it is a multiple of 4096. */
  lemma TicksStep(i: nat)
    ensures Ticks(i + 1) == Ticks(i) + (if i % 4096 == 0 then 1 else 0)
  {
    var q, r := i / 4096, i % 4096;
    assert i == 4096 * q + r;
    assert Ticks(i + 1) == q + 1 by {
      assert i + 1 + 4095 == 4096 * (q + 1) + r;
    }
    if r == 0 {
      assert i + 4095 == 4096 * q + 4095;
    } else {
      assert i + 4095 == 4096 * (q + 1) + (r - 1);
    }
  }

  /** `f` applied to every element. */
  function MapSeq<A, B>(f: A -> B, xs: seq<A>): (r: seq<B>)
    ensures |r| == |xs|
  {
    if xs == [] then [] else [f(xs[0])] + MapSeq(f, xs[1..])
  }

  lemma {:induction false} MapSeqAppend<A, B>(f: A -> B, a: seq<A>, b: seq<A>)
    ensures MapSeq(f, a + b) == MapSeq(f, a) + MapSeq(f, b)
  {
    if a == [] {
      assert a + b == b;
    } else {
      assert (a + b)[1..] == a[1..] + b;
      MapSeqAppend(f, a[1..], b);
    }
  }

  /** Mapping a reordered list gives a reordering of the mapped list. */
  lemma {:induction false} MapSeqPermutation<A, B>(f: A -> B, a: seq<A>, b: seq<A>)
    requires multiset(a) == multiset(b)
    ensures multiset(MapSeq(f, a)) == multiset(MapSeq(f, b))
    decreases |a|
  {
    if a == [] {
      assert |multiset(b)| == 0;
    } else {
      assert a[0] in multiset(b);
      var i :| 0 <= i < |b| && b[i] == a[0];
      var rest := b[..i] + b[i + 1..];
      PermutationTail(a, b, i);
      MapSeqPermutation(f, a[1..], rest);
      MapSeqAround(f, b, i);
    }
  }

  lemma MapSeqAround<A, B>(f: A -> B, b: seq<A>, i: nat)
    requires i < |b|
    ensures multiset(MapSeq(f, b)) == multiset{f(b[i])} + multiset(MapSeq(f, b[..i] + b[i + 1..]))
  {
    var p, q := b[..i], b[i + 1..];
    SplitAt(b, i);
    MapSeqAppend(f, p + [b[i]], q);
    MapSeqAppend(f, p, [b[i]]);
    MapSeqAppend(f, p, q);
  }

  /** The hits of each chunk, chunk by chunk. */
  function HitsPerChunk(chunks: seq<seq<Username>>, s: Searcher, e: Engines): (r: seq<seq<Match>>)
    ensures |r| == |chunks|
  {
    MapSeq(c => Hits(c, s, e), chunks)
  }

  /** Scanning chunk by chunk in corpus order finds the hits of the whole corpus, in order. */
  lemma {:induction false} ChunkedHitsInOrder(chunks: seq<seq<Username>>, s: Searcher, e: Engines)
    ensures Flatten(HitsPerChunk(chunks, s, e)) == Hits(Flatten(chunks), s, e)
  {
    if chunks != [] {
      ChunkedHitsInOrder(chunks[1..], s, e);
      assert HitsPerChunk(chunks, s, e) == [Hits(chunks[0], s, e)] + HitsPerChunk(chunks[1..], s, e);
      HitsAppend(chunks[0], Flatten(chunks[1..]), s, e);
    }
  }

  /** One more chunk adds its hits at the end. */
  lemma HitsPerChunkSnoc(chunks: seq<seq<Username>>, c: seq<Username>, s: Searcher, e: Engines)
    ensures Flatten(HitsPerChunk(chunks + [c], s, e)) == Flatten(HitsPerChunk(chunks, s, e)) + Hits(c, s, e)
  {
    var f := (x: seq<Username>) => Hits(x, s, e);
    assert HitsPerChunk(chunks + [c], s, e) == MapSeq(f, chunks + [c]);
    MapSeqAppend(f, chunks, [c]);
    assert MapSeq(f, [c]) == [Hits(c, s, e)] + MapSeq(f, []);
    assert HitsPerChunk(chunks + [c], s, e) == HitsPerChunk(chunks, s, e) + [Hits(c, s, e)];
    FlattenAppend(HitsPerChunk(chunks, s, e), [Hits(c, s, e)]);
    assert Flatten([Hits(c, s, e)]) == Hits(c, s, e) + Flatten<Match>([]);
  }

  /**
   * The search threads as one loop: `ScanChunk` on each chunk in the order
   * the chunks are handed in, its hits appended and its ticks added.
   */
  method ScanChunks(arrival: seq<seq<Username>>, s: Searcher, e: Engines) returns (hits: seq<Match>, ticks: nat)
    ensures hits == Flatten(HitsPerChunk(arrival, s, e))
    ensures ticks == TICK * TicksOf(arrival)
  {
    hits := [];
    ticks := 0;
    for i := 0 to |arrival|
      invariant hits == Flatten(HitsPerChunk(arrival[..i], s, e))
      invariant ticks == TICK * TicksOf(arrival[..i])
    {
      var curr, t := ScanChunk(arrival[i], s, e);
      assert arrival[..i + 1] == arrival[..i] + [arrival[i]];
      HitsPerChunkSnoc(arrival[..i], arrival[i], s, e);
      TicksOfAppend(arrival[..i], [arrival[i]]);
      assert TicksOf([arrival[i]]) == Ticks(|arrival[i]|);
      var n := TicksOf(arrival[..i]);
      assert TICK * (n + Ticks(|arrival[i]|)) == TICK * n + TICK * Ticks(|arrival[i]|);
      hits := hits + curr;
      ticks := ticks + t;
    }
    assert arrival[..|arrival|] == arrival;
  }

  /** Concatenating lists in another order gives the same elements. */
  lemma {:induction false} FlattenPermutation<T>(a: seq<seq<T>>, b: seq<seq<T>>)
    requires multiset(a) == multiset(b)
    ensures multiset(Flatten(a)) == multiset(Flatten(b))
    decreases |a|
  {
    if a == [] {
      assert |multiset(b)| == 0;
    } else {
      assert a[0] in multiset(b);
      var i :| 0 <= i < |b| && b[i] == a[0];
      var rest := b[..i] + b[i + 1..];
      PermutationTail(a, b, i);
      FlattenPermutation(a[1..], rest);
      FlattenAround(b, i);
    }
  }

  /** Taking the head of `a` and the same element at `i` out of `b` leaves two permutations of each other. */
  lemma PermutationTail<T>(a: seq<T>, b: seq<T>, i: nat)
    requires multiset(a) == multiset(b) && a != [] && i < |b| && b[i] == a[0]
    ensures multiset(a[1..]) == multiset(b[..i] + b[i + 1..])
  {
    RemoveAt(b, i);
    assert a == [a[0]] + a[1..];
    assert multiset(a[1..]) == multiset(a) - multiset{a[0]};
  }

  /** The elements of a concatenation are those of list `i` and those of the others. */
  lemma FlattenAround<T>(b: seq<seq<T>>, i: nat)
    requires i < |b|
    ensures multiset(Flatten(b)) == multiset(b[i]) + multiset(Flatten(b[..i] + b[i + 1..]))
  {
    var p, q := b[..i], b[i + 1..];
    SplitAt(b, i);
    FlattenAppend(p + [b[i]], q);
    FlattenAppend(p, [b[i]]);
    FlattenAppend(p, q);
    assert Flatten([b[i]]) == b[i] + Flatten<T>([]);
  }

  /** A list is its part before `i`, its element `i` and its part after `i`. */
  lemma SplitAt<T>(b: seq<T>, i: nat)
    requires i < |b|
    ensures b == b[..i] + [b[i]] + b[i + 1..]
  {
    var c := b[..i] + [b[i]] + b[i + 1..];
    assert |c| == |b|;
    forall k | 0 <= k < |b|
      ensures c[k] == b[k]
    {
      if k < i {
        assert c[k] == b[..i][k];
      } else if k > i {
        assert c[k] == b[i + 1..][k - i - 1];
      }
    }
  }

  /** Taking out the element at `i` takes one copy of it out of the multiset. */
  lemma RemoveAt<T>(b: seq<T>, i: nat)
    requires i < |b|
    ensures multiset(b) == multiset(b[..i] + b[i + 1..]) + multiset{b[i]}
  {
    SplitAt(b, i);
  }

  /** Progress ticks of a list of chunks. */
  function TicksOf(chunks: seq<seq<Username>>): nat
  {
    if chunks == [] then 0 else Ticks(|chunks[0]|) + TicksOf(chunks[1..])
  }

  lemma {:induction false} TicksOfAppend(a: seq<seq<Username>>, b: seq<seq<Username>>)
    ensures TicksOf(a + b) == TicksOf(a) + TicksOf(b)
  {
    if a == [] {
      assert a + b == b;
    } else {
      assert (a + b)[1..] == a[1..] + b;
      TicksOfAppend(a[1..], b);
    }
  }

  /** The progress a scan reaches does not depend on the order in which chunks finish. */
  lemma {:induction false} TicksOfPermutation(a: seq<seq<Username>>, b: seq<seq<Username>>)
    requires multiset(a) == multiset(b)
    ensures TicksOf(a) == TicksOf(b)
    decreases |a|
  {
    if a == [] {
      assert |multiset(b)| == 0;
    } else {
      assert a[0] in multiset(b);
      var i :| 0 <= i < |b| && b[i] == a[0];
      var rest := b[..i] + b[i + 1..];
      PermutationTail(a, b, i);
      TicksOfPermutation(a[1..], rest);
      TicksOfAround(b, i);
    }
  }

  lemma TicksOfAround(b: seq<seq<Username>>, i: nat)
    requires i < |b|
    ensures TicksOf(b) == Ticks(|b[i]|) + TicksOf(b[..i] + b[i + 1..])
  {
    var p, q := b[..i], b[i + 1..];
    SplitAt(b, i);
    TicksOfAppend(p + [b[i]], q);
    TicksOfAppend(p, [b[i]]);
    TicksOfAppend(p, q);
  }

  /**
   * Whatever order the chunks arrive in, and whatever the chunk size, the
   * scan yields the hits of the corpus, each once: a permutation of the
   * hits in corpus order.
   */
  lemma ScanFindsAllHits(users: seq<Username>, n: nat, arrival: seq<seq<Username>>, s: Searcher, e: Engines)
    requires n > 0
    requires multiset(arrival) == multiset(Chunks(users, n))
    ensures multiset(Flatten(HitsPerChunk(arrival, s, e))) == multiset(Hits(users, s, e))
  {
    var chunks := Chunks(users, n);
    ChunkedHitsInOrder(chunks, s, e);
    MapSeqPermutation(c => Hits(c, s, e), arrival, chunks);
    FlattenPermutation(HitsPerChunk(arrival, s, e), HitsPerChunk(chunks, s, e));
  }

  /**
   * The counter is a tick count, not the corpus size: one user reports
   * 4095 of 1, a chunk of 4096 users 4095 of 4096, a chunk of 4095 users
   * exactly 4095, and a full chunk 102 375 of 100 000.
   */
  lemma ProgressIsApproximate()
    ensures TICK * Ticks(1) == 4095 > 1
    ensures TICK * Ticks(4096) == 4095 < 4096
    ensures TICK * Ticks(4095) == 4095
    ensures TICK * Ticks(CHUNK_SIZE) == 102_375 > CHUNK_SIZE
  {
  }

  /**
   * What one chunk adds is within a tick of its size: at least 4095/4096
   * of it, and less than the size plus 4095.
   */
  lemma ChunkProgressBounds(n: nat)
    ensures 4095 * n <= 4096 * (TICK * Ticks(n))
    ensures TICK * Ticks(n) < n + TICK
  {
    var q := Ticks(n);
    assert 4096 * q <= n + 4095 < 4096 * q + 4096;
    assert n <= 4096 * q;
    assert 4095 * n <= 4095 * (4096 * q) == 4096 * (4095 * q);
    if q > 0 {
      assert 4095 * (q - 1) <= 4096 * (q - 1) < n;
    }
  }

  /**
   * So the whole scan ends within one tick per chunk of the corpus size:
   * at least 4095/4096 of the users, and less than the users plus 4095
   * per chunk.
   */
  lemma {:induction false} ScanProgressBounds(chunks: seq<seq<Username>>)
    ensures 4095 * |Flatten(chunks)| <= 4096 * (TICK * TicksOf(chunks))
    ensures chunks != [] ==> TICK * TicksOf(chunks) < |Flatten(chunks)| + TICK * |chunks|
  {
    if chunks != [] {
      ChunkProgressBounds(|chunks[0]|);
      ScanProgressBounds(chunks[1..]);
      assert |Flatten(chunks)| == |chunks[0]| + |Flatten(chunks[1..])|;
      assert TICK * TicksOf(chunks) == TICK * Ticks(|chunks[0]|) + TICK * TicksOf(chunks[1..]);
    }
  }
}
