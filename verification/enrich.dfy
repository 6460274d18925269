/**
 * Fetching account information for the results (`do_fetch_info_inner` in
 * the Current version, the inline worker of the "Fetch additional info"
 * button in the Legacy one): the names of the first 1500 results are
 * looked up in batches of 300, the loop stopping at the first failing
 * batch; every fetched record then updates the first result with its id.
 */
module Enrich {
  import opened Wrappers
  import opened Model
  import opened Api
  import opened Scan

  /** The batch size of one bulk lookup. */
  const BATCH_SIZE: nat := 300

  /** At most this many results are looked up: five batches. */
  const FETCH_LIMIT: nat := 5 * BATCH_SIZE

  /** `results.len().min(5 * 300)`. */
  function FetchCount(results: seq<Match>): (max: nat)
    ensures max <= |results| && max <= FETCH_LIMIT
    ensures max == |results| || max == FETCH_LIMIT
  {
    Min(|results|, FETCH_LIMIT)
  }

  /** The names of the results, in order. */
  function NamesOf(results: seq<Match>): (names: seq<string>)
    ensures |names| == |results|
    ensures forall i :: 0 <= i < |results| ==> names[i] == results[i].name
  {
    seq(|results|, i requires 0 <= i < |results| => results[i].name)
  }

  /** The batches looked up: the names of the first `FetchCount` results, 300 at a time. */
  function Batches(results: seq<Match>): seq<seq<string>>
  {
    Chunks(NamesOf(results[..FetchCount(results)]), BATCH_SIZE)
  }

  /** At most five batches of at most 300 names, together the names of the first 1500 results. */
  lemma BatchesBound(results: seq<Match>)
    ensures |Batches(results)| <= 5
    ensures forall i :: 0 <= i < |Batches(results)| ==> 0 < |Batches(results)[i]| <= BATCH_SIZE
    ensures Flatten(Batches(results)) == NamesOf(results[..FetchCount(results)])
  {
    var names := NamesOf(results[..FetchCount(results)]);
    ChunksCount(names, BATCH_SIZE);
  }

  /** `HashMap::extend`: the records inserted one after the other, a later one replacing an earlier one with the same id. */
  function Absorb(m: map<string, ApiUser>, users: seq<ApiUser>): map<string, ApiUser>
    decreases |users|
  {
    if users == [] then m else Absorb(m[users[0].id := users[0]], users[1..])
  }

  /** After `Absorb` an id is present when it was before or some record carries it; its record is the last such one. */
  lemma {:induction false} AbsorbContents(m: map<string, ApiUser>, users: seq<ApiUser>, id: string)
    ensures id in Absorb(m, users) <==> id in m || exists i :: 0 <= i < |users| && users[i].id == id
    ensures forall i :: 0 <= i < |users| && users[i].id == id
                        && (forall j :: i < j < |users| ==> users[j].id != id)
                        ==> Absorb(m, users)[id] == users[i]
    ensures (forall i :: 0 <= i < |users| ==> users[i].id != id) && id in m ==> Absorb(m, users)[id] == m[id]
    decreases |users|
  {
    if users != [] {
      var m' := m[users[0].id := users[0]];
      AbsorbContents(m', users[1..], id);
      assert forall i :: 1 <= i < |users| ==> users[i] == users[1..][i - 1];
      if exists i :: 1 <= i < |users| && users[i].id == id {
        var i :| 1 <= i < |users| && users[i].id == id;
        assert users[1..][i - 1].id == id;
      }
    }
  }

  /** The outcome of the lookup loop: the records gathered, the batches that succeeded, the error that stopped it. */
  datatype Fetched = Fetched(users: map<string, ApiUser>, done: nat, error: Option<string>)

  /** The lookup loop, batch after batch, stopping at the first failure, starting from the records in `acc`. */
  function Collect(batches: seq<seq<string>>, post: string -> Result<seq<ApiUser>, string>, acc: map<string, ApiUser>): (f: Fetched)
    ensures f.done <= |batches|
  {
    if batches == [] then Fetched(acc, 0, None)
    else match FetchUsers(batches[0], post)
      case Err(e) => Fetched(acc, 0, Some(e))
      case Ok(users) =>
        var rest := Collect(batches[1..], post, Absorb(acc, users));
        Fetched(rest.users, rest.done + 1, rest.error)
  }

  /**
   * The batches before `done` all succeeded; the loop ends with an error
   * exactly when it stopped early, and then it is the error of batch `done`.
   */
  lemma {:induction false} CollectStopsAtFirstError(batches: seq<seq<string>>, post: string -> Result<seq<ApiUser>, string>, acc: map<string, ApiUser>)
    ensures var f := Collect(batches, post, acc);
      (forall i :: 0 <= i < f.done ==> FetchUsers(batches[i], post).Ok?)
      && (f.error.None? <==> f.done == |batches|)
      && (f.error.Some? ==> FetchUsers(batches[f.done], post) == Err(f.error.value))
  {
    if batches != [] && FetchUsers(batches[0], post).Ok? {
      var users := FetchUsers(batches[0], post).value;
      CollectStopsAtFirstError(batches[1..], post, Absorb(acc, users));
      assert forall i :: 1 <= i < |batches| ==> batches[i] == batches[1..][i - 1];
    }
  }

  /** With no failing batch, every batch was looked up. */
  lemma AllBatchesSucceed(batches: seq<seq<string>>, post: string -> Result<seq<ApiUser>, string>)
    requires forall i :: 0 <= i < |batches| ==> FetchUsers(batches[i], post).Ok?
    ensures Collect(batches, post, map[]).done == |batches|
    ensures Collect(batches, post, map[]).error == None
  {
    CollectStopsAtFirstError(batches, post, map[]);
  }

  /**
   * The lookup loop: each successful batch extends the record map and
   * counts as one step of progress; the first failure ends the loop.
   */
  method CollectUsers(batches: seq<seq<string>>, post: string -> Result<seq<ApiUser>, string>) returns (f: Fetched)
    ensures f == Collect(batches, post, map[])
  {
    var users: map<string, ApiUser> := map[];
    var progress := 0;
    var error: Option<string> := None;
    var i := 0;
    while i < |batches|
      invariant 0 <= i <= |batches| && progress == i
      invariant var rest := Collect(batches[i..], post, users);
        Collect(batches, post, map[]) == Fetched(rest.users, rest.done + progress, rest.error)
    {
      assert batches[i..][1..] == batches[i + 1..];
      match FetchUsers(batches[i], post) {
        case Ok(found) =>
          users := Absorb(users, found);
        case Err(e) =>
          error := Some(e);
          break;
      }
      progress := progress + 1;
      i := i + 1;
    }
    f := Fetched(users, progress, error);
  }

  /** The fields a fetched record overwrites. */
  function Update(m: Match, u: ApiUser): (r: Match)
    ensures r.id == m.id && r.name == m.name && r.k == m.k
    ensures r.createdAt == u.createdAt && r.seenAt == u.seenAt
    ensures r.games == SumGames(u.perfs) && r.enabled == !u.disabled
  {
    m.(createdAt := u.createdAt, seenAt := u.seenAt, games := SumGames(u.perfs), enabled := !u.disabled)
  }

  /** Walks the results; a result whose id is in the map takes that record, which is removed from the map. */
  function ApplyFetched(rs: seq<Match>, m: map<string, ApiUser>): (r: seq<Match>)
    ensures |r| == |rs|
  {
    if rs == [] then []
    else if rs[0].id in m then [Update(rs[0], m[rs[0].id])] + ApplyFetched(rs[1..], m - {rs[0].id})
    else [rs[0]] + ApplyFetched(rs[1..], m)
  }

  /** No result before `i` has the id of result `i`. */
  predicate FirstWithId(rs: seq<Match>, i: nat)
    requires i < |rs|
  {
    forall j :: 0 <= j < i ==> rs[j].id != rs[i].id
  }

  /**
   * Result `i` takes the record fetched for its id exactly when it is the
   * first result with that id; every other result is left as it was.
   */
  lemma {:induction false} ApplyFetchedAt(rs: seq<Match>, m: map<string, ApiUser>, i: nat)
    requires i < |rs|
    ensures ApplyFetched(rs, m)[i] ==
      if rs[i].id in m && FirstWithId(rs, i) then Update(rs[i], m[rs[i].id]) else rs[i]
  {
    if i > 0 {
      var t := rs[1..];
      var m' := if rs[0].id in m then m - {rs[0].id} else m;
      assert ApplyFetched(rs, m)[i] == ApplyFetched(t, m')[i - 1] by {
        if rs[0].id in m {
          assert ApplyFetched(rs, m) == [Update(rs[0], m[rs[0].id])] + ApplyFetched(t, m');
        } else {
          assert ApplyFetched(rs, m) == [rs[0]] + ApplyFetched(t, m');
        }
      }
      ApplyFetchedAt(t, m', i - 1);
      assert t[i - 1] == rs[i];
      assert FirstWithId(t, i - 1) <==> forall j :: 1 <= j < i ==> rs[j].id != rs[i].id by {
        assert forall j :: 1 <= j < i ==> t[j - 1] == rs[j];
      }
      if rs[i].id == rs[0].id {
        assert !FirstWithId(rs, i);
      }
    }
  }

  /** A fetched record updates at most one result: two updated results never share an id. */
  lemma EachRecordUsedOnce(rs: seq<Match>, m: map<string, ApiUser>, i: nat, j: nat)
    requires i < j < |rs|
    requires ApplyFetched(rs, m)[i] != rs[i] && ApplyFetched(rs, m)[j] != rs[j]
    ensures rs[i].id != rs[j].id
  {
    ApplyFetchedAt(rs, m, i);
    ApplyFetchedAt(rs, m, j);
  }

  /** The update never touches the identity of a result: id, name and distance stay. */
  lemma ApplyFetchedKeepsIdentity(rs: seq<Match>, m: map<string, ApiUser>, i: nat)
    requires i < |rs|
    ensures ApplyFetched(rs, m)[i].id == rs[i].id
    ensures ApplyFetched(rs, m)[i].name == rs[i].name
    ensures ApplyFetched(rs, m)[i].k == rs[i].k
  {
    ApplyFetchedAt(rs, m, i);
  }

  /** One step of the in-place walk: the head takes its record, if any, and the walk goes on with it removed. */
  lemma ApplyFetchedStep(rs: seq<Match>, m: map<string, ApiUser>)
    requires rs != []
    ensures ApplyFetched(rs, m) ==
      [if rs[0].id in m then Update(rs[0], m[rs[0].id]) else rs[0]]
      + ApplyFetched(rs[1..], if rs[0].id in m then m - {rs[0].id} else m)
  {
  }

  /** `ApplyFetchedStep` on the part of `rs` from `i` up to `max`. */
  lemma ApplyFetchedFrom(rs: seq<Match>, i: nat, max: nat, m: map<string, ApiUser>)
    requires i < max <= |rs|
    ensures ApplyFetched(rs[i..max], m) ==
      [if rs[i].id in m then Update(rs[i], m[rs[i].id]) else rs[i]]
      + ApplyFetched(rs[i + 1..max], if rs[i].id in m then m - {rs[i].id} else m)
  {
    var tail := rs[i..max];
    assert tail[0] == rs[i];
    assert tail[1..] == rs[i + 1..max];
    ApplyFetchedStep(tail, m);
  }

  lemma Assoc<T>(a: seq<T>, b: seq<T>, c: seq<T>)
    ensures a + (b + c) == (a + b) + c
  {
  }

  /** The walk over `results[..max]` as the loop does it: each result takes the record of its id, which is then used up. */
  method ApplyInOrder(rs: seq<Match>, max: nat, fetched: map<string, ApiUser>) returns (out: seq<Match>)
    requires max <= |rs|
    ensures out == ApplyFetched(rs[..max], fetched) + rs[max..]
  {
    var updated: seq<Match> := [];
    var remaining := fetched;
    assert rs[0..max] == rs[..max];
    for i := 0 to max
      invariant updated + ApplyFetched(rs[i..max], remaining) == ApplyFetched(rs[..max], fetched)
    {
      ApplyFetchedFrom(rs, i, max, remaining);
      ghost var later := ApplyFetched(rs[i + 1..max], if rs[i].id in remaining then remaining - {rs[i].id} else remaining);
      var user := rs[i];
      var next := user;
      if user.id in remaining {
        next := Update(user, remaining[user.id]);
        remaining := remaining - {user.id};
      }
      Assoc(updated, [next], later);
      updated := updated + [next];
    }
    assert rs[max..max] == [];
    assert updated + [] == updated;
    out := updated + rs[max..];
  }

  /** `retain(|u| u.enabled)`: the enabled results, in order. */
  function Retain(rs: seq<Match>): (r: seq<Match>)
    ensures |r| <= |rs|
    ensures forall i :: 0 <= i < |r| ==> r[i].enabled
  {
    if rs == [] then []
    else if rs[0].enabled then [rs[0]] + Retain(rs[1..])
    else Retain(rs[1..])
  }

  /** Retaining keeps exactly the enabled results, each as often as it occurred. */
  lemma {:induction false} RetainKeepsEnabled(rs: seq<Match>, x: Match)
    ensures multiset(Retain(rs))[x] == if x.enabled then multiset(rs)[x] else 0
  {
    if rs != [] {
      RetainKeepsEnabled(rs[1..], x);
      assert rs == [rs[0]] + rs[1..];
    }
  }

  /** The progress bound both versions set for the lookup: the number of names looked up, at least 1. */
  function FetchProgressMaxAsWritten(results: seq<Match>): nat
  {
    Max(FetchCount(results), 1)
  }

  /** The bound that matches what the loop counts: the number of batches, at least 1. */
  function FetchProgressMax(results: seq<Match>): nat
  {
    Max(|Batches(results)|, 1)
  }

  /**
   * Progress counts batches, so under the bound as written it falls short
   * as soon as two results are looked up, even when every batch succeeds.
   */
  lemma FetchProgressFallsShort(results: seq<Match>, post: string -> Result<seq<ApiUser>, string>)
    requires |results| >= 2
    ensures Collect(Batches(results), post, map[]).done < FetchProgressMaxAsWritten(results)
  {
    BatchesBound(results);
    var n := FetchCount(results);
    ChunksCount(NamesOf(results[..n]), BATCH_SIZE);
  }

  /** A concrete case: 20 results, every batch succeeds, and progress ends at 1 of 20. */
  lemma FetchProgressExample(results: seq<Match>, post: string -> Result<seq<ApiUser>, string>)
    requires |results| == 20
    requires forall i :: 0 <= i < |Batches(results)| ==> FetchUsers(Batches(results)[i], post).Ok?
    ensures Collect(Batches(results), post, map[]).done == 1
    ensures FetchProgressMaxAsWritten(results) == 20
    ensures FetchProgressMax(results) == 1
  {
    ChunksCount(NamesOf(results[..FetchCount(results)]), BATCH_SIZE);
    AllBatchesSucceed(Batches(results), post);
  }

  /** Under the corrected bound, progress reaches it exactly when every batch succeeds (for a non-empty list). */
  lemma FetchProgressCompletes(results: seq<Match>, post: string -> Result<seq<ApiUser>, string>)
    requires results != []
    ensures Collect(Batches(results), post, map[]).done == FetchProgressMax(results)
            <==> Collect(Batches(results), post, map[]).error.None?
  {
    ChunksCount(NamesOf(results[..FetchCount(results)]), BATCH_SIZE);
    CollectStopsAtFirstError(Batches(results), post, map[]);
  }
}
