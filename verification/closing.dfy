/**
 * Closing the accounts on display: the guard that allows it, the names it
 * closes, the worker that closes them one after the other and stops at
 * the first failure, and the progress bar's bound.
 */
module Closing {
  import opened Wrappers
  import opened Model
  import opened Api

  /** Closing is refused for this many results or more. */
  const MAX_CLOSE: nat := 250

  /** The close button's guard: clicked, fewer than 250 results, and confirmed in the dialog. */
  predicate CloseAllowed(doClose: bool, resultCount: nat, confirmed: bool)
  {
    doClose && resultCount < MAX_CLOSE && confirmed
  }

  /** The names of the enabled results, in result order. */
  function EnabledNames(results: seq<Match>): (names: seq<string>)
    ensures |names| <= |results|
  {
    if results == [] then []
    else if results[0].enabled then [results[0].name] + EnabledNames(results[1..])
    else EnabledNames(results[1..])
  }

  /** A name is closed exactly when some enabled result carries it; disabled results are skipped. */
  lemma {:induction false} EnabledNamesMembers(results: seq<Match>, name: string)
    ensures name in EnabledNames(results) <==>
      exists i :: 0 <= i < |results| && results[i].enabled && results[i].name == name
  {
    if results != [] {
      EnabledNamesMembers(results[1..], name);
      assert forall i :: 1 <= i < |results| ==> results[i] == results[1..][i - 1];
      if exists i :: 1 <= i < |results[1..]| && results[1..][i].enabled && results[1..][i].name == name {
        var i :| 1 <= i < |results[1..]| && results[1..][i].enabled && results[1..][i].name == name;
        assert results[i + 1] == results[1..][i];
      }
    }
  }

  /** The number of enabled results. */
  function EnabledCount(results: seq<Match>): nat
  {
    if results == [] then 0 else (if results[0].enabled then 1 else 0) + EnabledCount(results[1..])
  }

  lemma {:induction false} EnabledNamesCount(results: seq<Match>)
    ensures |EnabledNames(results)| == EnabledCount(results)
    ensures EnabledCount(results) <= |results|
    ensures EnabledCount(results) == |results| <==> forall i :: 0 <= i < |results| ==> results[i].enabled
  {
    if results != [] {
      EnabledNamesCount(results[1..]);
      assert forall i :: 1 <= i < |results| ==> results[i] == results[1..][i - 1];
    }
  }

  /** What the close worker achieved: the accounts closed, the requests sent, the error that stopped it. */
  datatype CloseRun = CloseRun(closed: nat, sent: seq<Request>, error: Option<CloseError>)

  /** The worker, name after name, stopping at the first name that fails to close. */
  function CloseEach(version: Version, names: seq<string>, apiKey: string, send: Request -> Response): (r: CloseRun)
    ensures r.closed <= |names|
  {
    if names == [] then CloseRun(0, [], None)
    else
      var o := CloseAccount(version, names[0], apiKey, send);
      match o.result
      case Err(e) => CloseRun(0, o.sent, Some(e))
      case Ok(_) =>
        var rest := CloseEach(version, names[1..], apiKey, send);
        CloseRun(rest.closed + 1, o.sent + rest.sent, rest.error)
  }

  /**
   * Progress counts the names that closed, which are the first ones; the
   * worker ends with an error exactly when it stopped early, and then it is
   * the error of the first name not closed.
   */
  lemma {:induction false} CloseEachStopsAtFirstFailure(version: Version, names: seq<string>, apiKey: string, send: Request -> Response)
    ensures var r := CloseEach(version, names, apiKey, send);
      (forall i :: 0 <= i < r.closed ==> CloseAccount(version, names[i], apiKey, send).result.Ok?)
      && (r.error.None? <==> r.closed == |names|)
      && (r.error.Some? ==> CloseAccount(version, names[r.closed], apiKey, send).result == Err(r.error.value))
  {
    if names != [] && CloseAccount(version, names[0], apiKey, send).result.Ok? {
      CloseEachStopsAtFirstFailure(version, names[1..], apiKey, send);
      assert forall i :: 1 <= i < |names| ==> names[i] == names[1..][i - 1];
    }
  }

  /** Every request the worker sends is about one of the names, with the key given. */
  lemma {:induction false} CloseEachSendsOnlyForNames(version: Version, names: seq<string>, apiKey: string, send: Request -> Response)
    ensures forall q :: q in CloseEach(version, names, apiKey, send).sent ==> q.user in names && q.apiKey == apiKey
  {
    if names != [] {
      CloseEachSendsOnlyForNames(version, names[1..], apiKey, send);
      var o := CloseAccount(version, names[0], apiKey, send);
      var r := CloseEach(version, names, apiKey, send);
      assert forall x :: x in names[1..] ==> x in names;
      assert names[0] in names;
      if o.result.Ok? {
        var rest := CloseEach(version, names[1..], apiKey, send);
        assert r.sent == o.sent + rest.sent;
        forall q | q in r.sent
          ensures q.user in names && q.apiKey == apiKey
        {
          if q in o.sent {
            var i :| 0 <= i < |o.sent| && o.sent[i] == q;
          }
        }
      }
    }
  }

  /** In the Current version an empty key stops the worker before anything is sent. */
  lemma EmptyKeySendsNothing(names: seq<string>, send: Request -> Response)
    requires names != []
    ensures CloseEach(Current, names, "", send) == CloseRun(0, [], Some(NoApiKey))
  {
  }

  /** The worker loop: one `close_account` per name, progress after each success, `break` on the first error. */
  method CloseAll(version: Version, names: seq<string>, apiKey: string, send: Request -> Response) returns (r: CloseRun)
    ensures r == CloseEach(version, names, apiKey, send)
  {
    var closed := 0;
    var sent: seq<Request> := [];
    var error: Option<CloseError> := None;
    var i := 0;
    while i < |names|
      invariant 0 <= i <= |names| && closed == i
      invariant var rest := CloseEach(version, names[i..], apiKey, send);
        CloseEach(version, names, apiKey, send) == CloseRun(rest.closed + closed, sent + rest.sent, rest.error)
    {
      ghost var rest := CloseEach(version, names[i..], apiKey, send);
      ghost var next := CloseEach(version, names[i + 1..], apiKey, send);
      var o := CloseAccount(version, names[i], apiKey, send);
      CloseEachStep(version, names, i, apiKey, send);
      if o.result.Err? {
        sent := sent + o.sent;
        error := Some(o.result.error);
        break;
      }
      assert sent + rest.sent == (sent + o.sent) + next.sent by {
        assert rest.sent == o.sent + next.sent;
      }
      sent := sent + o.sent;
      closed := closed + 1;
      i := i + 1;
    }
    if error.None? {
      assert names[i..] == [];
      assert sent + [] == sent;
    }
    r := CloseRun(closed, sent, error);
  }

  /** The worker from the `i`-th name on: that name's outcome, then the rest. */
  lemma CloseEachStep(version: Version, names: seq<string>, i: nat, apiKey: string, send: Request -> Response)
    requires i < |names|
    ensures var o := CloseAccount(version, names[i], apiKey, send);
      var next := CloseEach(version, names[i + 1..], apiKey, send);
      CloseEach(version, names[i..], apiKey, send) ==
        if o.result.Err? then CloseRun(0, o.sent, Some(o.result.error))
        else CloseRun(next.closed + 1, o.sent + next.sent, next.error)
  {
    assert names[i..][0] == names[i] && names[i..][1..] == names[i + 1..];
  }

  /** The progress bound the Legacy version sets: the number of results, at least 1. */
  function LegacyCloseProgressMax(results: seq<Match>): nat
  {
    Max(|results|, 1)
  }

  /** The progress bound of the Current version: the number of names to close, at least 1. */
  function CloseProgressMax(results: seq<Match>): nat
  {
    Max(|EnabledNames(results)|, 1)
  }

  /**
   * With the Legacy bound, a single disabled result among the shown ones is
   * enough for progress never to reach the bound, even when every account
   * closes.
   */
  lemma LegacyCloseProgressFallsShort(version: Version, results: seq<Match>, apiKey: string, send: Request -> Response)
    requires exists i :: 0 <= i < |results| && !results[i].enabled
    ensures CloseEach(version, EnabledNames(results), apiKey, send).closed < LegacyCloseProgressMax(results)
  {
    EnabledNamesCount(results);
  }

  /** With the Current bound, progress reaches the bound when every account closes (and there is at least one). */
  lemma CloseProgressCompletes(version: Version, results: seq<Match>, apiKey: string, send: Request -> Response)
    requires CloseEach(version, EnabledNames(results), apiKey, send).error.None?
    requires EnabledNames(results) != []
    ensures CloseEach(version, EnabledNames(results), apiKey, send).closed == CloseProgressMax(results)
  {
    CloseEachStopsAtFirstFailure(version, EnabledNames(results), apiKey, send);
  }

  /**
   * A concrete case: one enabled and one disabled result shown, and every
   * close request answered with 200.  The one account closes, so progress
   * ends at 1 of 2 under the Legacy bound, where the Current bound is 1.
   */
  lemma LegacyCloseProgressExample()
    ensures var shown := [Match("a", "A", true, None, None, 0, 0), Match("b", "B", false, None, None, 0, 0)];
      var send := (q: Request) => Status(200);
      var run := CloseEach(Legacy, EnabledNames(shown), "key", send);
      run.closed == 1 && run.error.None?
      && LegacyCloseProgressMax(shown) == 2
      && CloseProgressMax(shown) == 1
  {
    var shown := [Match("a", "A", true, None, None, 0, 0), Match("b", "B", false, None, None, 0, 0)];
    assert EnabledNames(shown) == ["A"] by {
      assert EnabledNames(shown[1..]) == [];
    }
  }
}
