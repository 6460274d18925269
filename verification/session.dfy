/**
 * A loaded session and the application settings around it: the search,
 * the lookup of account details, closing accounts, the clipboard import,
 * the saved sets and the paging of the results.  Each worker thread is
 * modelled as running to completion inside the method that starts it; the
 * order in which the search threads hand in their chunks is a parameter.
 */
module Session {
  import opened Wrappers
  import opened Text
  import opened Model
  import opened Api
  import opened Search
  import opened Scan
  import opened Ranking
  import opened Enrich
  import opened Closing
  import Clipboard
  import opened Pages

  /** The results after the scan: the hits appended in arrival order, sorted by distance in Levenshtein mode. */
  predicate Scanned(mode: SearchMode, before: seq<Match>, after: seq<Match>, users: seq<Username>,
                    arrival: seq<seq<Username>>, s: Searcher, e: Engines)
  {
    if mode == Levenshtein then
      SortedBy(ByK, after) && multiset(after) == multiset(before + Flatten(HitsPerChunk(arrival, s, e)))
    else
      after == before + Flatten(HitsPerChunk(arrival, s, e))
  }

  /** The hits of every chunk appended to `before`, sorted by distance in Levenshtein mode, and the ticks the scan adds. */
  method ScanResults(mode: SearchMode, before: seq<Match>, users: seq<Username>,
                     arrival: seq<seq<Username>>, s: Searcher, e: Engines) returns (after: seq<Match>, ticks: nat)
    ensures Scanned(mode, before, after, users, arrival, s, e)
    ensures ticks == TICK * TicksOf(arrival)
  {
    var hits;
    hits, ticks := ScanChunks(arrival, s, e);
    after := before + hits;
    if mode == Levenshtein {
      after := SortByKey(ByK, after);
    }
  }

  /** The results with the looked-up details filled in, before any filtering and sorting. */
  function Applied(before: seq<Match>, f: Fetched): (r: seq<Match>)
    ensures |r| == |before|
    ensures r[FetchCount(before)..] == before[FetchCount(before)..]
  {
    var max := FetchCount(before);
    ApplyFetched(before[..max], f.users) + before[max..]
  }

  /** The details the lookup of `before` collects. */
  function FetchOf(before: seq<Match>, post: string -> Result<seq<ApiUser>, string>): Fetched
  {
    Collect(Batches(before), post, map[])
  }

  /**
   * The results after the lookup: unchanged when nothing was found;
   * otherwise the details filled in and, in the Current version, the
   * closed accounts dropped on request and the rest ranked by the
   * composite order.
   */
  predicate LookedUp(version: Version, before: seq<Match>, after: seq<Match>,
                     post: string -> Result<seq<ApiUser>, string>, hideClosed: bool)
  {
    Updated(version, before, FetchOf(before, post), after, hideClosed)
  }

  /** `after` is `before` once the details `f` are filled in, filtered and ranked as `LookedUp` says. */
  predicate Updated(version: Version, before: seq<Match>, f: Fetched, after: seq<Match>, hideClosed: bool)
  {
    var applied := Applied(before, f);
    if |f.users| == 0 then after == before
    else if version == Current then
      var kept := if hideClosed then Retain(applied) else applied;
      SortedBy(Composite, after) && multiset(after) == multiset(kept)
    else
      after == applied
  }

  /** The second half of the lookup worker: the results once the details `f` have arrived. */
  method UpdateResults(version: Version, before: seq<Match>, f: Fetched, hideClosed: bool) returns (after: seq<Match>)
    ensures Updated(version, before, f, after, hideClosed)
  {
    after := before;
    if |f.users| > 0 {
      after := ApplyInOrder(before, FetchCount(before), f.users);
      if version == Current {
        if hideClosed {
          after := Retain(after);
        }
        after := SortByKey(Composite, after);
      }
    }
  }

  /** `LoadedState`: the usernames, the query, the results and the progress of the current worker. */
  class LoadedState {
    var users: seq<Username>
    var pattern: string
    var results: seq<Match>
    var processing: bool
    var progress: nat
    var progressMax: nat
    var page: nat

    /** `State::loaded`: a fresh state for a loaded list. */
    constructor Loaded(users: seq<Username>)
      ensures this.users == users && pattern == [] && results == []
      ensures !processing && progress == 0 && progressMax == 1 && page == 0
    {
      this.users := users;
      pattern := [];
      results := [];
      processing := false;
      progress := 0;
      progressMax := 1;
      page := 0;
    }

    /** Typing into the search field. */
    method EditPattern(p: string)
      modifies this
      ensures pattern == p
      ensures users == old(users) && results == old(results) && page == old(page)
      ensures processing == old(processing) && progress == old(progress) && progressMax == old(progressMax)
    {
      pattern := p;
    }

    /**
     * The search worker of `do_search`: one `ScanChunk` per chunk in the
     * order the threads hand them in, each appending its hits and adding
     * its progress ticks; then the sort by distance in Levenshtein mode.
     */
    method ScanAll(mode: SearchMode, arrival: seq<seq<Username>>, s: Searcher, e: Engines)
      modifies this
      ensures Scanned(mode, old(results), results, users, arrival, s, e)
      ensures progress == old(progress) + TICK * TicksOf(arrival)
      ensures users == old(users) && pattern == old(pattern) && page == old(page)
      ensures processing == old(processing) && progressMax == old(progressMax)
    {
      var after, ticks := ScanResults(mode, results, users, arrival, s, e);
      results := after;
      progress := progress + ticks;
    }

    /**
     * `do_search`: a query shorter than three bytes or a pattern that does
     * not compile changes nothing; otherwise the scan runs, and in the
     * Current version with "always fetch info" the lookup follows.
     */
    method DoSearch(version: Version, mode: SearchMode, lev: LevenshteinSettings, e: Engines,
                    arrival: seq<seq<Username>>, fetchInfo: bool, hideClosed: bool,
                    post: string -> Result<seq<ApiUser>, string>)
      requires multiset(arrival) == multiset(Chunks(users, CHUNK_SIZE))
      modifies this
      ensures users == old(users) && pattern == old(pattern) && page == old(page)
      ensures var c := Compile(version, pattern, mode, lev, e);
        c.Err? ==>
          results == old(results) && processing == old(processing)
          && progress == old(progress) && progressMax == old(progressMax)
      ensures var c := Compile(version, pattern, mode, lev, e);
        c.Ok? ==> !processing
      ensures var c := Compile(version, pattern, mode, lev, e);
        c.Ok? && !(version == Current && fetchInfo) ==>
          Scanned(mode, old(results), results, users, arrival, c.value, e)
          && progress == TICK * TicksOf(arrival) && progressMax == Max(|users|, 1)
      ensures var c := Compile(version, pattern, mode, lev, e);
        c.Ok? && version == Current && fetchInfo ==>
          exists mid :: Scanned(mode, old(results), mid, users, arrival, c.value, e)
            && LookedUp(version, mid, results, post, hideClosed)
            && progress == FetchOf(mid, post).done && progressMax == FetchProgressMaxAsWritten(mid)
    {
      var compiled := Compile(version, pattern, mode, lev, e);
      if compiled.Err? {
        return;
      }
      processing := true;
      progress := 0;
      progressMax := Max(|users|, 1);
      ghost var before := results;
      ScanAll(mode, arrival, compiled.value, e);
      if version == Current && fetchInfo {
        ghost var mid := results;
        FetchInfo(version, hideClosed, post);
        assert Scanned(mode, before, mid, users, arrival, compiled.value, e);
      } else {
        processing := false;
      }
    }

    /**
     * The "Search" button: the Current version first asks for a list when
     * none is loaded; otherwise the results are emptied, the page reset and
     * `do_search` runs, with the lookup only in the Current version.
     */
    method SearchClicked(version: Version, mode: SearchMode, lev: LevenshteinSettings, e: Engines,
                         arrival: seq<seq<Username>>, fetchInfo: bool, hideClosed: bool,
                         post: string -> Result<seq<ApiUser>, string>)
      requires multiset(arrival) == multiset(Chunks(users, CHUNK_SIZE))
      modifies this
      ensures users == old(users) && pattern == old(pattern)
      ensures version == Current && old(users) == [] ==>
        results == old(results) && page == old(page) && processing == old(processing)
        && progress == old(progress) && progressMax == old(progressMax)
      ensures version == Legacy || old(users) != [] ==> page == 0
      ensures var c := Compile(version, pattern, mode, lev, e);
        (version == Legacy || old(users) != []) && c.Err? ==>
          results == [] && processing == old(processing)
          && progress == old(progress) && progressMax == old(progressMax)
      ensures var c := Compile(version, pattern, mode, lev, e);
        (version == Legacy || old(users) != []) && c.Ok? ==>
          !processing
          && multiset(Flatten(HitsPerChunk(arrival, c.value, e))) == multiset(Hits(users, c.value, e))
      ensures var c := Compile(version, pattern, mode, lev, e);
        (version == Legacy || old(users) != []) && c.Ok? && !(version == Current && fetchInfo) ==>
          Scanned(mode, [], results, users, arrival, c.value, e)
          && multiset(results) == multiset(Hits(users, c.value, e))
          && progress == TICK * TicksOf(arrival) && progressMax == Max(|users|, 1)
      ensures var c := Compile(version, pattern, mode, lev, e);
        old(users) != [] && c.Ok? && version == Current && fetchInfo ==>
          exists mid :: Scanned(mode, [], mid, users, arrival, c.value, e)
            && multiset(mid) == multiset(Hits(users, c.value, e))
            && LookedUp(version, mid, results, post, hideClosed)
            && progress == FetchOf(mid, post).done && progressMax == FetchProgressMaxAsWritten(mid)
    {
      if version == Current && users == [] {
        return;
      }
      page := 0;
      results := [];
      DoSearch(version, mode, lev, e, arrival, fetchInfo && version == Current, hideClosed, post);
      var compiled := Compile(version, pattern, mode, lev, e);
      if compiled.Ok? {
        var hits := Flatten(HitsPerChunk(arrival, compiled.value, e));
        ScanFindsAllHits(users, CHUNK_SIZE, arrival, compiled.value, e);
        assert [] + hits == hits;
        if version == Current && fetchInfo {
          ghost var mid :| Scanned(mode, [], mid, users, arrival, compiled.value, e)
            && LookedUp(version, mid, results, post, hideClosed)
            && progress == FetchOf(mid, post).done && progressMax == FetchProgressMaxAsWritten(mid);
          assert multiset(mid) == multiset(Hits(users, compiled.value, e));
        }
      }
    }

    /**
     * The lookup of `do_fetch_info_inner` (and of the Legacy "Fetch
     * additional info" worker): batches of up to 300 of the first 1500
     * names, progress per batch that arrived, the first error ends the
     * lookup; the details found are filled into those results, and the
     * Current version then drops closed accounts on request and ranks.
     */
    method FetchInfo(version: Version, hideClosed: bool, post: string -> Result<seq<ApiUser>, string>)
      modifies this
      ensures LookedUp(version, old(results), results, post, hideClosed)
      ensures progress == FetchOf(old(results), post).done && progressMax == FetchProgressMaxAsWritten(old(results))
      ensures !processing
      ensures users == old(users) && pattern == old(pattern) && page == old(page)
    {
      processing := true;
      progress := 0;
      var before := results;
      progressMax := FetchProgressMaxAsWritten(before);
      var f := CollectUsers(Batches(before), post);
      assert f == FetchOf(before, post);
      var after := UpdateResults(version, before, f, hideClosed);
      progress := f.done;
      results := after;
      processing := false;
    }

    /**
     * The "Close accounts" action: refused unless clicked, fewer than 250
     * results are shown and the dialog is confirmed; otherwise the enabled
     * names are closed one by one until the first failure.  Returns the
     * requests sent.
     */
    method Close(version: Version, doClose: bool, confirmed: bool, apiKey: string, send: Request -> Response)
      returns (sent: seq<Request>)
      modifies this
      ensures !CloseAllowed(doClose, |results|, confirmed) ==>
        sent == [] && processing == old(processing) && progress == old(progress) && progressMax == old(progressMax)
      ensures CloseAllowed(doClose, |results|, confirmed) ==>
        var run := CloseEach(version, EnabledNames(results), apiKey, send);
        sent == run.sent && progress == run.closed && !processing
        && progressMax == (if version == Legacy then LegacyCloseProgressMax(results) else CloseProgressMax(results))
      ensures results == old(results) && users == old(users) && pattern == old(pattern) && page == old(page)
    {
      if !CloseAllowed(doClose, |results|, confirmed) {
        return [];
      }
      var names := EnabledNames(results);
      processing := true;
      progress := 0;
      progressMax := if version == Legacy then LegacyCloseProgressMax(results) else CloseProgressMax(results);
      var run := CloseAll(version, names, apiKey, send);
      progress := run.closed;
      sent := run.sent;
      processing := false;
    }

    /** "Load from clipboard": the results become the names found in the clipboard text, if it could be read. */
    method LoadClipboard(version: Version, clip: Option<string>, unicodeWord: char -> bool)
      modifies this
      ensures clip.None? ==> results == old(results)
      ensures clip.Some? && version == Current ==> results == Clipboard.ParseClipboard(clip.value)
      ensures clip.Some? && version == Legacy ==> results == Clipboard.LegacyParseClipboard(clip.value, unicodeWord)
      ensures users == old(users) && pattern == old(pattern) && page == old(page)
      ensures processing == old(processing) && progress == old(progress) && progressMax == old(progressMax)
    {
      if clip.Some? {
        if version == Current {
          results := Clipboard.ParseClipboard(clip.value);
        } else {
          results := Clipboard.LegacyParseClipboard(clip.value, unicodeWord);
        }
      }
    }

    /** "Show" on a saved set: the results become a bare record per name, in the order given. */
    method ShowNames(listing: seq<string>)
      modifies this
      ensures results == Clipboard.MatchesOf(listing)
      ensures users == old(users) && pattern == old(pattern) && page == old(page)
      ensures processing == old(processing) && progress == old(progress) && progressMax == old(progressMax)
    {
      results := Clipboard.MatchesOf(listing);
    }

    /** The "X" button of a row (Current): every result with that id leaves the list. */
    method RemoveResult(id: string)
      modifies this
      ensures results == WithoutId(old(results), id)
      ensures users == old(users) && pattern == old(pattern) && page == old(page)
      ensures processing == old(processing) && progress == old(progress) && progressMax == old(progressMax)
    {
      results := WithoutId(results, id);
    }

    /** Drawing the table: the slice of the current page, with the page reset to the first when it starts past the end. */
    method ShowPage(size: nat) returns (lo: nat, hi: nat)
      modifies this
      ensures Window(lo, hi, page) == PageWindow(old(page), size, |results|)
      ensures results == old(results) && users == old(users) && pattern == old(pattern)
      ensures processing == old(processing) && progress == old(progress) && progressMax == old(progressMax)
    {
      lo := page * size;
      hi := Min((page + 1) * size, |results|);
      if lo > hi {
        lo := 0;
        hi := Min(size, |results|);
        page := 0;
      }
    }

    /** The scroll wheel and the Prev and Next buttons, which move the same way when enabled. */
    method ScrollBy(size: nat, dy: int)
      modifies this
      ensures page == Scroll(old(page), size, |results|, dy)
      ensures results == old(results) && users == old(users) && pattern == old(pattern)
      ensures processing == old(processing) && progress == old(progress) && progressMax == old(progressMax)
    {
      if dy > 0 && page > 0 {
        page := page - 1;
      } else if dy < 0 && (page + 1) * size < |results| {
        page := page + 1;
      }
    }
  }

  /** `retain(|u| u.id != id)`: the results whose id differs, in order. */
  function WithoutId(rs: seq<Match>, id: string): (r: seq<Match>)
    ensures |r| <= |rs|
    ensures forall i :: 0 <= i < |r| ==> r[i].id != id
  {
    if rs == [] then []
    else if rs[0].id != id then [rs[0]] + WithoutId(rs[1..], id)
    else WithoutId(rs[1..], id)
  }

  /** Removing an id keeps every other result, as often as it occurred. */
  lemma {:induction false} WithoutIdKeepsOthers(rs: seq<Match>, id: string, x: Match)
    ensures multiset(WithoutId(rs, id))[x] == if x.id == id then 0 else multiset(rs)[x]
  {
    if rs != [] {
      WithoutIdKeepsOthers(rs[1..], id, x);
      assert rs == [rs[0]] + rs[1..];
    }
  }

  /** `x` held to `lo..=hi`, as a drag value with a clamp range holds it. */
  function Clamp(x: int, lo: int, hi: int): (r: int)
    requires lo <= hi
    ensures lo <= r <= hi
    ensures lo <= x <= hi ==> r == x
    ensures x < lo ==> r == lo
    ensures x > hi ==> r == hi
  {
    if x < lo then lo else if x > hi then hi else x
  }

  /**
   * The Levenshtein panel: distance and the two costs held to 1..=10, then
   * the swap cost to 1..=(2 * min(mismatch, gap) - 1) of the held costs.
   */
  function ClampPanel(lev: LevenshteinSettings): (r: LevenshteinSettings)
    ensures InPanelRange(r)
    ensures InPanelRange(lev) ==> r == lev
  {
    var maxK := Clamp(lev.maxK as int, 1, 10);
    var mismatch := Clamp(lev.mismatchCost as int, 1, 10);
    var gap := Clamp(lev.gapCost as int, 1, 10);
    var swap := Clamp(lev.swapCost as int, 1, Min(mismatch, gap) * 2 - 1);
    LevenshteinSettings(maxK as uint8, mismatch as uint8, gap as uint8, swap as uint8)
  }

  /** The results per page are held to 10..=100. */
  const MIN_PAGE_SIZE: nat := 10
  const MAX_PAGE_SIZE: nat := 100

  /** The settings and saved sets the application keeps between runs. */
  class App {
    var pageSize: nat
    var apiKey: string
    var searchMode: SearchMode
    var lev: LevenshteinSettings
    var alwaysFetchInfo: bool
    var hideClosed: bool
    var savedObvious: set<string>
    var savedBorderline: set<string>

    /** `App::default`. */
    constructor Default()
      ensures pageSize == DEFAULT_PAGE_SIZE && apiKey == [] && searchMode == DEFAULT_SEARCH_MODE
      ensures lev == DEFAULT_LEVENSHTEIN && !alwaysFetchInfo && !hideClosed
      ensures savedObvious == {} && savedBorderline == {}
    {
      pageSize := DEFAULT_PAGE_SIZE;
      apiKey := [];
      searchMode := DEFAULT_SEARCH_MODE;
      lev := DEFAULT_LEVENSHTEIN;
      alwaysFetchInfo := false;
      hideClosed := false;
      savedObvious := {};
      savedBorderline := {};
    }

    /** The results-per-page control. */
    method EditPageSize(n: int)
      modifies this
      ensures pageSize == Clamp(n, MIN_PAGE_SIZE, MAX_PAGE_SIZE)
      ensures MIN_PAGE_SIZE <= pageSize <= MAX_PAGE_SIZE
      ensures apiKey == old(apiKey) && searchMode == old(searchMode) && lev == old(lev)
      ensures alwaysFetchInfo == old(alwaysFetchInfo) && hideClosed == old(hideClosed)
      ensures savedObvious == old(savedObvious) && savedBorderline == old(savedBorderline)
    {
      pageSize := Clamp(n, MIN_PAGE_SIZE, MAX_PAGE_SIZE);
    }

    /** The Levenshtein controls. */
    method EditLevenshtein(requested: LevenshteinSettings)
      modifies this
      ensures lev == ClampPanel(requested) && InPanelRange(lev)
      ensures pageSize == old(pageSize) && apiKey == old(apiKey) && searchMode == old(searchMode)
      ensures alwaysFetchInfo == old(alwaysFetchInfo) && hideClosed == old(hideClosed)
      ensures savedObvious == old(savedObvious) && savedBorderline == old(savedBorderline)
    {
      lev := ClampPanel(requested);
    }

    /** The two buttons of a result row, applied to the saved sets in the order the row applies them. */
    method ClickRow(name: string, clickedObv: bool, clickedBorder: bool)
      modifies this
      ensures Saved(savedObvious, savedBorderline)
        == Toggle(Saved(old(savedObvious), old(savedBorderline)), name, clickedObv, clickedBorder)
      ensures pageSize == old(pageSize) && apiKey == old(apiKey) && searchMode == old(searchMode)
      ensures lev == old(lev) && alwaysFetchInfo == old(alwaysFetchInfo) && hideClosed == old(hideClosed)
    {
      var obvious := name in savedObvious;
      var borderline := name in savedBorderline;
      if clickedBorder || (clickedObv && obvious) {
        savedObvious := savedObvious - {name};
      }
      if clickedObv || (clickedBorder && borderline) {
        savedBorderline := savedBorderline - {name};
      }
      if clickedObv && !obvious {
        savedObvious := savedObvious + {name};
      } else if clickedBorder && !borderline {
        savedBorderline := savedBorderline + {name};
      }
    }

    /** The saved set a "Copy", "Show" or "Clear" button belongs to. */
    function SavedSet(obvious: bool): set<string>
      reads this
    {
      if obvious then savedObvious else savedBorderline
    }

    /** "Copy": one `/name` line per saved name, in the order the set is walked. */
    method CopySaved(obvious: bool, listing: seq<string>) returns (text: string)
      requires forall n :: n in listing <==> n in SavedSet(obvious)
      requires forall i, j :: 0 <= i < j < |listing| ==> listing[i] != listing[j]
      ensures text == Clipboard.CopyText(listing)
    {
      text := Clipboard.CopyText(listing);
    }

    /** "Show": the results become the saved names. */
    method ShowSaved(obvious: bool, listing: seq<string>, s: LoadedState)
      requires forall n :: n in listing <==> n in SavedSet(obvious)
      requires forall i, j :: 0 <= i < j < |listing| ==> listing[i] != listing[j]
      modifies s
      ensures s.results == Clipboard.MatchesOf(listing)
      ensures |s.results| == |SavedSet(obvious)|
      ensures s.users == old(s.users) && s.pattern == old(s.pattern) && s.page == old(s.page)
      ensures s.processing == old(s.processing) && s.progress == old(s.progress) && s.progressMax == old(s.progressMax)
    {
      s.ShowNames(listing);
      DistinctListingSize(listing, SavedSet(obvious));
    }

    /** "Clear": the set is emptied, the other one kept. */
    method ClearSaved(obvious: bool)
      modifies this
      ensures obvious ==> savedObvious == {} && savedBorderline == old(savedBorderline)
      ensures !obvious ==> savedBorderline == {} && savedObvious == old(savedObvious)
      ensures pageSize == old(pageSize) && apiKey == old(apiKey) && searchMode == old(searchMode) && lev == old(lev)
      ensures alwaysFetchInfo == old(alwaysFetchInfo) && hideClosed == old(hideClosed)
    {
      if obvious {
        savedObvious := {};
      } else {
        savedBorderline := {};
      }
    }
  }

  /** A listing without repeats of a set has as many entries as the set. */
  lemma {:induction false} DistinctListingSize(listing: seq<string>, names: set<string>)
    requires forall n :: n in listing <==> n in names
    requires forall i, j :: 0 <= i < j < |listing| ==> listing[i] != listing[j]
    ensures |listing| == |names|
    decreases |listing|
  {
    if listing != [] {
      var rest := listing[1..];
      assert forall n :: n in rest <==> n in names - {listing[0]} by {
        forall n
          ensures n in rest <==> n in names - {listing[0]}
        {
          if n in rest {
            var k :| 0 <= k < |rest| && rest[k] == n;
            assert listing[k + 1] == n;
          }
          if n in names - {listing[0]} {
            assert n in listing;
            var k :| 0 <= k < |listing| && listing[k] == n;
            assert rest[k - 1] == n;
          }
        }
      }
      DistinctListingSize(rest, names - {listing[0]});
    } else {
      assert forall n :: n !in names;
      assert names == {};
    }
  }
}
