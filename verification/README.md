# liusearch in Dafny

A model of liusearch, a desktop tool with which Lichess moderators search a
list of millions of usernames for names resembling a query. It also looks up
account details for the hits and closes the accounts it selects. The model
covers both versions of the application:

- the current one under `liusearch/` (called **Current** below);
- the older one under `src/` (called **Legacy**).

Each operation that differs between them takes a `Version`. The model also
covers two helper programs:

- the archive extractor `extractor/src/main.rs`, which downloads monthly game
  archives and collects the player names from them;
- `combine.py`, which merges several name lists into one sorted list.

What is modelled, by file:

- `wrappers.dfy`, `text.dfy`, `lines.dfy`, `replace.dfy`: the library
  behaviour the code relies on.
  - `Option` and `Result`.
  - Byte length of a string (`str::len`, UTF-8), ASCII lower-casing and byte
    slicing with its panics.
  - `str::lines` and `str::split`.
  - `str::replace` with character and string patterns.
  - Python's `str.strip`.
  - Decimal and zero-padded formatting.
- `model.dfy`: the records of `src/model.rs`.
  - A corpus entry (`Username`) and a result (`Match`).
  - The search modes and the Levenshtein settings.
- `api.rs` (`api.dfy`): the Lichess API client.
  - How a user record is decoded.
  - The `u32` game total.
  - The bulk lookup request.
  - The close-account call of both versions.
- `search.dfy`: compiling a query into a searcher, and testing one username
  against a searcher.
  - The similar-letters rewrite chain of each version.
  - Its character-by-character meaning.
- `scan.dfy`: the parallel scan as a loop over chunks of 100 000 users in an
  arrival order that is a parameter.
  - The hits found.
  - The progress ticks added.
- `ranking.dfy`: the sort by distance, and the composite ranking after a
  lookup.
- `enrich.dfy`: the account lookup.
  - Batches of 300 of the first 1500 results.
  - Stopping at the first failure.
  - Filling the details into the results, dropping closed accounts and
    ranking.
- `closing.dfy`: closing the enabled accounts one by one until the first
  failure.
- `clipboard.dfy`: the "Copy" and "Load from clipboard" formats (the two
  versions' patterns).
- `corpus.dfy`: reading a name list.
- `pages.dfy`: paging, the saved-set toggles and the "… ago" wording.
- `session.dfy`: the mutable state.
  - The `LoadedState` class: the query, the corpus, the results, the
    processing flag, the page and the two progress counters.
  - The `App` class: page size, key, mode, settings, switches and the two
    saved sets.
  - The button handlers that change them.
- `extractor.dfy`: the archive extractor.
  - The variant table, the month loops and the file names.
  - The tag-line extraction, the name set and the progress callback.
- `combine.dfy`: `combine.py` as a method over an abstract file system.

Foreign code enters the model as parameters:

- the regular-expression engine (compiles and matches);
- the SIMD distance search;
- the HTTP round trips;
- the clipboard;
- the Unicode word-character table;
- the order in which worker threads deliver their chunks;
- the order in which a hash set is walked.

A set's walk order is a listing of the set without repeats.

The scan's progress is a tick count, not the number of users scanned. It
adds 4095 at every index of a chunk that is a multiple of 4096, and nothing
when the scan ends. So it can fall short of the corpus size, equal it, or
pass it: a full chunk of 100 000 users ends at 102 375
(`Scan.ProgressIsApproximate`). It always stays within 4095 per chunk of the
size (`Scan.ScanProgressBounds`).

The session stores the progress bounds the code sets. Two of them can be out
of reach (see "## Findings"):

- the lookup bound, once two or more results are looked up
  (`Enrich.FetchProgressFallsShort`);
- the Legacy close bound, once a disabled result is shown
  (`Closing.LegacyCloseProgressFallsShort`).

The corrected bounds appear only in the lemmas that state what was evidently
intended.

## Model

| member | source | states |
|---|---|---|
| Text.Utf8Len | liusearch/src/app.rs:217 | `len()` is the UTF-8 byte length: between one and four bytes per character |
| Text.AsciiLower | liusearch/src/app.rs:221 | `to_ascii_lowercase` keeps the length, lowers exactly `A`..`Z`, and leaves no ASCII capital |
| Text.AsciiLowerKeepsUtf8Len | liusearch/src/app.rs:217-221 | lower-casing keeps the byte length, so the three-byte guard sees the same length as the searcher |
| Text.AsciiLowerIdempotent | liusearch/src/app.rs:102 | lower-casing an id that is already lower-cased changes nothing |
| Text.CharIndexOfBoundary | extractor/src/main.rs:172 | every character boundary is a valid byte offset for slicing, and it maps back to its character index |
| Text.ByteSlice | extractor/src/main.rs:172 | a byte slice, when it does not panic, has exactly `b - a` bytes |
| Text.ByteSliceAt | extractor/src/main.rs:172 | slicing at the byte offsets of two character positions yields the characters between them |
| Text.ByteSliceMiddle | extractor/src/main.rs:172 | slicing at the byte offsets around the middle part of `x + y + z` yields `y` |
| Text.StripTrims | combine.py:22 | `strip()` yields a substring with only white space cut off on either side, and the result neither starts nor ends with white space |
| Text.Decimal | extractor/src/main.rs:140 | `{year}` prints only digits, with no leading zero |
| Text.Pad2 | extractor/src/main.rs:140 | `{month:02}` prints at least two digits |
| Text.SignedDecimal | liusearch/src/app.rs:720 | `{}` of a day count prints an optional minus sign and then digits, with the sign exactly when the number is negative |
| Text.SignedDecimalValue | liusearch/src/app.rs:720 | the signed text read back gives the number printed |
| Text.DecimalValue | extractor/src/main.rs:146 | the digits printed for a year denote that year |
| Text.Pad2Value | extractor/src/main.rs:146 | the zero-padded digits printed for a month denote that month |
| Lines.Lines | liusearch/src/app.rs:98 | `lines()` yields pieces without `\n` |
| Lines.LinesJoin | liusearch/src/app.rs:636-637 | cutting into lines a text joined with `\n` gives the lines back, when none contains `\n`, none ends in `\r` and the last is not empty |
| Lines.Split | liusearch/src/api.rs:62 | splitting at a separator always yields at least one piece |
| Lines.SplitJoin | liusearch/src/api.rs:62 | splitting a joined list at its separator gives the list back, when no element contains the separator |
| Model.Seconds | liusearch/src/app.rs:330-331 | `timestamp()` is the whole number of seconds rounded down: `s * 1000 <= t < s * 1000 + 1000` |
| Model.NewMatch | src/model.rs:30-40 | `Match::new` copies id and name, sets the distance, and leaves the account details empty (enabled, no dates, 0 games) |
| Model.UserOf | liusearch/src/app.rs:101-104 | a corpus record keeps the name and lower-cases it for the id |
| Model.MatchFromName | src/model.rs:43-61 | `Match::from` a name gives the lower-cased id, the name, distance 0 and empty details |
| Model.MatchFromNameIsNewMatch | src/model.rs:43-61 | `Match::from(name)` equals `Match::new` at distance 0 on the corpus record of that name |
| Model.EditCostsOf | src/model.rs:148-152 | the edit costs use mismatch and gap costs from the settings, a free start gap, and the swap cost as transposition cost |
| Model.PanelCostsAreSound | liusearch/src/app.rs:471-505 | within the panel ranges every cost is positive, and a swap costs less than two mismatches or two gaps |
| Model.DefaultLevenshteinInPanelRange | src/model.rs:154-163 | the defaults (distance 3, all costs 1) lie in the panel ranges |
| Api.NoPerfs | liusearch/src/api.rs:21-36 | `ApiPerfs::default()` has all eleven categories absent |
| Api.WrappingAdd | liusearch/src/api.rs:39-50 | a `u32` addition wraps modulo 2^32 |
| Api.AddGamesIsTotal | liusearch/src/api.rs:39-50 | the left-to-right wrapping sum is the exact total modulo 2^32 |
| Api.SumGamesIsTotal | liusearch/src/api.rs:38-52 | `sum_games` is the exact game total of the present categories modulo 2^32, so exact when it fits |
| Api.DecodePerf | liusearch/src/api.rs:54-58 | a present category decodes to its `games`, or 0 when the field is missing |
| Api.DecodeUser | liusearch/src/api.rs:7-19 | a missing `disabled` reads as false, missing `perfs` as no categories, and dates pass through |
| Api.MissingPerfsMeansNoGames | liusearch/src/api.rs:15-18 | a response without `perfs` yields a game total of 0 |
| Api.RequestBodyRoundTrip | liusearch/src/api.rs:62 | the comma-joined body splits back into the very names sent, when no name contains a comma |
| Api.FetchUsers | liusearch/src/api.rs:60-65 | `fetch_users` posts exactly the comma-joined names and returns the outcome of that request |
| Api.CloseAccount | liusearch/src/api.rs:67-98 | Current: refuses an empty key without sending; succeeds if and only if the close request and then the mod note both get status 200; the note is sent if and only if the close succeeded. Legacy (src/api.rs:65-77): sends the close request only, and succeeds on any status below 400. Every request is for the given name and key |
| Search.Matches | liusearch/src/app.rs:40-61 | plain: a hit at 0 if and only if the id contains the pattern. Regex: a hit at 0 if and only if the engine matches. Levenshtein: no hit when the id is shorter in bytes than the pattern, otherwise the distance search's answer, and never above `max_k` |
| Search.ShortNamesSkipDistanceSearch | liusearch/src/app.rs:46 | for a username shorter than the pattern the outcome is `None`, whatever the distance engine would say |
| Search.OneLetterPatterns | src/app.rs:208-217 | one-letter `&str` patterns replace exactly like the corresponding `char` patterns |
| Search.OneCharacterCurrent | liusearch/src/app.rs:225-233 | the Current chain turns each single character into its class (`a`->`[a4]`, … `i`,`l`->`[il1]` …), and leaves every other character unchanged |
| Search.LegacyI | src/app.rs:212-213 | in the Legacy chain the `l` stage rewrites the `l` inside the class written for `i`, so `i` becomes `[i[il1]1]` |
| Search.OneCharacterLegacy | src/app.rs:208-217 | the Legacy chain turns each single character into its class, with `i` giving `[i[il1]1]` |
| Search.SimilarLettersIsExpand | liusearch/src/app.rs:224-233 | the whole replace chain equals the per-character class map (both versions) |
| Search.VersionsDifferOnlyAtI | src/app.rs:212-213 | the two versions' rewrites agree if and only if the query has no `i` |
| Search.Compile | liusearch/src/app.rs:217-250 | too short if and only if fewer than 3 bytes. Otherwise the query is lower-cased and turned into a searcher for its mode: plain, Levenshtein with its settings, the similar-letters class map, or the query itself as a regex. In regex and similar-letters modes the result is a searcher if and only if the engine compiles the lower-cased query, or its class map, and otherwise an error naming that regex. Plain and Levenshtein never fail |
| Search.PlainSearchIsCaseInsensitiveSubstring | liusearch/src/app.rs:221-223 | in plain mode a corpus name is a hit if and only if its lower-cased form contains the lower-cased query |
| Replace.ReplaceStrOneChar | src/app.rs:209 | `replace` with a one-character string equals `replace` with that character |
| Scan.Chunks | liusearch/src/app.rs:258 | `par_chunks` slices concatenate back to the corpus; each slice has 1..n elements, and all but the last have exactly n |
| Scan.ChunksCount | liusearch/src/app.rs:258 | there are `ceil(len / n)` chunks |
| Scan.HitsMembers | liusearch/src/app.rs:261-264 | a match is a hit if and only if it is `Match::new(user, k)` for a corpus user whose id matches at `k` |
| Scan.ScanChunk | liusearch/src/app.rs:259-269 | the per-chunk loop collects the hits of the chunk in order, and adds 0xfff for every index whose low twelve bits are zero |
| Scan.ChunkedHitsInOrder | liusearch/src/app.rs:256-270 | chunks scanned in corpus order yield the hits of the whole corpus in order |
| Scan.ScanChunks | liusearch/src/app.rs:256-270 | the worker loop appends each arriving chunk's hits and adds its ticks |
| Scan.TicksOfPermutation | liusearch/src/app.rs:265-267 | the progress a scan reaches does not depend on the order in which chunks finish |
| Scan.ScanFindsAllHits | liusearch/src/app.rs:256-270 | for any chunk size and any arrival order, the results are a permutation of the corpus-order hits |
| Scan.ProgressIsApproximate | liusearch/src/app.rs:265-267 | progress is a tick count, not the corpus size: one user gives 4095, 4096 users give 4095, 4095 users give 4095, and a full chunk of 100 000 gives 102 375 |
| Scan.ChunkProgressBounds | liusearch/src/app.rs:265-267 | a chunk of `n` users adds at least `4095 n / 4096` and less than `n + 4095` |
| Scan.ScanProgressBounds | liusearch/src/app.rs:265-267 | a whole scan adds at least 4095/4096 of the users scanned, and less than their number plus 4095 per chunk |
| Ranking.Key | liusearch/src/app.rs:327-334 | the composite key is `(k, -seen or 0, -created or 0, u32::MAX - games)`; the plain key is `k` |
| Ranking.SortByKey | liusearch/src/app.rs:271-273 | the sort yields a permutation of the results whose keys ascend |
| Ranking.SortedByKAscends | liusearch/src/app.rs:271-273 | after the Levenshtein sort, distances never decrease down the list |
| Ranking.CompositeRanking | liusearch/src/app.rs:327-334 | after the lookup sort: lower distance first; then the more recently seen; then the more recently created; then the one with more games |
| Ranking.CompositeRefinesByK | liusearch/src/app.rs:327-334 | a list in composite order is also in distance order |
| Enrich.FetchCount | liusearch/src/app.rs:291 | `len().min(1500)`: at most both, and equal to one of them |
| Enrich.NamesOf | liusearch/src/app.rs:293-297 | the names of the results, position by position |
| Enrich.BatchesBound | liusearch/src/app.rs:304 | at most 5 batches of 1..300 names, which together are the names of the first `FetchCount` results in order |
| Enrich.AbsorbContents | liusearch/src/app.rs:306 | after `extend`, an id is present if and only if it was before or some record carries it; the last such record wins |
| Enrich.CollectStopsAtFirstError | liusearch/src/app.rs:304-313 | every batch before the stop succeeded; the loop ends with an error if and only if it stopped early, and that error is the failing batch's |
| Enrich.AllBatchesSucceed | liusearch/src/app.rs:304-313 | with no failing batch, every batch is looked up and no error is reported |
| Enrich.CollectUsers | liusearch/src/app.rs:303-313 | the lookup loop computes exactly `Collect`: records merged, progress per successful batch, stop at the first error |
| Enrich.Update | liusearch/src/app.rs:318-321 | a fetched record overwrites dates, game total and enabled flag (`!disabled`), and keeps id, name and distance |
| Enrich.ApplyFetchedAt | liusearch/src/app.rs:316-323 | result `i` takes its id's record if and only if it is the first result with that id; otherwise it is unchanged |
| Enrich.EachRecordUsedOnce | liusearch/src/app.rs:317 | `remove` lets a record update at most one result: two updated results never share an id |
| Enrich.ApplyFetchedKeepsIdentity | liusearch/src/app.rs:316-323 | the update never changes a result's id, name or distance |
| Enrich.ApplyInOrder | liusearch/src/app.rs:316-323 | the loop over `results[..max]` gives the in-order walk on that prefix, and leaves the rest as it was |
| Enrich.Retain | liusearch/src/app.rs:324-326 | `retain(enabled)` keeps only enabled results |
| Enrich.RetainKeepsEnabled | liusearch/src/app.rs:324-326 | every enabled result is kept as often as it occurred, and every closed one is dropped |
| Enrich.FetchProgressFallsShort | liusearch/src/app.rs:292 | with the bound as written, progress stays below it whenever two or more results are looked up |
| Enrich.FetchProgressExample | liusearch/src/app.rs:292 | 20 results that all succeed end at progress 1 of 20, where the corrected bound gives 1 of 1 |
| Enrich.FetchProgressCompletes | liusearch/src/app.rs:304-313 | under the corrected bound (the number of batches), progress reaches it if and only if no batch fails |
| Closing.EnabledNamesMembers | liusearch/src/app.rs:654-659 | a name is closed if and only if some enabled result carries it |
| Closing.EnabledNamesCount | liusearch/src/app.rs:654-659 | as many names as enabled results; all results if and only if all are enabled |
| Closing.CloseEachStopsAtFirstFailure | liusearch/src/app.rs:668-675 | progress counts the leading names that closed; the worker ends with an error if and only if it stopped early, and that error is the first failing name's |
| Closing.CloseEachSendsOnlyForNames | liusearch/src/app.rs:668-675 | every request sent is for one of the names, with the given key |
| Closing.EmptyKeySendsNothing | liusearch/src/api.rs:68 | Current with an empty key sends nothing, closes nothing and reports the missing key |
| Closing.CloseAll | liusearch/src/app.rs:667-677 | the worker loop computes `CloseEach`: one call per name, progress after each success, `break` on the first error |
| Closing.LegacyCloseProgressFallsShort | src/app.rs:575 | one disabled result among those shown keeps progress below the Legacy bound, even when every account closes |
| Closing.LegacyCloseProgressExample | src/app.rs:575 | one enabled and one disabled result shown, every close answered with 200: progress ends at 1 of 2 under the Legacy bound, where the Current bound is 1 |
| Closing.CloseProgressCompletes | liusearch/src/app.rs:662 | under the Current bound (the number of names), progress reaches it when every account closes |
| Clipboard.NameStart | liusearch/src/app.rs:633 | the name starts after a valid prefix: the profile URL or a lone slash |
| Clipboard.ParseLine | liusearch/src/app.rs:633 | a captured name has 2 to 40 characters from `[a-zA-Z0-9_-]` |
| Clipboard.ParseLineSound | liusearch/src/app.rs:633 | every accepted line is prefix, name, then end of line or white space |
| Clipboard.ParseLineComplete | liusearch/src/app.rs:633 | every line of that shape is accepted, with its name captured |
| Clipboard.CollectAcceptedOnly | liusearch/src/app.rs:636-642 | the import keeps `Match::from` of exactly the accepted lines' names |
| Clipboard.MatchesOf | liusearch/src/app.rs:553-555 | "Show" gives `Match::from` of every name, in order |
| Clipboard.CopyThenImport | liusearch/src/app.rs:545-555 | copying a set of valid names and loading the text back gives the same results as "Show" |
| Clipboard.BoundaryCut | src/app.rs:553 | the repetition backs off to the longest length from 2 up that is followed by a word boundary, or fails when none is |
| Clipboard.LegacyParseLine | src/app.rs:553 | a Legacy capture has 2 to 30 name characters |
| Clipboard.TrailingHyphen | src/app.rs:553 | `/ab-` is captured as `ab-` by Current and as `ab` by Legacy |
| Clipboard.VersionsAgreeOnPlainNames | src/app.rs:553 | both versions capture a slash-prefixed name of 2 to 30 word characters that ends the line |
| Corpus.ReadUsers | liusearch/src/app.rs:96-108 | the read loop computes `Read`: the first error, otherwise a record per non-empty line |
| Corpus.NonEmptyMembers | liusearch/src/app.rs:100 | a line gives a record if and only if it is not empty |
| Corpus.UsersOf | liusearch/src/app.rs:100-105 | each record keeps its line as the name, and the lower-cased line as the id |
| Corpus.ReadWithoutErrors | liusearch/src/app.rs:96-108 | with no read error the result is the records of the non-empty lines, in order |
| Corpus.ReadStopsAtFirstError | liusearch/src/app.rs:99 | a failing line makes the read fail with the first error |
| Corpus.ReadWrittenList | liusearch/src/app.rs:96-108 | reading a list written one name per line gives each name back with its lower-cased id |
| Pages.PageWindow | liusearch/src/app.rs:724-730 | the window is `page * size .. min((page + 1) * size, len)`; a page starting past the end is reset to page 0 |
| Pages.NextPageNotEmpty | liusearch/src/app.rs:810-816 | a page reached with "Next" is shown as is and is not empty |
| Pages.PrevPageValid | liusearch/src/app.rs:797-803 | "Prev" from a valid page lands on a valid page |
| Pages.Scroll | liusearch/src/app.rs:830-834 | scrolling up goes back a page and down goes forward, each only when enabled; otherwise the page stays |
| Pages.Toggle | liusearch/src/app.rs:757-767 | after a row's clicks the name's membership in each saved set is as the three `if`s decide, and other names are untouched |
| Pages.ToggleKeepsSetsApart | liusearch/src/app.rs:757-767 | after any click the name is in at most one saved set |
| Pages.ClickActiveRemoves | liusearch/src/app.rs:757-767 | clicking a set's button removes the name when present and adds it when absent |
| Pages.TimeAgo | liusearch/src/app.rs:711-722 | years from 730 days, "1 year" from 365, months from 30, days below, each count being the floor of the right quotient |
| Pages.TimeAgoBoundaries | liusearch/src/app.rs:711-722 | the wording switches exactly at 30, 365 and 730 days |
| Pages.AgoTextWording | liusearch/src/app.rs:713-720 | the label is `N years ago` with `N = days / 365` from 730 days, `1 year ago` from 365, `N months ago` with `N = days / 30` from 30, otherwise `N days ago`, with a minus sign for a negative count |
| Session.ScanResults | liusearch/src/app.rs:256-273 | the results are the earlier ones plus the hits of each chunk in arrival order, sorted by distance in Levenshtein mode; the ticks are those of the chunks |
| Session.Applied | liusearch/src/app.rs:316 | filling in details keeps the length, and leaves results past the first 1500 untouched |
| Session.UpdateResults | liusearch/src/app.rs:314-335 | nothing found: unchanged. Otherwise the details are filled in, then in Current the closed accounts are dropped if asked and the rest is ranked |
| Session.LoadedState.Loaded | src/model.rs:100-110 | `State::loaded`: empty query and results, page 0, progress 0 of 1, not processing |
| Session.LoadedState.EditPattern | liusearch/src/app.rs:525 | typing changes only the query |
| Session.LoadedState.ScanAll | liusearch/src/app.rs:256-273 | the worker leaves the results as `Scanned` says and adds the scan's ticks to progress |
| Session.LoadedState.DoSearch | liusearch/src/app.rs:210-280 | a short or uncompilable query changes nothing. Otherwise: progress is reset, the bound is the corpus size (at least 1), the scan runs, and in Current with "always fetch info" the lookup follows, with its batch progress and the bound as written, the number of names looked up (at least 1) |
| Session.LoadedState.SearchClicked | liusearch/src/app.rs:598-619 | Current with no corpus changes nothing. Otherwise page 0 and cleared results, then `DoSearch` from empty results: an uncompilable query leaves them empty and the progress untouched; otherwise processing ends, the scan's results are a permutation of the corpus hits, progress and bound are those of the scan, or of the lookup that follows it in Current with "always fetch info" |
| Session.LoadedState.FetchInfo | liusearch/src/app.rs:282-337 | the results become those `LookedUp` describes; progress is the number of batches that arrived; the bound is the number of names looked up, at least 1, as written (see Findings); processing ends |
| Session.LoadedState.Close | liusearch/src/app.rs:646-678 | refused unless clicked, fewer than 250 results, and confirmed. Otherwise it sends exactly the worker's requests for the enabled names, progress counts the names closed, the bound is the number of results shown in Legacy (`src/app.rs:575`) and the number of enabled names in Current, both at least 1, and results are unchanged |
| Session.LoadedState.LoadClipboard | liusearch/src/app.rs:630-644 | an unreadable clipboard changes nothing; otherwise the results are the version's parse of the text |
| Session.LoadedState.ShowNames | liusearch/src/app.rs:553-555 | the results become `Match::from` of the listed names |
| Session.LoadedState.RemoveResult | liusearch/src/app.rs:787-789 | "X" removes every result with that id and nothing else |
| Session.LoadedState.ShowPage | liusearch/src/app.rs:724-730 | the table shows the page window, and the page is reset to 0 when it starts past the end |
| Session.LoadedState.ScrollBy | liusearch/src/app.rs:830-834 | the page moves as `Scroll` says and nothing else changes |
| Session.WithoutIdKeepsOthers | liusearch/src/app.rs:788 | removing an id keeps every other result as often as it occurred |
| Session.Clamp | liusearch/src/app.rs:449 | a clamped value lies in range, and equals the input when the input already does |
| Session.ClampPanel | liusearch/src/app.rs:471-505 | the panel's clamps always give settings within the panel ranges, and leave settings already within them unchanged |
| Session.App.Default | liusearch/src/app.rs:340-356 | page size 20, empty key, plain mode, default Levenshtein settings, both switches off, both saved sets empty |
| Session.App.EditPageSize | liusearch/src/app.rs:449 | the page size is held to 10..=100; nothing else changes |
| Session.App.EditLevenshtein | liusearch/src/app.rs:471-505 | the settings become the clamped request, within the panel ranges |
| Session.App.ClickRow | liusearch/src/app.rs:757-767 | the saved sets change as `Toggle` says |
| Session.App.CopySaved | liusearch/src/app.rs:545-552 | "Copy" puts `/name` lines of the set's names, joined by newlines |
| Session.App.ShowSaved | liusearch/src/app.rs:553-555 | "Show" makes one bare result per saved name, in walk order, as many as the set holds; the corpus, query, page, processing flag and progress stay |
| Session.App.ClearSaved | liusearch/src/app.rs:556-558 | "Clear" empties the chosen set and keeps the other; every setting stays |
| Extractor.Names | extractor/src/main.rs:52-87 | each variant other than `all` and `exotic` stands for one archive name; no name is empty |
| Extractor.AllIsStandardThenExotic | extractor/src/main.rs:55-76 | `all` is `standard` followed by the exotic names, with no repeats |
| Extractor.MonthRangeIsChronological | extractor/src/main.rs:101-118 | with an end month, the downloads are exactly the calendar months from the first to the last, in order |
| Extractor.SingleMonth | extractor/src/main.rs:119-121 | without an end month there is one download, for the given month |
| Extractor.DownloadMonths | extractor/src/main.rs:101-121 | the month loops for one archive name produce `MonthsOf` |
| Extractor.YearLoop | extractor/src/main.rs:110-114 | the loop over the middle years appends twelve months per year |
| Extractor.MonthLoop | extractor/src/main.rs:103-105 | a month loop appends its months in order |
| Extractor.PlanContents | extractor/src/main.rs:100-122 | one download per archive name and month, and nothing else |
| Extractor.DownloadEach | extractor/src/main.rs:100-122 | the loop over archive names runs the month loops for each name in turn |
| Extractor.Downloads | extractor/src/main.rs:100-122 | the `download` command fetches `Plan` of the variant's names and the months |
| Extractor.DownloadUrl | extractor/src/main.rs:139-141 | the URL is the database host, the variant directory and the archive file name |
| Extractor.ExtractNamesDownloadOutfile | extractor/src/main.rs:124-128 | `extract` on a monthly archive name writes to the same file `download` writes for that month |
| Extractor.DownloadUrlArchive | extractor/src/main.rs:139-141 | the download URL ends in `/` and the archive name, which `extract` maps to the file that download writes |
| Extractor.ExtractName | extractor/src/main.rs:171-172 | a line is skipped if and only if it starts with neither `[White ` nor `[Black ` |
| Extractor.ExtractsQuotedName | extractor/src/main.rs:171-172 | `[White "x"]` and `[Black "x"]` give `x` |
| Extractor.TagLineName | extractor/src/main.rs:172 | a tag line whose byte slice `8..len-2` is defined gives that slice |
| Extractor.ShortTagLinePanics | extractor/src/main.rs:172 | a tag line shorter than 10 bytes panics |
| Extractor.CollectNames | extractor/src/main.rs:169-174 | the loop gives a set if and only if no line panics; the set is exactly the names the lines give |
| Extractor.NamesInMembers | extractor/src/main.rs:169-174 | `NamesIn` is a set if and only if no line panics, and then it holds exactly the lines' names |
| Extractor.WrittenOnce | extractor/src/main.rs:176-180 | each name of the set is written exactly once |
| Extractor.WrittenLines | extractor/src/main.rs:176-180 | the output read back line by line gives the listing, when no name holds a line break or ends in `\r` |
| Extractor.ProgressCounter.constructor | extractor/src/main.rs:152-156 | the step is `progress_step * 1_000_000`; nothing is read or reported yet |
| Extractor.ProgressCounter.Count | extractor/src/main.rs:157-165 | bytes are counted; one report is made, and the threshold moves one step, exactly when the count passes it |
| Extractor.ReadThrough | extractor/src/main.rs:194-200 | the inner read's result is passed on; a failed read changes nothing; a successful one adds its bytes, and reports once and moves the threshold one step exactly when the count passes the threshold |
| Combine.StrLtIrreflexive | combine.py:30 | no string sorts before itself |
| Combine.StrLtTrans | combine.py:30 | the string order is transitive |
| Combine.StrLtTotal | combine.py:30 | any two distinct strings are ordered |
| Combine.SortNames | combine.py:30 | `sorted` gives the set's names in strictly ascending order, and nothing else |
| Combine.AscendingOnce | combine.py:30 | a sorted list of a set holds each name once |
| Combine.PyLines | combine.py:21 | lines in text mode hold neither `\n` nor `\r` |
| Combine.NamesInMembers | combine.py:21-25 | a file gives a name if and only if one of its lines strips to that name and the name is not empty |
| Combine.CombinedMembers | combine.py:16-25 | a name is combined if and only if it is a stripped, non-blank line of some input |
| Combine.PrintedLines | combine.py:29-31 | reading the output back in text mode gives the names, in order |
| Combine.ReadAll | combine.py:18-25 | the loop opens every input in order and collects `Combined` |
| Combine.AddLines | combine.py:21-25 | the line loop adds exactly the stripped non-blank lines |
| Combine.Run | combine.py:5-31 | three or fewer arguments: usage, nothing opened. Existing output: exit 2, nothing opened. Otherwise all inputs are opened, and the output is the sorted combined names, one per line |
| Combine.EachNameOnce | combine.py:16-31 | every stripped non-blank input line is in the output exactly once, and nothing else is |

## Left out

- Threads, locks and atomics. The scan, lookup and close workers run as
  sequential loops. Thread interleaving is modelled only through the
  chunk arrival order, which is a parameter. A poller observing the
  counters mid-run is not modelled.
- The user interface itself, the "Loading" and "PickFile" states, the
  password prompt and the decryption of `.gpg` lists.
- Decompression of `.gz` and bzip2 data. A list is given as its decoded
  lines.
- Floating-point progress fractions, the page label and other display
  text.
- The update check and the sleeps between requests.
- HTTP and JSON. `post` and `send` are parameters, and JSON decoding is
  given as a decoded record (`Api.DecodeUser`).
- The `regex` crate, except for the two fixed clipboard patterns. These are
  spelled out, with the Unicode `\w` table as a parameter.
- The distance computation of `triple_accel`. Its answer is a parameter,
  assumed to respect `max_k` only where a lemma says so.
- `Utc::now`. `Pages.TimeAgo` takes the day count.
- Hash set and hash map iteration order. A walk of a set is a listing
  without repeats, given as a parameter.
- `sort_unstable_by_key`. It is modelled by an insertion sort, which is one
  of the permitted outcomes. The order among equal keys is not pinned down.
- Api.SumGames: models the release-build `u32` wrap-around. It does not
  model the overflow panic of a debug build.
- Session.LoadedState.FetchInfo: models the in-place update of
  `results[..max]` on a sequence value. It does not model the mutex, or the
  results the window shows while the worker runs.
- Extractor.Downloads: models which downloads happen and in what order. It
  does not model the HTTP transfer, `error_for_status` panics, or the
  printed ETA.
- Extractor.CollectNames: a line that fails to decode (`line.unwrap()`) is
  not modelled. The lines are given decoded.
- Combine.Run: the printing of file names and the Python file decoding are
  not modelled. Nor is the newline translation on write: `Combine.Printed`
  ends each line with `\n`, where text mode writes `os.linesep` (`\r\n` on
  Windows), and `Combine.PrintedLines` is proved for the `\n` form only.
  Input files are assumed to open, so a missing input file, which raises an
  exception, is not modelled. Nor is a race with another process creating
  the output.
- Legacy `do_read` and the other Legacy handlers that are identical to the
  Current ones are modelled once. They are cited at their Current lines.

## Findings

| source | as written | input that shows it | evidently intended | confidence | as-written member | corrected member |
|---|---|---|---|---|---|---|
| src/app.rs:575 | the Legacy close sets `progress_max` to the number of results shown, but the worker counts only enabled names | one enabled and one disabled result shown, every close succeeds: progress ends at 1 of 2, where the corrected bound gives 1 of 1 (`Closing.LegacyCloseProgressExample`) | the bound is the number of names to close, as `liusearch/src/app.rs:662` later does | not executed | Closing.LegacyCloseProgressFallsShort | Closing.CloseProgressCompletes |
| liusearch/src/app.rs:292 | the lookup sets `progress_max` to the number of names looked up, but progress advances once per batch of 300 | 20 results, every batch succeeds: progress ends at 1 of 20, where the corrected bound gives 1 of 1 (`Enrich.FetchProgressExample`) | the bound is the number of batches, so the bar fills when every batch arrives | not executed | Enrich.FetchProgressFallsShort | Enrich.FetchProgressCompletes |
