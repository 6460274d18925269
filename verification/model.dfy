/**
 * The records shared by both versions of the application (`src/model.rs`):
 * usernames from the corpus, search hits, the search modes and the
 * Levenshtein settings.
 */
module Model {
  import opened Wrappers
  import opened Text

  /** The two versions of the application: `src/` (Legacy) and `liusearch/` (Current). */
  datatype Version = Legacy | Current

  const U32_LIMIT: int := 0x1_0000_0000
  const U32_MAX: int := U32_LIMIT - 1

  /** Rust's `u32`. */
  type uint32 = x: int | 0 <= x < U32_LIMIT

  /** Rust's `u8`. */
  type uint8 = x: int | 0 <= x < 0x100

  /** A point in time as milliseconds since the Unix epoch, the precision the API delivers. */
  type Millis = int

  /** `DateTime::timestamp`: whole seconds, rounded towards minus infinity. */
  function Seconds(t: Millis): (s: int)
    ensures s * 1000 <= t < s * 1000 + 1000
  {
    t / 1000
  }

  /** One line of the corpus: the name as listed and its lower-cased form. */
  datatype Username = Username(id: string, name: string)

  /** A search hit, possibly enriched with account information. */
  datatype Match = Match(
    id: string,
    name: string,
    enabled: bool,
    createdAt: Option<Millis>,
    seenAt: Option<Millis>,
    games: uint32,
    k: uint32)

  /** A hit that carries no account information yet. */
  predicate Bare(m: Match)
  {
    m.enabled && m.createdAt == None && m.seenAt == None && m.games == 0
  }

  /** `Match::new`: a hit for `user` at distance `k`. */
  function NewMatch(user: Username, k: uint32): (m: Match)
    ensures m.id == user.id && m.name == user.name && m.k == k
    ensures Bare(m)
  {
    Match(user.id, user.name, true, None, None, 0, k)
  }

  /** The corpus record for a name: the id is the ASCII-lower-cased name. */
  function UserOf(name: string): (u: Username)
    ensures u.name == name && u.id == AsciiLower(name)
  {
    Username(AsciiLower(name), name)
  }

  /** `From<&str> for Match` (and `From<&String>`, which delegates to it). */
  function MatchFromName(name: string): (m: Match)
    ensures m.id == AsciiLower(name) && m.name == name && m.k == 0
    ensures Bare(m)
  {
    Match(AsciiLower(name), name, true, None, None, 0, 0)
  }

  /** A hit built from a bare name is the hit at distance 0 for that name's corpus record. */
  lemma MatchFromNameIsNewMatch(name: string)
    ensures MatchFromName(name) == NewMatch(UserOf(name), 0)
  {
  }

  datatype SearchMode = Plain | NumberReplacements | Levenshtein | RegEx

  /** `SearchMode::default()`. */
  const DEFAULT_SEARCH_MODE: SearchMode := Plain

  datatype LevenshteinSettings = LevenshteinSettings(
    maxK: uint32,
    mismatchCost: uint8,
    gapCost: uint8,
    swapCost: uint8)

  /** `LevenshteinSettings::default()`. */
  const DEFAULT_LEVENSHTEIN: LevenshteinSettings := LevenshteinSettings(3, 1, 1, 1)

  /** The costs handed to the distance search (`triple_accel`'s `EditCosts`). */
  datatype EditCosts = EditCosts(
    mismatchCost: uint8,
    gapCost: uint8,
    startGapCost: uint8,
    transposeCost: Option<uint8>)

  /** `LevenshteinSettings::edit_costs`. */
  function EditCostsOf(lev: LevenshteinSettings): (c: EditCosts)
    ensures c.mismatchCost == lev.mismatchCost && c.gapCost == lev.gapCost
    ensures c.startGapCost == 0 && c.transposeCost == Some(lev.swapCost)
  {
    EditCosts(lev.mismatchCost, lev.gapCost, 0, Some(lev.swapCost))
  }

  function Min(a: int, b: int): int
  {
    if a <= b then a else b
  }

  function Max(a: int, b: int): int
  {
    if a >= b then a else b
  }

  /**
   * The ranges the settings panel lets the user pick: distance and the two
   * costs in 1..=10, the swap cost from 1 up to one less than twice the
   * cheaper of the other two.
   */
  predicate InPanelRange(lev: LevenshteinSettings)
  {
    1 <= lev.maxK <= 10 && 1 <= lev.mismatchCost <= 10 && 1 <= lev.gapCost <= 10
    && 1 <= lev.swapCost <= Min(lev.mismatchCost, lev.gapCost) * 2 - 1
  }

  /**
   * Within the panel's ranges a swap is always cheaper than replacing both
   * letters or deleting and re-inserting one, and no cost is zero.
   */
  lemma PanelCostsAreSound(lev: LevenshteinSettings)
    requires InPanelRange(lev)
    ensures var c := EditCostsOf(lev);
      c.mismatchCost > 0 && c.gapCost > 0 && c.transposeCost.value > 0
      && c.transposeCost.value < 2 * c.mismatchCost && c.transposeCost.value < 2 * c.gapCost
  {
  }

  /** The default settings lie within the panel's ranges. */
  lemma DefaultLevenshteinInPanelRange()
    ensures InPanelRange(DEFAULT_LEVENSHTEIN)
    ensures EditCostsOf(DEFAULT_LEVENSHTEIN) == EditCosts(1, 1, 0, Some(1))
  {
  }
}
