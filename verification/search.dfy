/**
 * Turning the query into a searcher and testing a username against it
 * (`Searcher::matches` and the first half of `do_search` in both
 * `app.rs` files).  The `regex` crate and the SIMD distance search of
 * `triple_accel` are parameters: `Engines`.
 */
module Search {
  import opened Wrappers
  import opened Text
  import opened Replace
  import opened Model

  /** A compiled query.  A regular expression is represented by its source text. */
  datatype Searcher =
    | PlainSearch(pattern: string)
    | RegexSearch(source: string)
    | LevenshteinSearch(pattern: string, lev: LevenshteinSettings)

  /** The foreign engines the searcher calls. */
  datatype Engines = Engines(
    /** `Regex::new(source).is_ok()`. */
    regexCompiles: string -> bool,
    /** `is_match` of the compiled `source` on a username. */
    regexMatches: (string, string) -> bool,
    /** The best match distance `k` of the pattern inside the username, if one is within `max_k`. */
    distance: (string, string, LevenshteinSettings) -> Option<uint32>)

  /** The distance search never reports a distance above the limit it was given. */
  ghost predicate DistanceWithinLimit(e: Engines)
  {
    forall pattern, name, lev :: e.distance(pattern, name, lev).Some? ==> e.distance(pattern, name, lev).value <= lev.maxK
  }

  /**
   * `Searcher::matches`: `Some(k)` when `id` is a hit at distance `k`.
   * Plain and regular-expression hits are at distance 0.  A username
   * shorter in bytes than the Levenshtein pattern is rejected before the
   * distance search runs.
   */
  function Matches(s: Searcher, id: string, e: Engines): (r: Option<uint32>)
    ensures s.PlainSearch? ==> (r.Some? <==> Contains(id, s.pattern)) && (r.Some? ==> r.value == 0)
    ensures s.RegexSearch? ==> (r.Some? <==> e.regexMatches(s.source, id)) && (r.Some? ==> r.value == 0)
    ensures s.LevenshteinSearch? && Utf8Len(id) < Utf8Len(s.pattern) ==> r.None?
    ensures s.LevenshteinSearch? && Utf8Len(id) >= Utf8Len(s.pattern) ==> r == e.distance(s.pattern, id, s.lev)
    ensures s.LevenshteinSearch? && DistanceWithinLimit(e) && r.Some? ==> r.value <= s.lev.maxK
  {
    match s
    case PlainSearch(pattern) => if Contains(id, pattern) then Some(0) else None
    case RegexSearch(source) => if e.regexMatches(source, id) then Some(0) else None
    case LevenshteinSearch(pattern, lev) =>
      if Utf8Len(id) < Utf8Len(pattern) then None else e.distance(pattern, id, lev)
  }

  /** For a username shorter than the pattern the outcome does not depend on the distance search at all. */
  lemma ShortNamesSkipDistanceSearch(pattern: string, lev: LevenshteinSettings, id: string, e1: Engines, e2: Engines)
    requires Utf8Len(id) < Utf8Len(pattern)
    ensures Matches(LevenshteinSearch(pattern, lev), id, e1) == Matches(LevenshteinSearch(pattern, lev), id, e2) == None
  {
  }

  // ---------------------------------------------------------------- similar letters

  /** One `replace` call with a character or an array of characters (Current). */
  datatype CharStage = CharStage(cs: set<char>, t: string)

  /** A non-empty `&str` pattern. */
  type Needle = s: string | s != [] witness "a"

  /** One `replace` call with a `&str` pattern (Legacy). */
  datatype StrStage = StrStage(pat: Needle, t: string)

  /** A chain of character `replace` calls, first stage first. */
  function ReplaceEachChar(stages: seq<CharStage>, s: string): string
  {
    if stages == [] then s else ReplaceEachChar(stages[1..], ReplaceChars(s, stages[0].cs, stages[0].t))
  }

  /** A chain of string `replace` calls, first stage first. */
  function ReplaceEachStr(stages: seq<StrStage>, s: string): string
  {
    if stages == [] then s else ReplaceEachStr(stages[1..], ReplaceStr(s, stages[0].pat, stages[0].t))
  }

  /** `liusearch/src/app.rs`: character patterns, `i` and `l` in one call. */
  const CURRENT_STAGES: seq<CharStage> := [
    CharStage({'a'}, "[a4]"), CharStage({'e'}, "[e3]"), CharStage({'g'}, "[gq9]"), CharStage({'i', 'l'}, "[il1]"),
    CharStage({'o'}, "[o0]"), CharStage({'s'}, "[s5]"), CharStage({'u'}, "[uv]"), CharStage({'z'}, "[z2]")]

  /** `src/app.rs`: string patterns, `i` and `l` in two calls. */
  const LEGACY_STAGES: seq<StrStage> := [
    StrStage("a", "[a4]"), StrStage("e", "[e3]"), StrStage("g", "[gq9]"), StrStage("i", "[il1]"),
    StrStage("l", "[il1]"), StrStage("o", "[o0]"), StrStage("s", "[s5]"), StrStage("u", "[uv]"),
    StrStage("z", "[z2]")]

  /** The Legacy chain with each one-letter string pattern read as a character pattern. */
  const LEGACY_CHAR_STAGES: seq<CharStage> := [
    CharStage({'a'}, "[a4]"), CharStage({'e'}, "[e3]"), CharStage({'g'}, "[gq9]"), CharStage({'i'}, "[il1]"),
    CharStage({'l'}, "[il1]"), CharStage({'o'}, "[o0]"), CharStage({'s'}, "[s5]"), CharStage({'u'}, "[uv]"),
    CharStage({'z'}, "[z2]")]

  /** The similar-letters rewrite of a (lower-cased) query, as the code chains it. */
  function SimilarLetters(version: Version, pattern: string): string
  {
    match version
    case Current => ReplaceEachChar(CURRENT_STAGES, pattern)
    case Legacy => ReplaceEachStr(LEGACY_STAGES, pattern)
  }

  /**
   * What each character of the query becomes.  In the Legacy chain the `l`
   * that the `i` stage writes is rewritten again by the `l` stage, so `i`
   * ends up as the nested class `[i[il1]1]`.
   */
  function ClassOf(version: Version, c: char): string
  {
    if c == 'a' then "[a4]"
    else if c == 'e' then "[e3]"
    else if c == 'g' then "[gq9]"
    else if c == 'i' then (if version == Legacy then "[i[il1]1]" else "[il1]")
    else if c == 'l' then "[il1]"
    else if c == 'o' then "[o0]"
    else if c == 's' then "[s5]"
    else if c == 'u' then "[uv]"
    else if c == 'z' then "[z2]"
    else [c]
  }

  /** The per-character reading of the rewrite: each character replaced by its class, independently. */
  function Expand(version: Version, pattern: string): (r: string)
    ensures |r| >= |pattern|
  {
    if pattern == [] then [] else ClassOf(version, pattern[0]) + Expand(version, pattern[1..])
  }

  lemma {:induction false} ChainSplit(a: seq<CharStage>, b: seq<CharStage>, s: string)
    ensures ReplaceEachChar(a + b, s) == ReplaceEachChar(b, ReplaceEachChar(a, s))
  {
    if a == [] {
      assert a + b == b;
    } else {
      assert (a + b)[1..] == a[1..] + b;
      ChainSplit(a[1..], b, ReplaceChars(s, a[0].cs, a[0].t));
    }
  }

  /** A chain of character replacements works on each part of a string separately. */
  lemma {:induction false} ChainAppend(stages: seq<CharStage>, x: string, y: string)
    ensures ReplaceEachChar(stages, x + y) == ReplaceEachChar(stages, x) + ReplaceEachChar(stages, y)
  {
    if stages != [] {
      var st := stages[0];
      ReplaceCharsAppend(x, y, st.cs, st.t);
      ChainAppend(stages[1..], ReplaceChars(x, st.cs, st.t), ReplaceChars(y, st.cs, st.t));
    }
  }

  /** A string none of whose characters any stage looks for goes through the chain unchanged. */
  lemma {:induction false} ChainFixes(stages: seq<CharStage>, s: string)
    requires forall st, c :: st in stages && c in s ==> c !in st.cs
    ensures ReplaceEachChar(stages, s) == s
  {
    if stages != [] {
      assert stages[0] in stages;
      ReplaceCharsAbsent(s, stages[0].cs, stages[0].t);
      ChainFixes(stages[1..], s);
    }
  }

  /** The same, for a string drawn from characters that no stage looks for. */
  lemma ChainFixesWithin(stages: seq<CharStage>, s: string, chars: set<char>)
    requires forall j :: 0 <= j < |s| ==> s[j] in chars
    requires forall i :: 0 <= i < |stages| ==> stages[i].cs * chars == {}
    ensures ReplaceEachChar(stages, s) == s
  {
    forall st, c | st in stages && c in s
      ensures c !in st.cs
    {
      var i :| 0 <= i < |stages| && stages[i] == st;
      assert c in chars;
      assert c !in stages[i].cs * chars;
    }
    ChainFixes(stages, s);
  }

  /**
   * A character that no earlier stage looks for is replaced by the first
   * stage that does, and no later stage touches what that stage wrote.
   */
  lemma ChainHit(pre: seq<CharStage>, st: CharStage, post: seq<CharStage>, c: char)
    requires forall p :: p in pre ==> c !in p.cs
    requires c in st.cs
    requires forall p, x :: p in post && x in st.t ==> x !in p.cs
    ensures ReplaceEachChar(pre + [st] + post, [c]) == st.t
  {
    ChainSplit(pre, [st] + post, [c]);
    assert pre + [st] + post == pre + ([st] + post);
    ChainFixes(pre, [c]);
    ChainSplit([st], post, [c]);
    assert ReplaceChars([c], st.cs, st.t) == st.t + ReplaceChars([], st.cs, st.t);
    assert ReplaceEachChar([st], [c]) == ReplaceEachChar([], st.t);
    ChainFixes(post, st.t);
  }

  /** The same, with the stage named by its index. */
  lemma StageHit(stages: seq<CharStage>, k: nat, c: char)
    requires k < |stages|
    requires forall i :: 0 <= i < k ==> c !in stages[i].cs
    requires c in stages[k].cs
    requires forall i, j :: k < i < |stages| && 0 <= j < |stages[k].t| ==> stages[k].t[j] !in stages[i].cs
    ensures ReplaceEachChar(stages, [c]) == stages[k].t
  {
    var pre, st, post := stages[..k], stages[k], stages[k + 1..];
    assert stages == pre + [st] + post;
    forall p | p in pre
      ensures c !in p.cs
    {
      var i :| 0 <= i < |pre| && pre[i] == p;
      assert stages[i] == p;
    }
    forall p, x | p in post && x in st.t
      ensures x !in p.cs
    {
      var i :| 0 <= i < |post| && post[i] == p;
      var j :| 0 <= j < |st.t| && st.t[j] == x;
      assert stages[k + 1 + i] == p;
    }
    ChainHit(pre, st, post, c);
  }

  /** The Legacy chain reads its one-letter string patterns exactly as character patterns. */
  lemma {:induction false} OneLetterPatterns(stages: seq<StrStage>, chars: seq<CharStage>, s: string)
    requires |chars| == |stages|
    requires forall i :: 0 <= i < |stages| ==>
      |stages[i].pat| == 1 && chars[i] == CharStage({stages[i].pat[0]}, stages[i].t)
    ensures ReplaceEachStr(stages, s) == ReplaceEachChar(chars, s)
  {
    if stages != [] {
      ReplaceStrOneChar(s, stages[0].pat[0], stages[0].t);
      assert [stages[0].pat[0]] == stages[0].pat;
      OneLetterPatterns(stages[1..], chars[1..], ReplaceStr(s, stages[0].pat, stages[0].t));
    }
  }

  lemma LegacyAsChars(s: string)
    ensures SimilarLetters(Legacy, s) == ReplaceEachChar(LEGACY_CHAR_STAGES, s)
  {
    OneLetterPatterns(LEGACY_STAGES, LEGACY_CHAR_STAGES, s);
  }

  // The class each letter of a chain becomes, one lemma per letter so
  // that each proof obligation unfolds the chain for one literal only.

  lemma CurrentLetter_a()
    ensures ReplaceEachChar(CURRENT_STAGES, "a") == "[a4]"
  {
    StageHit(CURRENT_STAGES, 0, 'a');
  }

  lemma CurrentLetter_e()
    ensures ReplaceEachChar(CURRENT_STAGES, "e") == "[e3]"
  {
    StageHit(CURRENT_STAGES, 1, 'e');
  }

  lemma CurrentLetter_g()
    ensures ReplaceEachChar(CURRENT_STAGES, "g") == "[gq9]"
  {
    StageHit(CURRENT_STAGES, 2, 'g');
  }

  lemma CurrentLetter_i()
    ensures ReplaceEachChar(CURRENT_STAGES, "i") == "[il1]"
  {
    StageHit(CURRENT_STAGES, 3, 'i');
  }

  lemma CurrentLetter_l()
    ensures ReplaceEachChar(CURRENT_STAGES, "l") == "[il1]"
  {
    StageHit(CURRENT_STAGES, 3, 'l');
  }

  lemma CurrentLetter_o()
    ensures ReplaceEachChar(CURRENT_STAGES, "o") == "[o0]"
  {
    StageHit(CURRENT_STAGES, 4, 'o');
  }

  lemma CurrentLetter_s()
    ensures ReplaceEachChar(CURRENT_STAGES, "s") == "[s5]"
  {
    StageHit(CURRENT_STAGES, 5, 's');
  }

  lemma CurrentLetter_u()
    ensures ReplaceEachChar(CURRENT_STAGES, "u") == "[uv]"
  {
    StageHit(CURRENT_STAGES, 6, 'u');
  }

  lemma CurrentLetter_z()
    ensures ReplaceEachChar(CURRENT_STAGES, "z") == "[z2]"
  {
    StageHit(CURRENT_STAGES, 7, 'z');
  }

  lemma LegacyLetter_a()
    ensures ReplaceEachChar(LEGACY_CHAR_STAGES, "a") == "[a4]"
  {
    StageHit(LEGACY_CHAR_STAGES, 0, 'a');
  }

  lemma LegacyLetter_e()
    ensures ReplaceEachChar(LEGACY_CHAR_STAGES, "e") == "[e3]"
  {
    StageHit(LEGACY_CHAR_STAGES, 1, 'e');
  }

  lemma LegacyLetter_g()
    ensures ReplaceEachChar(LEGACY_CHAR_STAGES, "g") == "[gq9]"
  {
    StageHit(LEGACY_CHAR_STAGES, 2, 'g');
  }

  lemma LegacyLetter_l()
    ensures ReplaceEachChar(LEGACY_CHAR_STAGES, "l") == "[il1]"
  {
    StageHit(LEGACY_CHAR_STAGES, 4, 'l');
  }

  lemma LegacyLetter_o()
    ensures ReplaceEachChar(LEGACY_CHAR_STAGES, "o") == "[o0]"
  {
    StageHit(LEGACY_CHAR_STAGES, 5, 'o');
  }

  lemma LegacyLetter_s()
    ensures ReplaceEachChar(LEGACY_CHAR_STAGES, "s") == "[s5]"
  {
    StageHit(LEGACY_CHAR_STAGES, 6, 's');
  }

  lemma LegacyLetter_u()
    ensures ReplaceEachChar(LEGACY_CHAR_STAGES, "u") == "[uv]"
  {
    StageHit(LEGACY_CHAR_STAGES, 7, 'u');
  }

  lemma LegacyLetter_z()
    ensures ReplaceEachChar(LEGACY_CHAR_STAGES, "z") == "[z2]"
  {
    StageHit(LEGACY_CHAR_STAGES, 8, 'z');
  }

  /** Each character of the query goes through the Current chain into its class. */
  lemma OneCharacterCurrent(c: char)
    ensures SimilarLetters(Current, [c]) == ClassOf(Current, c)
  {
    if c == 'a' { CurrentLetter_a(); }
    else if c == 'e' { CurrentLetter_e(); }
    else if c == 'g' { CurrentLetter_g(); }
    else if c == 'i' { CurrentLetter_i(); }
    else if c == 'l' { CurrentLetter_l(); }
    else if c == 'o' { CurrentLetter_o(); }
    else if c == 's' { CurrentLetter_s(); }
    else if c == 'u' { CurrentLetter_u(); }
    else if c == 'z' { CurrentLetter_z(); }
    else { ChainFixes(CURRENT_STAGES, [c]); }
  }

  /** The Legacy `l` stage rewrites the `l` inside the class that the `i` stage wrote. */
  lemma LegacyI()
    ensures ReplaceEachChar(LEGACY_CHAR_STAGES, "i") == "[i[il1]1]"
  {
    var S := LEGACY_CHAR_STAGES;
    assert S == S[..4] + ([S[4]] + S[5..]);
    ChainSplit(S[..4], [S[4]] + S[5..], "i");
    LegacyIUpToL();
    ChainSplit([S[4]], S[5..], "[il1]");
    LStageInsideClass();
    assert ReplaceEachChar([S[4]], "[il1]") == ReplaceEachChar([], "[i[il1]1]");
    LegacyAfterL();
  }

  lemma LegacyIUpToL()
    ensures ReplaceEachChar(LEGACY_CHAR_STAGES[..4], "i") == "[il1]"
  {
    StageHit(LEGACY_CHAR_STAGES[..4], 3, 'i');
  }

  lemma LStageInsideClass()
    ensures ReplaceChars("[il1]", {'l'}, "[il1]") == "[i[il1]1]"
  {
    assert "[il1]" == "[i" + ['l'] + "1]";
    ReplaceCharsOneInside("[i", 'l', "1]", {'l'}, "[il1]");
    assert "[i" + "[il1]" + "1]" == "[i[il1]1]";
  }

  lemma LegacyAfterL()
    ensures ReplaceEachChar(LEGACY_CHAR_STAGES[5..], "[i[il1]1]") == "[i[il1]1]"
  {
    ChainFixesWithin(LEGACY_CHAR_STAGES[5..], "[i[il1]1]", {'[', 'i', 'l', '1', ']'});
  }

  /** Each character of the query goes through the Legacy chain into its class. */
  lemma OneCharacterLegacy(c: char)
    ensures SimilarLetters(Legacy, [c]) == ClassOf(Legacy, c)
  {
    LegacyAsChars([c]);
    if c == 'i' { LegacyI(); }
    else if c == 'a' { LegacyLetter_a(); }
    else if c == 'e' { LegacyLetter_e(); }
    else if c == 'g' { LegacyLetter_g(); }
    else if c == 'l' { LegacyLetter_l(); }
    else if c == 'o' { LegacyLetter_o(); }
    else if c == 's' { LegacyLetter_s(); }
    else if c == 'u' { LegacyLetter_u(); }
    else if c == 'z' { LegacyLetter_z(); }
    else { ChainFixes(LEGACY_CHAR_STAGES, [c]); }
  }

  /**
   * The similar-letters rewrite equals the per-character map: `a`->`[a4]`,
   * `e`->`[e3]`, `g`->`[gq9]`, `i` and `l`->`[il1]` (Legacy: `i`->
   * `[i[il1]1]`), `o`->`[o0]`, `s`->`[s5]`, `u`->`[uv]`, `z`->`[z2]`, every
   * other character unchanged.
   */
  lemma {:induction false} SimilarLettersIsExpand(version: Version, pattern: string)
    ensures SimilarLetters(version, pattern) == Expand(version, pattern)
  {
    if pattern != [] {
      var c, rest := pattern[0], pattern[1..];
      assert pattern == [c] + rest;
      if version == Current {
        ChainAppend(CURRENT_STAGES, [c], rest);
        OneCharacterCurrent(c);
      } else {
        LegacyAsChars(pattern);
        LegacyAsChars([c]);
        LegacyAsChars(rest);
        ChainAppend(LEGACY_CHAR_STAGES, [c], rest);
        OneCharacterLegacy(c);
      }
      SimilarLettersIsExpand(version, rest);
      assert SimilarLetters(version, pattern) == ClassOf(version, c) + SimilarLetters(version, rest);
    } else if version == Current {
      ChainFixes(CURRENT_STAGES, pattern);
    } else {
      LegacyAsChars(pattern);
      ChainFixes(LEGACY_CHAR_STAGES, pattern);
    }
  }

  /** The two versions differ in the class written for `i` and nowhere else. */
  lemma {:induction false} VersionsDifferOnlyAtI(pattern: string)
    ensures Expand(Legacy, pattern) == Expand(Current, pattern) <==> 'i' !in pattern
  {
    if pattern != [] {
      VersionsDifferOnlyAtI(pattern[1..]);
      var c := pattern[0];
      assert 'i' in pattern <==> c == 'i' || 'i' in pattern[1..];
      var l, r := Expand(Legacy, pattern[1..]), Expand(Current, pattern[1..]);
      if c == 'i' {
        assert |Expand(Legacy, pattern)| == 9 + |l|;
        assert |Expand(Current, pattern)| == 5 + |r|;
        ExpandLength(pattern[1..]);
      } else {
        var h := ClassOf(Legacy, c);
        assert h == ClassOf(Current, c);
        assert Expand(Legacy, pattern) == h + l && Expand(Current, pattern) == h + r;
        assert h + l == h + r ==> l == (h + l)[|h|..] == (h + r)[|h|..] == r;
      }
    }
  }

  lemma {:induction false} ExpandLength(pattern: string)
    ensures |Expand(Legacy, pattern)| >= |Expand(Current, pattern)|
  {
    if pattern != [] {
      ExpandLength(pattern[1..]);
    }
  }

  // ---------------------------------------------------------------- compilation

  /** Why a query yields no searcher. */
  datatype CompileError = TooShort | BadRegex(source: string)

  /**
   * The first half of `do_search`: queries shorter than 3 bytes are
   * ignored; otherwise the query is ASCII-lower-cased and turned into a
   * searcher for the mode, regular expressions going through the compiler.
   */
  function Compile(version: Version, query: string, mode: SearchMode, lev: LevenshteinSettings, e: Engines): (r: Result<Searcher, CompileError>)
    ensures r == Err(TooShort) <==> Utf8Len(query) < 3
    ensures r.Ok? ==> match mode
      case Plain => r.value == PlainSearch(AsciiLower(query))
      case NumberReplacements => r.value == RegexSearch(Expand(version, AsciiLower(query)))
      case Levenshtein => r.value == LevenshteinSearch(AsciiLower(query), lev)
      case RegEx => r.value == RegexSearch(AsciiLower(query))
    ensures r.Err? && r != Err(TooShort) ==>
      ((mode == NumberReplacements && r == Err(BadRegex(Expand(version, AsciiLower(query)))))
       || (mode == RegEx && r == Err(BadRegex(AsciiLower(query)))))
      && !e.regexCompiles(r.error.source)
    ensures Utf8Len(query) >= 3 && (mode == Plain || mode == Levenshtein) ==> r.Ok?
    ensures Utf8Len(query) >= 3 && mode == RegEx ==> (r.Ok? <==> e.regexCompiles(AsciiLower(query)))
    ensures Utf8Len(query) >= 3 && mode == NumberReplacements ==>
      (r.Ok? <==> e.regexCompiles(Expand(version, AsciiLower(query))))
  {
    if Utf8Len(query) < 3 then Err(TooShort)
    else
      var pattern := AsciiLower(query);
      match mode
      case Plain => Ok(PlainSearch(pattern))
      case NumberReplacements =>
        var source := SimilarLetters(version, pattern);
        SimilarLettersIsExpand(version, pattern);
        if e.regexCompiles(source) then Ok(RegexSearch(source)) else Err(BadRegex(source))
      case Levenshtein => Ok(LevenshteinSearch(pattern, lev))
      case RegEx =>
        if e.regexCompiles(pattern) then Ok(RegexSearch(pattern)) else Err(BadRegex(pattern))
  }

  /**
   * In plain mode a corpus name is a hit exactly when its lower-cased form
   * contains the lower-cased query.
   */
  lemma PlainSearchIsCaseInsensitiveSubstring(version: Version, query: string, lev: LevenshteinSettings, e: Engines, name: string)
    requires Utf8Len(query) >= 3
    ensures Compile(version, query, Plain, lev, e).Ok?
    ensures Matches(Compile(version, query, Plain, lev, e).value, UserOf(name).id, e) == (if Contains(AsciiLower(name), AsciiLower(query)) then Some(0) else None)
  {
  }
}
