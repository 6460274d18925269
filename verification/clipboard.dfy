/**
 * Importing names from the clipboard and copying a saved set to it.  Each
 * line of the clipboard text is matched against a fixed pattern: an
 * optional profile-URL prefix, a slash, then a username.  The pattern is
 * written out here by hand, backtracking included.
 *
 * Current: `^(?:https://lichess.org/@)?/([a-zA-Z0-9_-]{2,40})(?:$|\s)`.
 * Legacy:  `^(?:https://lichess.org/@)?/([a-zA-Z0-9_-]{2,30})\b`.
 * The `.` between `lichess` and `org` is not escaped, so it matches any
 * character (lines never hold a line feed).
 */
module Clipboard {
  import opened Wrappers
  import opened Text
  import opened Lines
  import opened Model

  /** `[a-zA-Z0-9_-]`. */
  predicate IsNameChar(c: char)
  {
    ('a' <= c <= 'z') || ('A' <= c <= 'Z') || ('0' <= c <= '9') || c == '_' || c == '-'
  }

  /** A username as the Current pattern accepts it: 2 to 40 name characters. */
  predicate ValidName(n: string)
  {
    2 <= |n| <= 40 && forall i :: 0 <= i < |n| ==> IsNameChar(n[i])
  }

  /** The length of the longest run of name characters at the start of `s`. */
  function NameRun(s: string): (n: nat)
    ensures n <= |s|
    ensures forall i :: 0 <= i < n ==> IsNameChar(s[i])
    ensures n < |s| ==> !IsNameChar(s[n])
  {
    if s == [] || !IsNameChar(s[0]) then 0 else 1 + NameRun(s[1..])
  }

  /** A run of name characters followed by a non-name character (or nothing) is exactly that long. */
  lemma NameRunOf(n: string, rest: string)
    requires forall i :: 0 <= i < |n| ==> IsNameChar(n[i])
    requires rest == [] || !IsNameChar(rest[0])
    ensures NameRun(n + rest) == |n|
  {
    var s := n + rest;
    var r := NameRun(s);
    if rest != [] {
      assert s[|n|] == rest[0];
    }
  }

  /** The prefix before the username: the 22 characters of the profile URL (with any character for the dot), or a lone slash. */
  predicate ValidPrefix(pre: string)
  {
    pre == "/" || (|pre| == 22 && pre[..15] == "https://lichess" && pre[16..] == "org/@/")
  }

  /**
   * Where the username starts: after the URL prefix when the line begins
   * with it, after the slash when the line begins with a slash.  The two
   * exclude each other, so backtracking over the optional group does not
   * change the outcome.
   */
  function NameStart(line: string): (r: Option<nat>)
    ensures r.Some? ==> r.value <= |line| && ValidPrefix(line[..r.value])
  {
    if |line| >= 22 && line[..15] == "https://lichess" && line[16..22] == "org/@/" then
      assert line[..22][..15] == line[..15] && line[..22][16..] == line[16..22];
      Some(22)
    else if |line| >= 1 && line[0] == '/' then
      assert line[..1] == "/";
      Some(1)
    else None
  }

  lemma NameStartOf(pre: string, s: string)
    requires ValidPrefix(pre)
    ensures NameStart(pre + s) == Some(|pre|)
  {
    var line := pre + s;
    if pre != "/" {
      assert line[..15] == pre[..15] && line[16..22] == pre[16..];
    } else {
      assert line[0] == '/';
      assert |line| >= 22 ==> line[..15][0] == '/';
    }
  }

  /**
   * One line under the Current pattern: the name run must have 2 to 40
   * characters and be followed by the end of the line or a whitespace
   * character.  A longer run is not cut short: giving back characters would
   * leave a name character after the capture.
   */
  function ParseLine(line: string): (r: Option<string>)
    ensures r.Some? ==> ValidName(r.value)
  {
    match NameStart(line)
    case None => None
    case Some(p) =>
      var n := NameRun(line[p..]);
      if 2 <= n <= 40 && (p + n == |line| || IsWhiteSpace(line[p + n])) then
        assert forall i :: 0 <= i < n ==> line[p..p + n][i] == line[p..][i];
        Some(line[p..p + n])
      else None
  }

  /** What the Current pattern accepts: a prefix, a valid name, then the end of the line or whitespace. */
  predicate LineShape(line: string, n: string)
  {
    exists k, m :: 0 <= k <= m <= |line| && ValidPrefix(line[..k]) && n == line[k..m]
      && ValidName(n) && (m == |line| || IsWhiteSpace(line[m]))
  }

  /** Every accepted line has the shape, with the captured name in it. */
  lemma ParseLineSound(line: string)
    requires ParseLine(line).Some?
    ensures LineShape(line, ParseLine(line).value)
  {
    var p := NameStart(line).value;
    var n := NameRun(line[p..]);
    assert line[p..p + n] == ParseLine(line).value;
  }

  /** Every line of the shape is accepted, and its name is what is captured. */
  lemma ParseLineComplete(pre: string, n: string, rest: string)
    requires ValidPrefix(pre) && ValidName(n)
    requires rest == [] || IsWhiteSpace(rest[0])
    ensures ParseLine(pre + n + rest) == Some(n)
  {
    var line := pre + n + rest;
    assert line == pre + (n + rest);
    NameStartOf(pre, n + rest);
    assert line[|pre|..] == n + rest;
    NameRunOf(n, rest);
    assert line[|pre|..|pre| + |n|] == n;
    if rest != [] {
      assert line[|pre| + |n|] == rest[0];
    }
  }

  /** The result list of an import: `Match::from` of every captured name, in line order. */
  function Collect(lines: seq<string>): (ms: seq<Match>)
    ensures |ms| <= |lines|
  {
    if lines == [] then []
    else match ParseLine(lines[0])
      case Some(n) => [MatchFromName(n)] + Collect(lines[1..])
      case None => Collect(lines[1..])
  }

  /** "Load from clipboard" (Current): the matches of the accepted lines of the clipboard text. */
  function ParseClipboard(clip: string): seq<Match>
  {
    Collect(Lines.Lines(clip))
  }

  /** Lines that match are all kept, in order; lines that do not are dropped. */
  lemma {:induction false} CollectAcceptedOnly(lines: seq<string>, m: Match)
    ensures m in Collect(lines) <==>
      exists i :: 0 <= i < |lines| && ParseLine(lines[i]).Some? && m == MatchFromName(ParseLine(lines[i]).value)
  {
    if lines != [] {
      CollectAcceptedOnly(lines[1..], m);
      assert forall i :: 1 <= i < |lines| ==> lines[i] == lines[1..][i - 1];
      if exists i :: 0 <= i < |lines[1..]| && ParseLine(lines[1..][i]).Some?
                     && m == MatchFromName(ParseLine(lines[1..][i]).value) {
        var i :| 0 <= i < |lines[1..]| && ParseLine(lines[1..][i]).Some?
                 && m == MatchFromName(ParseLine(lines[1..][i]).value);
        assert lines[i + 1] == lines[1..][i];
      }
    }
  }

  /** "Copy": the saved names, each after a slash, one per line. */
  function CopyText(listing: seq<string>): string
  {
    Join(Slashed(listing), "\n")
  }

  function Slashed(listing: seq<string>): (r: seq<string>)
    ensures |r| == |listing|
    ensures forall i :: 0 <= i < |r| ==> r[i] == "/" + listing[i]
  {
    seq(|listing|, i requires 0 <= i < |listing| => "/" + listing[i])
  }

  /** `Match::from` of every name, in order: what "Show" puts in the results. */
  function MatchesOf(names: seq<string>): (ms: seq<Match>)
    ensures |ms| == |names|
    ensures forall i :: 0 <= i < |ms| ==> ms[i] == MatchFromName(names[i])
  {
    seq(|names|, i requires 0 <= i < |names| => MatchFromName(names[i]))
  }

  lemma {:induction false} CollectSlashed(listing: seq<string>)
    requires forall i :: 0 <= i < |listing| ==> ValidName(listing[i])
    ensures Collect(Slashed(listing)) == MatchesOf(listing)
  {
    if listing != [] {
      ParseLineComplete("/", listing[0], []);
      assert "/" + listing[0] + [] == "/" + listing[0];
      assert Slashed(listing)[1..] == Slashed(listing[1..]);
      CollectSlashed(listing[1..]);
      assert MatchesOf(listing) == [MatchFromName(listing[0])] + MatchesOf(listing[1..]);
    }
  }

  /**
   * Copying a set of valid usernames and importing the text again gives the
   * same results as "Show" on that set.
   */
  lemma CopyThenImport(listing: seq<string>)
    requires forall i :: 0 <= i < |listing| ==> ValidName(listing[i])
    ensures ParseClipboard(CopyText(listing)) == MatchesOf(listing)
  {
    var xs := Slashed(listing);
    forall k | 0 <= k < |xs|
      ensures '\n' !in xs[k] && xs[k][|xs[k]| - 1] != '\r'
    {
      assert xs[k] == "/" + listing[k];
      assert forall i :: 0 <= i < |xs[k]| ==> xs[k][i] == '/' || IsNameChar(xs[k][i]);
    }
    LinesJoin(xs);
    CollectSlashed(listing);
  }

  // The Legacy pattern ends in `\b`, a word boundary, rather than in the
  // end of the line or whitespace.

  /**
   * `\w` in a Unicode regex: ASCII letters, digits and `_` among ASCII
   * characters; beyond ASCII the Unicode tables decide, given here as
   * `unicodeWord`.
   */
  predicate IsWordChar(c: char, unicodeWord: char -> bool)
  {
    if c as int < 0x80 then ('a' <= c <= 'z') || ('A' <= c <= 'Z') || ('0' <= c <= '9') || c == '_'
    else unicodeWord(c)
  }

  /** `\b` at position `i`: exactly one of the characters on either side is a word character. */
  predicate Boundary(line: string, i: nat, unicodeWord: char -> bool)
    requires 0 < i <= |line|
  {
    IsWordChar(line[i - 1], unicodeWord) != (i < |line| && IsWordChar(line[i], unicodeWord))
  }

  /** The greedy repetition backtracking from `c` characters down to 2 until a word boundary follows. */
  function BoundaryCut(line: string, p: nat, c: nat, unicodeWord: char -> bool): (r: Option<nat>)
    requires p + c <= |line| && p > 0
    ensures r.Some? ==> 2 <= r.value <= c && Boundary(line, p + r.value, unicodeWord)
    ensures r.Some? ==> forall j :: p + r.value < j <= p + c ==> !Boundary(line, j, unicodeWord)
    ensures r.None? ==> forall j :: p + 2 <= j <= p + c ==> !Boundary(line, j, unicodeWord)
  {
    if c < 2 then None
    else if Boundary(line, p + c, unicodeWord) then Some(c)
    else BoundaryCut(line, p, c - 1, unicodeWord)
  }

  /** One line under the Legacy pattern: the longest name prefix of 2 to 30 characters that ends at a word boundary. */
  function LegacyParseLine(line: string, unicodeWord: char -> bool): (r: Option<string>)
    ensures r.Some? ==> 2 <= |r.value| <= 30 && forall i :: 0 <= i < |r.value| ==> IsNameChar(r.value[i])
  {
    match NameStart(line)
    case None => None
    case Some(p) =>
      if p == 0 then None
      else
        var n := NameRun(line[p..]);
        var most := Min(n, 30);
        assert most <= n;
        match BoundaryCut(line, p, most, unicodeWord)
        case None => None
        case Some(c) =>
          var name := line[p..p + c];
          assert forall i :: 0 <= i < c ==> name[i] == line[p..][i];
          Some(name)
  }

  /** "Load from clipboard" (Legacy). */
  function LegacyParseClipboard(clip: string, unicodeWord: char -> bool): seq<Match>
  {
    LegacyCollect(Lines.Lines(clip), unicodeWord)
  }

  function LegacyCollect(lines: seq<string>, unicodeWord: char -> bool): seq<Match>
  {
    if lines == [] then []
    else match LegacyParseLine(lines[0], unicodeWord)
      case Some(n) => [MatchFromName(n)] + LegacyCollect(lines[1..], unicodeWord)
      case None => LegacyCollect(lines[1..], unicodeWord)
  }

  /**
   * The versions part on a name ending in `-`: Current captures `ab-`,
   * Legacy backs off to `ab`, the last place a word boundary follows.
   */
  lemma TrailingHyphen(unicodeWord: char -> bool)
    ensures ParseLine("/ab-") == Some("ab-")
    ensures LegacyParseLine("/ab-", unicodeWord) == Some("ab")
  {
    assert "/" + "ab-" + [] == "/ab-";
    assert ParseLine("/ab-") == Some("ab-") by {
      ParseLineComplete("/", "ab-", []);
    }
    var line := "/ab-";
    assert NameStart(line) == Some(1) by {
      NameStartOf("/", "ab-");
    }
    assert NameRun(line[1..]) == 3 by {
      assert line[1..] == "ab-" + [];
      NameRunOf("ab-", []);
    }
    assert BoundaryCut(line, 1, 3, unicodeWord) == Some(2) by {
      assert !Boundary(line, 4, unicodeWord);
      assert Boundary(line, 3, unicodeWord);
    }
    assert line[1..3] == "ab";
  }

  /** For a name of word characters only, followed by the end of the line, both versions agree up to 30 characters. */
  lemma VersionsAgreeOnPlainNames(n: string, unicodeWord: char -> bool)
    requires 2 <= |n| <= 30
    requires forall i :: 0 <= i < |n| ==> IsNameChar(n[i]) && n[i] != '-'
    ensures ParseLine("/" + n) == Some(n)
    ensures LegacyParseLine("/" + n, unicodeWord) == Some(n)
  {
    ParseLineComplete("/", n, []);
    assert "/" + n + [] == "/" + n;
    NameStartOf("/", n);
    assert ("/" + n)[1..] == n + [];
    NameRunOf(n, []);
    assert ("/" + n)[|n|] == n[|n| - 1];
    assert Boundary("/" + n, 1 + |n|, unicodeWord);
  }
}
