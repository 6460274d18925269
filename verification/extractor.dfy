/**
 * The name extractor: which monthly game archives it downloads for a
 * variant and a month range, the output file it names, the player names it
 * takes from the `[White "…"]` and `[Black "…"]` tag lines, and the byte
 * counter that drives its progress output.  The download, the bzip2
 * decoder and the file writes are not part of this model.
 */
module Extractor {
  import opened Wrappers
  import opened Text
  import opened Replace
  import Lines

  /** The variant argument of `download`. */
  datatype Variant = All | Standard | Exotic | Antichess | Atomic | Chess960 | Horde | Koth | ThreeCheck | Racing | Zh

  const EXOTIC_NAMES: seq<string> :=
    ["antichess", "atomic", "chess960", "horde", "kingOfTheHill", "threeCheck", "racingKings", "crazyhouse"]

  /** `Variant::names`: the archive names a variant argument stands for. */
  function Names(v: Variant): (r: seq<string>)
    ensures v != All && v != Exotic ==> |r| == 1
    ensures forall i :: 0 <= i < |r| ==> r[i] != []
  {
    match v
    case All => ["standard"] + EXOTIC_NAMES
    case Standard => ["standard"]
    case Exotic => EXOTIC_NAMES
    case Antichess => ["antichess"]
    case Atomic => ["atomic"]
    case Chess960 => ["chess960"]
    case Horde => ["horde"]
    case Koth => ["kingOfTheHill"]
    case ThreeCheck => ["threeCheck"]
    case Racing => ["racingKings"]
    case Zh => ["crazyhouse"]
  }

  /** "all" is the standard archive followed by the exotic ones, and no archive name repeats. */
  lemma AllIsStandardThenExotic()
    ensures Names(All) == ["standard"] + Names(Exotic)
    ensures forall i, j :: 0 <= i < j < |Names(All)| ==> Names(All)[i] != Names(All)[j]
  {
  }

  /** A month of the archive: year and month number. */
  datatype Month = Month(year: nat, month: nat)

  /** One archive to download. */
  datatype Download = Download(variant: string, when: Month)

  /** The months `a <= m < b` of year `y`, in order (Rust's `a..b`; `a..=b` is `Months(y, a, b + 1)`). */
  function Months(y: nat, a: nat, b: nat): (r: seq<Month>)
    ensures |r| == if b <= a then 0 else b - a
  {
    if b <= a then [] else Months(y, a, b - 1) + [Month(y, b - 1)]
  }

  /** All twelve months of the years `a <= y < b`, in order. */
  function Years(a: nat, b: nat): (r: seq<Month>)
    ensures |r| == if b <= a then 0 else 12 * (b - a)
  {
    if b <= a then [] else Years(a, b - 1) + Months(b - 1, 1, 13)
  }

  /**
   * The months `download` fetches for one archive name: the one month
   * given, or, with an end month, the months of the three loops in
   * `main` (the first year from `month`, the years in between, the last
   * year up to `month_to`), or `month..=month_to` within a single year.
   */
  function MonthsOf(year: nat, month: nat, yearTo: Option<nat>, monthTo: Option<nat>): seq<Month>
  {
    if yearTo.Some? && monthTo.Some? then
      if year == yearTo.value then Months(year, month, monthTo.value + 1)
      else Months(year, month, 13) + Years(year + 1, yearTo.value) + Months(yearTo.value, 1, monthTo.value + 1)
    else [Month(year, month)]
  }

  /** The month `k` months after January of year 0. */
  function MonthOf(k: nat): (m: Month)
    ensures 1 <= m.month <= 12
  {
    Month(k / 12, k % 12 + 1)
  }

  /** The reference order: `count` consecutive calendar months from month number `start`. */
  function Chrono(start: nat, count: nat): (r: seq<Month>)
    ensures |r| == count
    ensures forall i :: 0 <= i < count ==> r[i] == MonthOf(start + i)
  {
    seq(count, i requires 0 <= i < count => MonthOf(start + i))
  }

  lemma MonthOfCalendar(y: nat, m: nat)
    requires 1 <= m <= 12
    ensures MonthOf(12 * y + m - 1) == Month(y, m)
  {
    var k := 12 * y + m - 1;
    assert k / 12 == y && k % 12 == m - 1 by {
      assert 0 <= m - 1 < 12;
    }
  }

  lemma ChronoAppend(s: nat, c1: nat, c2: nat)
    ensures Chrono(s, c1) + Chrono(s + c1, c2) == Chrono(s, c1 + c2)
  {
  }

  lemma {:induction false} MonthsChrono(y: nat, a: nat, b: nat)
    requires 1 <= a <= b <= 13
    ensures Months(y, a, b) == Chrono(12 * y + a - 1, b - a)
  {
    if a < b {
      MonthsChrono(y, a, b - 1);
      MonthOfCalendar(y, b - 1);
      ChronoAppend(12 * y + a - 1, b - 1 - a, 1);
    }
  }

  lemma {:induction false} YearsChrono(a: nat, b: nat)
    requires a <= b
    ensures Years(a, b) == Chrono(12 * a, 12 * (b - a))
  {
    if a < b {
      YearsChrono(a, b - 1);
      MonthsChrono(b - 1, 1, 13);
      ChronoAppend(12 * a, 12 * (b - 1 - a), 12);
    }
  }

  /** The three loops of a range over several years give consecutive calendar months. */
  lemma {:induction false} SeveralYearsChrono(year: nat, month: nat, yearTo: nat, monthTo: nat)
    requires 1 <= month <= 12 && 1 <= monthTo <= 12 && year < yearTo
    ensures Months(year, month, 13) + Years(year + 1, yearTo) + Months(yearTo, 1, monthTo + 1)
      == Chrono(12 * year + month - 1, 12 * (yearTo - year) + monthTo - month + 1)
  {
    var s := 12 * year + month - 1;
    var c1 := 13 - month;
    var d := yearTo - year - 1;
    var c2 := 12 * d;
    assert s + c1 == 12 * (year + 1);
    assert 12 * (yearTo - (year + 1)) == c2;
    assert s + c1 + c2 == 12 * yearTo;
    assert 12 * (yearTo - year) == c2 + 12;
    MonthsChrono(year, month, 13);
    YearsChrono(year + 1, yearTo);
    MonthsChrono(yearTo, 1, monthTo + 1);
    ChronoAppend(s, c1, c2);
    ChronoAppend(s, c1 + c2, monthTo);
  }

  /**
   * For a range within one year, or from an earlier year to a later one,
   * with month numbers 1 to 12, the downloads are exactly the calendar
   * months from the first to the last, both included, in order.
   */
  lemma MonthRangeIsChronological(year: nat, month: nat, yearTo: nat, monthTo: nat)
    requires 1 <= month <= 12 && 1 <= monthTo <= 12
    requires year < yearTo || (year == yearTo && month <= monthTo)
    ensures MonthsOf(year, month, Some(yearTo), Some(monthTo))
      == Chrono(12 * year + month - 1, 12 * (yearTo - year) + monthTo - month + 1)
  {
    if year == yearTo {
      MonthsChrono(year, month, monthTo + 1);
    } else {
      SeveralYearsChrono(year, month, yearTo, monthTo);
    }
  }

  /** Without an end month there is exactly one download per archive name. */
  lemma SingleMonth(year: nat, month: nat, yearTo: Option<nat>, monthTo: Option<nat>)
    requires yearTo.None? || monthTo.None?
    ensures MonthsOf(year, month, yearTo, monthTo) == [Month(year, month)]
  {
  }

  /** The loops of `main` for one archive name. */
  method DownloadMonths(year: nat, month: nat, yearTo: Option<nat>, monthTo: Option<nat>) returns (ms: seq<Month>)
    ensures ms == MonthsOf(year, month, yearTo, monthTo)
  {
    if yearTo.Some? && monthTo.Some? {
      var yt, mt := yearTo.value, monthTo.value;
      if year == yt {
        ms := MonthLoop(year, month, mt + 1, []);
      } else {
        ms := MonthLoop(year, month, 13, []);
        ms := YearLoop(year + 1, yt, ms);
        ms := MonthLoop(yt, 1, mt + 1, ms);
        assert [] + Months(year, month, 13) == Months(year, month, 13);
      }
    } else {
      ms := [Month(year, month)];
    }
  }

  /** `for y in a..b`, appending the twelve months of each year `y` to `ms`. */
  method YearLoop(a: nat, b: nat, ms: seq<Month>) returns (r: seq<Month>)
    ensures r == ms + Years(a, b)
  {
    r := ms;
    var y := a;
    while y < b
      invariant a <= y && (y <= b || y == a)
      invariant r == ms + Years(a, y)
    {
      r := MonthLoop(y, 1, 13, r);
      assert (ms + Years(a, y)) + Months(y, 1, 13) == ms + (Years(a, y) + Months(y, 1, 13));
      y := y + 1;
    }
    assert Years(a, y) == Years(a, b);
  }

  /** `for m in a..b`, appending each month of year `y` to `ms`. */
  method MonthLoop(y: nat, a: nat, b: nat, ms: seq<Month>) returns (r: seq<Month>)
    ensures r == ms + Months(y, a, b)
  {
    r := ms;
    if b <= a {
      return;
    }
    var m := a;
    while m < b
      invariant a <= m <= b
      invariant r == ms + Months(y, a, m)
    {
      r := r + [Month(y, m)];
      m := m + 1;
    }
  }

  /** The downloads of archive `name` for the months `ms`. */
  function Tag(name: string, ms: seq<Month>): (r: seq<Download>)
    ensures |r| == |ms|
    ensures forall i :: 0 <= i < |ms| ==> r[i] == Download(name, ms[i])
  {
    seq(|ms|, i requires 0 <= i < |ms| => Download(name, ms[i]))
  }

  /** The downloads for every archive name in turn, each for every month. */
  function Plan(names: seq<string>, ms: seq<Month>): seq<Download>
  {
    if names == [] then [] else Tag(names[0], ms) + Plan(names[1..], ms)
  }

  /** The plan has one download per archive name and month, and nothing else. */
  lemma {:induction false} PlanContents(names: seq<string>, ms: seq<Month>, d: Download)
    ensures |Plan(names, ms)| == |names| * |ms|
    ensures d in Plan(names, ms) <==> d.variant in names && d.when in ms
  {
    if names != [] {
      PlanContents(names[1..], ms, d);
      assert names == [names[0]] + names[1..];
      assert d in Tag(names[0], ms) <==> d.variant == names[0] && d.when in ms by {
        if d.variant == names[0] && d.when in ms {
          var i :| 0 <= i < |ms| && ms[i] == d.when;
          assert Tag(names[0], ms)[i] == d;
        }
      }
    }
  }

  /** The `download` command: the month loops for every archive name of the variant. */
  method Downloads(v: Variant, year: nat, month: nat, yearTo: Option<nat>, monthTo: Option<nat>) returns (calls: seq<Download>)
    ensures calls == Plan(Names(v), MonthsOf(year, month, yearTo, monthTo))
  {
    calls := DownloadEach(Names(v), year, month, yearTo, monthTo);
  }

  /** The loop over the archive names, running the month loops for each. */
  method DownloadEach(names: seq<string>, year: nat, month: nat, yearTo: Option<nat>, monthTo: Option<nat>) returns (calls: seq<Download>)
    ensures calls == Plan(names, MonthsOf(year, month, yearTo, monthTo))
  {
    calls := [];
    ghost var ms := MonthsOf(year, month, yearTo, monthTo);
    for i := 0 to |names|
      invariant calls + Plan(names[i..], ms) == Plan(names, ms)
    {
      assert names[i..][1..] == names[i + 1..];
      var months := DownloadMonths(year, month, yearTo, monthTo);
      assert calls + Tag(names[i], months) + Plan(names[i + 1..], ms) == calls + (Tag(names[i], months) + Plan(names[i + 1..], ms));
      calls := calls + Tag(names[i], months);
    }
    assert names[|names|..] == [];
    assert calls + [] == calls;
  }

  /** The archive file name of a month (the last part of the download URL). */
  function ArchiveName(v: string, y: nat, m: nat): string
  {
    "lichess_db_" + v + "_rated_" + Decimal(y) + "-" + Pad2(m) + ".pgn.bz2"
  }

  /** The URL `run_download` fetches. */
  function DownloadUrl(v: string, y: nat, m: nat): (url: string)
    ensures url == "https://database.lichess.org/" + v + "/" + ArchiveName(v, y, m)
  {
    "https://database.lichess.org/" + v + "/" + ArchiveName(v, y, m)
  }

  /** The output file of `run_download`. */
  function DownloadOutfile(v: string, y: nat, m: nat): string
  {
    "names-" + v + "-" + Decimal(y) + "-" + Pad2(m) + ".txt"
  }

  /** The output file of `extract`: three replacements on the archive path. */
  function ExtractOutfile(file: string): string
  {
    ReplaceStr(ReplaceStr(ReplaceStr(file, ".pgn.bz2", ".txt"), "lichess_db_", "names-"), "_rated_", "-")
  }

  lemma NoCharInDigits(s: string, c: char)
    requires forall i :: 0 <= i < |s| ==> IsDigit(s[i])
    requires !IsDigit(c)
    ensures c !in s
  {
  }

  /** No `.`, `_` or `b` anywhere in `v`. */
  predicate PlainName(v: string)
  {
    forall i :: 0 <= i < |v| ==> v[i] != '.' && v[i] != '_' && v[i] != 'b'
  }

  lemma FirstNamesPlain(v: string)
    requires v == "standard" || v == "antichess" || v == "atomic" || v == "chess960"
    ensures PlainName(v)
  {
  }

  lemma LastNamesPlain(v: string)
    requires v == "horde" || v == "kingOfTheHill" || v == "threeCheck" || v == "racingKings" || v == "crazyhouse"
    ensures PlainName(v)
  {
  }

  /** No archive name contains `.`, `_` or `b`, the characters the proof of the round trip looks for. */
  lemma ArchiveNamesPlain(v: string)
    requires v in Names(All)
    ensures '.' !in v && '_' !in v && 'b' !in v
  {
    var k :| 0 <= k < |Names(All)| && Names(All)[k] == v;
    if k < 4 { FirstNamesPlain(v); } else { LastNamesPlain(v); }
  }

  /** A pattern that ends the string, and starts nowhere before, is replaced there. */
  lemma ReplaceSuffix(x: string, pat: string, t: string)
    requires pat != [] && pat[0] !in x
    ensures ReplaceStr(x + pat, pat, t) == x + t
  {
    ReplaceStrSkip(x, pat, pat, t);
    ReplaceStrAtStart(pat, [], t);
    assert pat + [] == pat;
  }

  /** A pattern that starts the string, with a character the rest lacks, is replaced only there. */
  lemma ReplaceMiddle(x: string, pat: string, rest: string, t: string, c: char)
    requires pat != [] && pat[0] !in x && c in pat && c !in rest
    ensures ReplaceStr(x + (pat + rest), pat, t) == x + (t + rest)
  {
    ReplaceStrSkip(x, pat + rest, pat, t);
    ReplaceStrAtStart(pat, rest, t);
    ReplaceStrAbsent(rest, pat, t, c);
  }

  /**
   * Extracting a downloaded archive writes to the file a download writes
   * to: the `extract` rules turn the archive name of a month into the
   * output name of `download` for that month.
   */
  lemma ExtractNamesDownloadOutfile(v: string, y: nat, m: nat)
    requires v in Names(All)
    ensures ExtractOutfile(ArchiveName(v, y, m)) == DownloadOutfile(v, y, m)
  {
    ArchiveNamesPlain(v);
    var d, p := Decimal(y), Pad2(m);
    NoCharInDigits(d, '.');
    NoCharInDigits(p, '.');
    NoCharInDigits(d, '_');
    NoCharInDigits(p, '_');
    NoCharInDigits(d, 'b');
    NoCharInDigits(p, 'b');
    var date := d + "-" + p;
    Regroup2("lichess_db_", v, "_rated_", d, "-", p, ".pgn.bz2");
    ExtractRules(v, date);
    Regroup("names-", v, "-", d, "-", p, ".txt");
  }

  /**
   * The file a download URL names, after its last `/`, is the archive
   * name, which `extract` maps to the file that download writes.
   */
  lemma DownloadUrlArchive(v: string, y: nat, m: nat)
    requires v in Names(All)
    ensures var url, a := DownloadUrl(v, y, m), ArchiveName(v, y, m);
      |a| < |url| && url[|url| - |a| - 1] == '/' && url[|url| - |a|..] == a
      && ExtractOutfile(url[|url| - |a|..]) == DownloadOutfile(v, y, m)
  {
    LastSegment("https://database.lichess.org/" + v, ArchiveName(v, y, m));
    ExtractNamesDownloadOutfile(v, y, m);
  }

  /** After `h + "/"`, the rest of the string is `a`. */
  lemma LastSegment(h: string, a: string)
    ensures var s := h + "/" + a;
      |a| < |s| && s[|s| - |a| - 1] == '/' && s[|s| - |a|..] == a
  {
    var s := h + "/" + a;
    assert s[|h| + 1..] == a;
  }

  /** The three rules on an archive name whose parts lack `.`, `_` and `b`. */
  lemma ExtractRules(v: string, date: string)
    requires '.' !in v && '_' !in v && 'b' !in v
    requires '.' !in date && '_' !in date && 'b' !in date
    ensures ExtractOutfile(("lichess_db_" + (v + "_rated_" + date)) + ".pgn.bz2")
      == ("names-" + v) + ("-" + (date + ".txt"))
  {
    var body := v + "_rated_" + date;
    var s1 := ReplaceStr(("lichess_db_" + body) + ".pgn.bz2", ".pgn.bz2", ".txt");
    assert s1 == [] + ("lichess_db_" + (body + ".txt")) by {
      assert '.' !in "lichess_db_" + body;
      ReplaceSuffix("lichess_db_" + body, ".pgn.bz2", ".txt");
      assert ("lichess_db_" + body) + ".txt" == [] + ("lichess_db_" + (body + ".txt"));
    }
    var s2 := ReplaceStr(s1, "lichess_db_", "names-");
    assert s2 == ("names-" + v) + ("_rated_" + (date + ".txt")) by {
      assert 'b' !in body + ".txt";
      ReplaceMiddle([], "lichess_db_", body + ".txt", "names-", 'b');
      assert [] + ("names-" + (body + ".txt")) == ("names-" + v) + ("_rated_" + (date + ".txt"));
    }
    assert ReplaceStr(s2, "_rated_", "-") == ("names-" + v) + ("-" + (date + ".txt")) by {
      assert '_' !in "names-" + v && '_' !in date + ".txt";
      ReplaceMiddle("names-" + v, "_rated_", date + ".txt", "-", '_');
    }
    assert "lichess_db_" + (v + "_rated_" + date) == "lichess_db_" + body;
  }

  lemma Regroup2(a: string, b: string, c: string, d: string, e: string, f: string, g: string)
    ensures a + b + c + d + e + f + g == (a + (b + c + (d + e + f))) + g
  {
  }

  lemma Regroup(a: string, b: string, c: string, d: string, e: string, f: string, g: string)
    ensures (a + b) + (c + ((d + e + f) + g)) == a + b + c + d + e + f + g
  {
  }

  /** What one line of a game archive gives. */
  datatype LineOutcome = Skip | Name(name: string) | Panic

  /**
   * A tag line `[White …` or `[Black …` gives its bytes from 8 to two
   * before the end; a line too short for that, or cut inside a character,
   * panics; any other line gives nothing.
   */
  function ExtractName(line: string): (r: LineOutcome)
    ensures !StartsWith(line, "[White ") && !StartsWith(line, "[Black ") <==> r == Skip
  {
    if StartsWith(line, "[White ") || StartsWith(line, "[Black ") then
      assert Utf8Len(line) >= |line| >= 7;
      match ByteSlice(line, 8, Utf8Len(line) - 2)
      case None => Panic
      case Some(n) => Name(n)
    else Skip
  }

  lemma TagLength(tag: string, x: string)
    requires tag == "[White \"" || tag == "[Black \""
    ensures Utf8Len(tag + x + "\"]") == 8 + Utf8Len(x) + 2
    ensures Utf8Len(tag) == 8
  {
    Utf8LenAscii(tag);
    Utf8LenAscii("\"]");
    Utf8LenAppend(tag, x);
    Utf8LenAppend(tag + x, "\"]");
  }

  /** A well-formed tag line gives the quoted name. */
  lemma ExtractsQuotedName(tag: string, x: string)
    requires tag == "[White \"" || tag == "[Black \""
    ensures ExtractName(tag + x + "\"]") == Name(x)
  {
    var line := tag + x + "\"]";
    assert StartsWith(line, "[White ") || StartsWith(line, "[Black ") by {
      assert line[..7] == tag[..7];
    }
    assert Utf8Len(line) == 10 + Utf8Len(x) by {
      TagLength(tag, x);
    }
    assert ByteSlice(line, 8, 8 + Utf8Len(x)) == Some(x) by {
      TagLength(tag, x);
      ByteSliceMiddle(line, tag, x, "\"]", 8, 8 + Utf8Len(x));
    }
    TagLineName(line, x);
  }

  /** A tag line whose slice from byte 8 to two before the end is defined gives that slice. */
  lemma TagLineName(line: string, n: string)
    requires StartsWith(line, "[White ") || StartsWith(line, "[Black ")
    requires Utf8Len(line) >= 10 && ByteSlice(line, 8, Utf8Len(line) - 2) == Some(n)
    ensures ExtractName(line) == Name(n)
  {
  }

  /** A tag line of fewer than 10 bytes panics. */
  lemma ShortTagLinePanics(line: string)
    requires StartsWith(line, "[White ") || StartsWith(line, "[Black ")
    requires Utf8Len(line) < 10
    ensures ExtractName(line) == Panic
  {
  }

  /** The names of the line outcomes, as a set, or nothing when one of them is a panic. */
  function Gather(outs: seq<LineOutcome>): (r: Option<set<string>>)
  {
    if outs == [] then Some({})
    else match (outs[0], Gather(outs[1..]))
      case (Panic, _) => None
      case (_, None) => None
      case (Skip, Some(ns)) => Some(ns)
      case (Name(n), Some(ns)) => Some({n} + ns)
  }

  /** The names of the lines, as a set, or nothing when a line panics. */
  function NamesIn(lines: seq<string>): (r: Option<set<string>>)
  {
    Gather(seq(|lines|, i requires 0 <= i < |lines| => ExtractName(lines[i])))
  }

  /** The loop of `run` over the decoded lines, inserting each name into a set. */
  method CollectNames(lines: seq<string>) returns (r: Option<set<string>>)
    ensures r.Some? <==> forall i :: 0 <= i < |lines| ==> ExtractName(lines[i]) != Panic
    ensures r.Some? ==> forall n :: n in r.value <==> exists i :: 0 <= i < |lines| && ExtractName(lines[i]) == Name(n)
  {
    var names: set<string> := {};
    for k := 0 to |lines|
      invariant forall i :: 0 <= i < k ==> ExtractName(lines[i]) != Panic
      invariant forall n :: n in names <==> exists i :: 0 <= i < k && ExtractName(lines[i]) == Name(n)
    {
      match ExtractName(lines[k]) {
        case Panic =>
          return None;
        case Skip =>
        case Name(n) =>
          names := names + {n};
      }
    }
    return Some(names);
  }

  /** A panic anywhere gives nothing; otherwise the set holds exactly the names. */
  lemma {:induction false} GatherMembers(outs: seq<LineOutcome>)
    ensures Gather(outs).Some? <==> forall i :: 0 <= i < |outs| ==> outs[i] != Panic
    ensures Gather(outs).Some? ==>
      forall n :: n in Gather(outs).value <==> exists i :: 0 <= i < |outs| && outs[i] == Name(n)
  {
    if outs != [] {
      var t := outs[1..];
      GatherMembers(t);
      assert forall i :: 1 <= i < |outs| ==> t[i - 1] == outs[i];
      if Gather(outs).Some? {
        var ns := Gather(t).value;
        forall n
          ensures n in Gather(outs).value <==> exists i :: 0 <= i < |outs| && outs[i] == Name(n)
        {
          if n in ns {
            var j :| 0 <= j < |t| && t[j] == Name(n);
            assert outs[j + 1] == Name(n);
          }
          if exists i :: 1 <= i < |outs| && outs[i] == Name(n) {
            var i :| 1 <= i < |outs| && outs[i] == Name(n);
            assert t[i - 1] == Name(n);
          }
        }
      }
    }
  }

  /** The names come out as `NamesIn` says. */
  lemma NamesInMembers(lines: seq<string>)
    ensures NamesIn(lines).Some? <==> forall i :: 0 <= i < |lines| ==> ExtractName(lines[i]) != Panic
    ensures NamesIn(lines).Some? ==>
      forall n :: n in NamesIn(lines).value <==> exists i :: 0 <= i < |lines| && ExtractName(lines[i]) == Name(n)
  {
    var outs := seq(|lines|, i requires 0 <= i < |lines| => ExtractName(lines[i]));
    GatherMembers(outs);
    assert forall i :: 0 <= i < |lines| ==> outs[i] == ExtractName(lines[i]);
  }

  /** The output of `run`: each name of the set on its own line, in the order the set is walked. */
  function Written(listing: seq<string>): (text: string)
  {
    if listing == [] then [] else listing[0] + "\n" + Written(listing[1..])
  }

  /**
   * The output read back line by line, as the search application loads it,
   * gives the listing, as long as no name holds a `\n` or ends in `\r`.
   */
  lemma {:induction false} WrittenLines(listing: seq<string>)
    requires forall k :: 0 <= k < |listing| ==> '\n' !in listing[k] && (listing[k] == [] || listing[k][|listing[k]| - 1] != '\r')
    ensures Lines.Lines(Written(listing)) == listing
  {
    if listing != [] {
      Lines.LinesCons(listing[0], Written(listing[1..]));
      WrittenLines(listing[1..]);
    }
  }

  /** Every name of the set is written exactly once. */
  lemma {:induction false} WrittenOnce(listing: seq<string>, names: set<string>, n: string)
    requires forall x :: x in listing <==> x in names
    requires forall i, j :: 0 <= i < j < |listing| ==> listing[i] != listing[j]
    ensures multiset(listing)[n] == if n in names then 1 else 0
  {
    if listing != [] {
      var rest := listing[1..];
      assert listing == [listing[0]] + rest;
      forall k | 0 <= k < |rest|
        ensures rest[k] != listing[0]
      {
        assert rest[k] == listing[k + 1];
      }
      var others := names - {listing[0]};
      assert forall x :: x in rest <==> x in others by {
        forall x
          ensures x in rest <==> x in others
        {
          if x in rest {
            var k :| 0 <= k < |rest| && rest[k] == x;
            assert listing[k + 1] == x;
          }
          if x in others {
            var k :| 0 <= k < |listing| && listing[k] == x;
            assert rest[k - 1] == x;
          }
        }
      }
      assert forall i, j :: 0 <= i < j < |rest| ==> rest[i] != rest[j] by {
        forall i, j | 0 <= i < j < |rest|
          ensures rest[i] != rest[j]
        {
          assert rest[i] == listing[i + 1] && rest[j] == listing[j + 1];
        }
      }
      WrittenOnce(rest, others, n);
    }
  }

  /**
   * The counter in the callback of `run`: bytes read so far, the next
   * threshold, and the byte counts at which a progress line was printed.
   */
  class ProgressCounter {
    var step: nat
    var progress: nat
    var next: nat
    var reports: seq<nat>

    /** Thresholds lie `step` apart, each report was past the threshold of its turn, and reports never decrease. */
    predicate Valid()
      reads this
    {
      next == step * (|reports| + 1)
      && (forall i :: 0 <= i < |reports| ==> reports[i] > step * (i + 1) && reports[i] <= progress)
      && (forall i, j :: 0 <= i < j < |reports| ==> reports[i] <= reports[j])
    }

    /** `progress_step * 1_000_000` bytes between lines; nothing read yet. */
    constructor (progressStep: nat)
      ensures step == progressStep * 1_000_000 && progress == 0 && next == step && reports == []
      ensures Valid()
    {
      step := progressStep * 1_000_000;
      progress := 0;
      next := progressStep * 1_000_000;
      reports := [];
    }

    /** The callback: count the bytes; past the threshold, print once and move the threshold one step. */
    method Count(p: nat)
      requires Valid()
      modifies this
      ensures Valid()
      ensures progress == old(progress) + p && step == old(step)
      ensures old(progress) + p > old(next) ==> reports == old(reports) + [progress] && next == old(next) + step
      ensures old(progress) + p <= old(next) ==> reports == old(reports) && next == old(next)
    {
      progress := progress + p;
      if progress > next {
        reports := reports + [progress];
        next := next + step;
      }
    }
  }

  /** `ProgressReader::read`: pass the inner read on; a successful read first reports its byte count. */
  method ReadThrough(inner: Result<nat, IoError>, counter: ProgressCounter) returns (r: Result<nat, IoError>)
    requires counter.Valid()
    modifies counter
    ensures r == inner
    ensures counter.Valid()
    ensures counter.step == old(counter.step)
    ensures inner.Err? ==>
      counter.progress == old(counter.progress) && counter.reports == old(counter.reports)
      && counter.next == old(counter.next)
    ensures inner.Ok? ==> counter.progress == old(counter.progress) + inner.value
    ensures inner.Ok? && old(counter.progress) + inner.value > old(counter.next) ==>
      counter.reports == old(counter.reports) + [counter.progress] && counter.next == old(counter.next) + counter.step
    ensures inner.Ok? && old(counter.progress) + inner.value <= old(counter.next) ==>
      counter.reports == old(counter.reports) && counter.next == old(counter.next)
  {
    if inner.Err? {
      return inner;
    }
    counter.Count(inner.value);
    r := inner;
  }
}
