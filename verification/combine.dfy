/**
 * The list combiner: checks its arguments, reads every input file as
 * text, keeps the set of stripped non-empty lines, and writes that set in
 * code-point order, one name per line.  Reading files is a parameter; the
 * text decoding is not part of this model.
 */
module Combine {
  import opened Text

  /** Python's string order: lexicographic on code points, a proper prefix first. */
  predicate StrLt(a: string, b: string)
    decreases |a|
  {
    if a == [] then b != []
    else b != [] && (a[0] < b[0] || (a[0] == b[0] && StrLt(a[1..], b[1..])))
  }

  lemma {:induction false} StrLtIrreflexive(a: string)
    ensures !StrLt(a, a)
  {
    if a != [] {
      StrLtIrreflexive(a[1..]);
    }
  }

  lemma {:induction false} StrLtTrans(a: string, b: string, c: string)
    requires StrLt(a, b) && StrLt(b, c)
    ensures StrLt(a, c)
  {
    if a != [] && a[0] == b[0] && b[0] == c[0] {
      StrLtTrans(a[1..], b[1..], c[1..]);
    }
  }

  lemma {:induction false} StrLtTotal(a: string, b: string)
    ensures a == b || StrLt(a, b) || StrLt(b, a)
  {
    if a != [] && b != [] && a[0] == b[0] {
      StrLtTotal(a[1..], b[1..]);
      if a[1..] == b[1..] {
        assert a == [a[0]] + a[1..] && b == [b[0]] + b[1..];
      }
    }
  }

  /** In strictly ascending order, so without repeats. */
  predicate Ascending(r: seq<string>)
  {
    forall i, j :: 0 <= i < j < |r| ==> StrLt(r[i], r[j])
  }

  /** Where `x` goes in an ascending list. */
  function InsertName(x: string, r: seq<string>): (q: seq<string>)
    ensures |q| == |r| + 1
    ensures forall n :: n in q <==> n == x || n in r
  {
    if r == [] then [x]
    else if StrLt(x, r[0]) then [x] + r
    else [r[0]] + InsertName(x, r[1..])
  }

  /** Inserting a new name keeps the list ascending. */
  lemma {:induction false} InsertNameAscending(x: string, r: seq<string>)
    requires Ascending(r) && x !in r
    ensures Ascending(InsertName(x, r))
  {
    if r == [] {
    } else if StrLt(x, r[0]) {
      forall j | 0 < j < |r|
        ensures StrLt(x, r[j])
      {
        StrLtTrans(x, r[0], r[j]);
      }
      var q := [x] + r;
      forall i, j | 0 <= i < j < |q|
        ensures StrLt(q[i], q[j])
      {
        if i > 0 {
          assert q[i] == r[i - 1] && q[j] == r[j - 1];
        } else {
          assert q[j] == r[j - 1];
        }
      }
    } else {
      StrLtTotal(x, r[0]);
      assert x != r[0];
      assert StrLt(r[0], x);
      assert Ascending(r[1..]) by {
        forall i, j | 0 <= i < j < |r[1..]|
          ensures StrLt(r[1..][i], r[1..][j])
        {
          assert r[1..][i] == r[i + 1] && r[1..][j] == r[j + 1];
        }
      }
      assert x !in r[1..];
      InsertNameAscending(x, r[1..]);
      var tail := InsertName(x, r[1..]);
      forall n | n in tail
        ensures StrLt(r[0], n)
      {
        if n != x {
          var k :| 0 < k < |r| && r[k] == n by {
            assert n in r[1..];
            var k' :| 0 <= k' < |r[1..]| && r[1..][k'] == n;
            assert r[k' + 1] == n;
          }
        }
      }
      var q := [r[0]] + tail;
      forall i, j | 0 <= i < j < |q|
        ensures StrLt(q[i], q[j])
      {
        if i > 0 {
          assert q[i] == tail[i - 1] && q[j] == tail[j - 1];
        } else {
          assert q[j] == tail[j - 1];
          assert tail[j - 1] in tail;
        }
      }
    }
  }

  /** `sorted(combined)`: the names of a set in ascending order. */
  method SortNames(names: set<string>) returns (r: seq<string>)
    ensures Ascending(r)
    ensures forall n :: n in r <==> n in names
  {
    r := [];
    var rest := names;
    while rest != {}
      invariant rest <= names
      invariant Ascending(r)
      invariant forall n :: n in r <==> n in names && n !in rest
      decreases |rest|
    {
      var x :| x in rest;
      InsertNameAscending(x, r);
      r := InsertName(x, r);
      rest := rest - {x};
    }
  }

  /** An ascending list holds each of its names once. */
  lemma {:induction false} AscendingOnce(r: seq<string>, n: string)
    requires Ascending(r)
    ensures multiset(r)[n] == if n in r then 1 else 0
  {
    if r != [] {
      assert Ascending(r[1..]) by {
        forall i, j | 0 <= i < j < |r[1..]|
          ensures StrLt(r[1..][i], r[1..][j])
        {
          assert r[1..][i] == r[i + 1] && r[1..][j] == r[j + 1];
        }
      }
      AscendingOnce(r[1..], n);
      assert r == [r[0]] + r[1..];
      forall k | 0 <= k < |r[1..]|
        ensures r[1..][k] != r[0]
      {
        assert r[1..][k] == r[k + 1];
        StrLtIrreflexive(r[0]);
      }
    }
  }

  /** The end of the first line: the first `\n` or `\r`, or the end of the text. */
  function LineEnd(s: string): (i: nat)
    ensures i <= |s| && (i < |s| ==> s[i] == '\n' || s[i] == '\r')
    ensures forall k :: 0 <= k < i ==> s[k] != '\n' && s[k] != '\r'
  {
    if s == [] || s[0] == '\n' || s[0] == '\r' then 0 else 1 + LineEnd(s[1..])
  }

  /** The lines of a file opened in text mode: `\n`, `\r` and `\r\n` each end a line. */
  function PyLines(s: string): (ls: seq<string>)
    ensures forall i :: 0 <= i < |ls| ==> '\n' !in ls[i] && '\r' !in ls[i]
    decreases |s|
  {
    if s == [] then []
    else
      var i := LineEnd(s);
      if i == |s| then [s]
      else if s[i] == '\r' && i + 1 < |s| && s[i + 1] == '\n' then [s[..i]] + PyLines(s[i + 2..])
      else [s[..i]] + PyLines(s[i + 1..])
  }

  /** The name a line gives: the line stripped, unless that leaves nothing. */
  function NameOf(line: string): set<string>
  {
    if Strip(line) == [] then {} else {Strip(line)}
  }

  /** The stripped non-empty lines of one text, read in order. */
  function NamesIn(lines: seq<string>): set<string>
  {
    if lines == [] then {} else NamesIn(lines[..|lines| - 1]) + NameOf(lines[|lines| - 1])
  }

  /** A name comes from a text exactly when some line strips to it. */
  lemma {:induction false} NamesInMembers(lines: seq<string>, n: string)
    ensures n in NamesIn(lines) <==> exists l :: l in lines && Strip(l) == n && n != []
  {
    if lines != [] {
      var init, last := lines[..|lines| - 1], lines[|lines| - 1];
      NamesInMembers(init, n);
      assert lines == init + [last];
      if exists l :: l in lines && Strip(l) == n && n != [] {
        var l :| l in lines && Strip(l) == n && n != [];
        if l != last {
          assert l in init;
        }
      }
    }
  }

  /** `combined` after the files `files`, each read with `read`. */
  function Combined(files: seq<string>, read: string -> string): set<string>
  {
    if files == [] then {}
    else Combined(files[..|files| - 1], read) + NamesIn(PyLines(read(files[|files| - 1])))
  }

  /** A name is combined exactly when it is a stripped non-blank line of some file. */
  lemma {:induction false} CombinedMembers(files: seq<string>, read: string -> string, n: string)
    ensures n in Combined(files, read) <==>
      exists i, l :: 0 <= i < |files| && l in PyLines(read(files[i])) && Strip(l) == n && n != []
  {
    if files != [] {
      var init, last := files[..|files| - 1], files[|files| - 1];
      CombinedMembers(init, read, n);
      NamesInMembers(PyLines(read(last)), n);
      if exists i, l :: 0 <= i < |files| && l in PyLines(read(files[i])) && Strip(l) == n && n != [] {
        var i, l :| 0 <= i < |files| && l in PyLines(read(files[i])) && Strip(l) == n && n != [];
        if i < |files| - 1 {
          assert init[i] == files[i];
        }
      }
      if n in Combined(init, read) {
        var i, l :| 0 <= i < |init| && l in PyLines(read(init[i])) && Strip(l) == n && n != [];
        assert init[i] == files[i];
      }
    }
  }

  /** The output file: each name followed by a newline. */
  function Printed(names: seq<string>): string
  {
    if names == [] then [] else names[0] + "\n" + Printed(names[1..])
  }

  /** Reading the output back in text mode gives the names, in order. */
  lemma {:induction false} PrintedLines(names: seq<string>)
    requires forall i :: 0 <= i < |names| ==> names[i] != [] && '\n' !in names[i] && '\r' !in names[i]
    ensures PyLines(Printed(names)) == names
  {
    if names != [] {
      var s := Printed(names);
      var n := names[0];
      assert s == n + ("\n" + Printed(names[1..]));
      assert LineEnd(s) == |n| by {
        LineEndOf(n, "\n" + Printed(names[1..]));
      }
      assert s[..|n|] == n;
      assert s[|n| + 1..] == Printed(names[1..]);
      PrintedLines(names[1..]);
    }
  }

  lemma {:induction false} LineEndOf(n: string, rest: string)
    requires '\n' !in n && '\r' !in n && rest != [] && rest[0] == '\n'
    ensures LineEnd(n + rest) == |n|
  {
    if n != [] {
      assert (n + rest)[1..] == n[1..] + rest;
      assert '\n' !in n[1..] && '\r' !in n[1..];
      LineEndOf(n[1..], rest);
    } else {
      assert n + rest == rest;
    }
  }

  /** How the script ends. */
  datatype Outcome =
    | Usage        // exit status 1
    | OutExists    // exit status 2
    | Wrote(names: seq<string>, text: string)

  /**
   * The script: fewer than two input files after the output path prints
   * the usage and exits 1; an existing output path exits 2 before any input
   * is opened; otherwise every input is read, and the combined names are
   * written sorted.  Returns the outcome and the input files opened.
   */
  method Run(argv: seq<string>, pathExists: string -> bool, read: string -> string)
    returns (o: Outcome, inputs: seq<string>)
    ensures |argv| <= 3 ==> o == Usage && inputs == []
    ensures |argv| > 3 && pathExists(argv[1]) ==> o == OutExists && inputs == []
    ensures |argv| > 3 && !pathExists(argv[1]) ==>
      inputs == argv[2..] && o.Wrote?
      && Ascending(o.names)
      && (forall n :: n in o.names <==> n in Combined(argv[2..], read))
      && o.text == Printed(o.names)
  {
    if |argv| <= 3 {
      return Usage, [];
    }
    var out := argv[1];
    var rest := argv[2..];
    if pathExists(out) {
      return OutExists, [];
    }
    var combined;
    inputs, combined := ReadAll(rest, read);
    var names := SortNames(combined);
    o := Wrote(names, Printed(names));
  }

  /** The loop over the input files: each is opened in turn and its names added. */
  method ReadAll(files: seq<string>, read: string -> string) returns (inputs: seq<string>, combined: set<string>)
    ensures inputs == files
    ensures combined == Combined(files, read)
  {
    combined := {};
    inputs := [];
    for i := 0 to |files|
      invariant inputs == files[..i]
      invariant combined == Combined(files[..i], read)
    {
      assert files[..i + 1] == files[..i] + [files[i]];
      inputs := inputs + [files[i]];
      combined := AddLines(combined, PyLines(read(files[i])));
      CombinedSnoc(files, i, read);
    }
    assert files[..|files|] == files;
  }

  /** The loop over the lines of one file: each stripped non-blank line is added. */
  method AddLines(before: set<string>, lines: seq<string>) returns (combined: set<string>)
    ensures combined == before + NamesIn(lines)
  {
    combined := before;
    for k := 0 to |lines|
      invariant combined == before + NamesIn(lines[..k])
    {
      var line := Strip(lines[k]);
      assert lines[..k + 1][..k] == lines[..k];
      if line == [] {
        continue;
      }
      combined := combined + {line};
    }
    assert lines[..|lines|] == lines;
  }

  /** One more file adds the names of its lines. */
  lemma CombinedSnoc(files: seq<string>, i: nat, read: string -> string)
    requires i < |files|
    ensures Combined(files[..i + 1], read) == Combined(files[..i], read) + NamesIn(PyLines(read(files[i])))
  {
    assert files[..i + 1][..i] == files[..i];
  }

  /**
   * Every stripped non-blank line of the inputs is in the output exactly
   * once, and nothing else is.
   */
  lemma EachNameOnce(names: seq<string>, files: seq<string>, read: string -> string, n: string)
    requires Ascending(names)
    requires forall x :: x in names <==> x in Combined(files, read)
    ensures multiset(names)[n] ==
      if exists i, l :: 0 <= i < |files| && l in PyLines(read(files[i])) && Strip(l) == n && n != [] then 1 else 0
  {
    AscendingOnce(names, n);
    CombinedMembers(files, read, n);
  }
}
