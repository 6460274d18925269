/**
 * Reading the username list (`do_read`): every line is one username; empty
 * lines are skipped, and a read error ends the whole read.  The lines come
 * from `BufRead::lines`, which cuts at `\n` and drops a `\r` before it, as
 * `str::lines` does; decompression and decryption happen before and are
 * not part of this model.
 */
module Corpus {
  import opened Wrappers
  import opened Text
  import opened Lines
  import opened Model

  /** The result of the read, line by line: the first failed line is the result, otherwise the records of the non-empty lines. */
  function Read(lines: seq<Result<string, IoError>>): Result<seq<Username>, IoError>
  {
    if lines == [] then Ok([])
    else match lines[0]
      case Err(e) => Err(e)
      case Ok(name) =>
        match Read(lines[1..])
        case Err(e) => Err(e)
        case Ok(users) => Ok(if name == [] then users else [UserOf(name)] + users)
  }

  /** The records `result` put in front of a read's records; an error stays an error. */
  function After(result: seq<Username>, r: Result<seq<Username>, IoError>): Result<seq<Username>, IoError>
  {
    match r
    case Err(e) => Err(e)
    case Ok(users) => Ok(result + users)
  }

  lemma AfterAppend(a: seq<Username>, b: seq<Username>, r: Result<seq<Username>, IoError>)
    ensures After(a, After(b, r)) == After(a + b, r)
    ensures After([], r) == r
  {
    if r.Ok? {
      assert a + (b + r.value) == (a + b) + r.value;
      assert [] + r.value == r.value;
    }
  }

  /** A line that reads contributes its record, if it is not empty, in front of the rest. */
  lemma ReadOkLine(lines: seq<Result<string, IoError>>)
    requires lines != [] && lines[0].Ok?
    ensures Read(lines) == After(if lines[0].value == [] then [] else [UserOf(lines[0].value)], Read(lines[1..]))
  {
    AfterAppend([], [], Read(lines[1..]));
  }

  /** The loop of `do_read`: push a record for each non-empty line, return the first error at once. */
  method ReadUsers(lines: seq<Result<string, IoError>>) returns (r: Result<seq<Username>, IoError>)
    ensures r == Read(lines)
  {
    var result: seq<Username> := [];
    assert lines[0..] == lines;
    AfterAppend([], [], Read(lines));
    for i := 0 to |lines|
      invariant Read(lines) == After(result, Read(lines[i..]))
    {
      assert lines[i..][1..] == lines[i + 1..];
      match lines[i] {
        case Err(e) =>
          return Err(e);
        case Ok(name) =>
          ReadOkLine(lines[i..]);
          if name != [] {
            AfterAppend(result, [UserOf(name)], Read(lines[i + 1..]));
            result := result + [UserOf(name)];
          } else {
            AfterAppend(result, [], Read(lines[i + 1..]));
            assert result + [] == result;
          }
      }
    }
    assert lines[|lines|..] == [];
    r := Ok(result);
  }

  /** The non-empty lines, in order. */
  function NonEmpty(names: seq<string>): (r: seq<string>)
    ensures |r| <= |names|
    ensures forall i :: 0 <= i < |r| ==> r[i] != []
  {
    if names == [] then []
    else if names[0] == [] then NonEmpty(names[1..])
    else [names[0]] + NonEmpty(names[1..])
  }

  lemma {:induction false} NonEmptyMembers(names: seq<string>, x: string)
    ensures x in NonEmpty(names) <==> x in names && x != []
  {
    if names != [] {
      NonEmptyMembers(names[1..], x);
      assert names == [names[0]] + names[1..];
    }
  }

  /** The record of every non-empty line: its name as it stands, its id lower-cased. */
  function UsersOf(names: seq<string>): (us: seq<Username>)
    ensures |us| == |NonEmpty(names)|
    ensures forall i :: 0 <= i < |us| ==> us[i].name == NonEmpty(names)[i] && us[i].id == AsciiLower(us[i].name)
  {
    seq(|NonEmpty(names)|, i requires 0 <= i < |NonEmpty(names)| => UserOf(NonEmpty(names)[i]))
  }

  /** The text of every line, for lines that were all read. */
  function Texts(lines: seq<Result<string, IoError>>): (r: seq<string>)
    requires forall i :: 0 <= i < |lines| ==> lines[i].Ok?
    ensures |r| == |lines|
    ensures forall i :: 0 <= i < |lines| ==> r[i] == lines[i].value
  {
    seq(|lines|, i requires 0 <= i < |lines| && lines[i].Ok? => lines[i].value)
  }

  /** When every line reads, the result is exactly the records of the non-empty lines, in order. */
  lemma {:induction false} ReadWithoutErrors(lines: seq<Result<string, IoError>>)
    requires forall i :: 0 <= i < |lines| ==> lines[i].Ok?
    ensures Read(lines) == Ok(UsersOf(Texts(lines)))
  {
    if lines != [] {
      ReadWithoutErrors(lines[1..]);
      assert Texts(lines[1..]) == Texts(lines)[1..];
      var names := Texts(lines);
      assert names == [names[0]] + names[1..];
      if names[0] != [] {
        assert NonEmpty(names) == [names[0]] + NonEmpty(names[1..]);
        assert UsersOf(names) == [UserOf(names[0])] + UsersOf(names[1..]);
      } else {
        assert UsersOf(names) == UsersOf(names[1..]);
      }
    }
  }

  /** A failing line makes the whole read fail with the first error. */
  lemma {:induction false} ReadStopsAtFirstError(lines: seq<Result<string, IoError>>, i: nat)
    requires i < |lines| && lines[i].Err?
    requires forall j :: 0 <= j < i ==> lines[j].Ok?
    ensures Read(lines) == Err(lines[i].error)
  {
    if i > 0 {
      ReadStopsAtFirstError(lines[1..], i - 1);
    }
  }

  /** Every line of a text read without errors. */
  function AllRead(text: string): (r: seq<Result<string, IoError>>)
    ensures |r| == |Lines.Lines(text)|
    ensures forall i :: 0 <= i < |r| ==> r[i] == Ok(Lines.Lines(text)[i])
  {
    seq(|Lines.Lines(text)|, i requires 0 <= i < |Lines.Lines(text)| => Ok(Lines.Lines(text)[i]))
  }

  /**
   * Reading a list written one name per line gives every non-empty name
   * back, in order, each with its lower-cased id.
   */
  lemma ReadWrittenList(names: seq<string>)
    requires forall k :: 0 <= k < |names| ==> names[k] != [] && '\n' !in names[k] && names[k][|names[k]| - 1] != '\r'
    ensures Read(AllRead(Join(names, "\n"))) == Ok(UsersOf(names))
  {
    LinesJoin(names);
    var lines := AllRead(Join(names, "\n"));
    ReadWithoutErrors(lines);
    assert Texts(lines) == names;
  }
}
