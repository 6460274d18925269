/** Line splitting (`str::lines`, `BufRead::lines`), `join` and its inverse `split`. */
module Lines {

  /** The index of the first `c` in `s`, or `|s|` when there is none. */
  function IndexOf(s: string, c: char): (i: nat)
    ensures i <= |s| && (i < |s| ==> s[i] == c)
    ensures forall k :: 0 <= k < i ==> s[k] != c
  {
    if s == [] || s[0] == c then 0 else 1 + IndexOf(s[1..], c)
  }

  /** Drops one trailing carriage return. */
  function StripCr(l: string): string
  {
    if l != [] && l[|l| - 1] == '\r' then l[..|l| - 1] else l
  }

  /**
   * `str::lines`: the text is cut after every `\n`; the `\n`, and a `\r`
   * right before it, are dropped.  A final line without `\n` is kept as it
   * is, and a final `\n` does not start one more (empty) line.
   */
  function Lines(s: string): (ls: seq<string>)
    ensures forall i :: 0 <= i < |ls| ==> '\n' !in ls[i]
    decreases |s|
  {
    if s == [] then []
    else
      var i := IndexOf(s, '\n');
      if i == |s| then [s] else [StripCr(s[..i])] + Lines(s[i + 1..])
  }

  /** `[String]::join(sep)`. */
  function Join(xs: seq<string>, sep: string): string
  {
    if xs == [] then [] else if |xs| == 1 then xs[0] else xs[0] + sep + Join(xs[1..], sep)
  }

  /** `str::split` with a character separator: always at least one piece. */
  function Split(s: string, sep: char): (r: seq<string>)
    ensures |r| > 0
    decreases |s|
  {
    var i := IndexOf(s, sep);
    if i == |s| then [s] else [s[..i]] + Split(s[i + 1..], sep)
  }

  /** Splitting a joined list at its separator gives the list back. */
  lemma {:induction false} SplitJoin(xs: seq<string>, sep: char)
    requires |xs| > 0
    requires forall k :: 0 <= k < |xs| ==> sep !in xs[k]
    ensures Split(Join(xs, [sep]), sep) == xs
  {
    var x := xs[0];
    if |xs| == 1 {
      assert IndexOf(x, sep) == |x|;
    } else {
      var s := Join(xs, [sep]);
      assert s == x + [sep] + Join(xs[1..], [sep]);
      assert s[|x|] == sep;
      assert forall k :: 0 <= k < |x| ==> s[k] == x[k] && x[k] in x;
      assert IndexOf(s, sep) == |x|;
      assert s[..|x|] == x;
      assert s[|x| + 1..] == Join(xs[1..], [sep]);
      SplitJoin(xs[1..], sep);
    }
  }

  /** A line ended by `\n` comes off first, when it holds no `\n` and does not end in `\r`. */
  lemma LinesCons(x: string, rest: string)
    requires '\n' !in x && (x == [] || x[|x| - 1] != '\r')
    ensures Lines(x + "\n" + rest) == [x] + Lines(rest)
  {
    var s := x + "\n" + rest;
    assert s[|x|] == '\n';
    assert forall k :: 0 <= k < |x| ==> s[k] == x[k] && x[k] in x;
    assert IndexOf(s, '\n') == |x|;
    assert s[..|x|] == x;
    assert s[|x| + 1..] == rest;
  }

  /**
   * Cutting lines that were joined with `\n` gives them back, as long as no
   * line holds a `\n`, none ends in `\r`, and the last one is not empty.
   */
  lemma {:induction false} LinesJoin(xs: seq<string>)
    requires forall k :: 0 <= k < |xs| ==> '\n' !in xs[k] && (xs[k] == [] || xs[k][|xs[k]| - 1] != '\r')
    requires xs != [] ==> xs[|xs| - 1] != []
    ensures Lines(Join(xs, "\n")) == xs
  {
    if xs != [] {
      var x := xs[0];
      if |xs| == 1 {
        assert forall k :: 0 <= k < |x| ==> x[k] in x;
        assert IndexOf(x, '\n') == |x|;
      } else {
        var s := Join(xs, "\n");
        assert s == x + "\n" + Join(xs[1..], "\n");
        assert s[|x|] == '\n';
        assert forall k :: 0 <= k < |x| ==> s[k] == x[k] && x[k] in x;
        assert IndexOf(s, '\n') == |x|;
        assert s[..|x|] == x;
        assert StripCr(x) == x;
        assert s[|x| + 1..] == Join(xs[1..], "\n");
        LinesJoin(xs[1..]);
      }
    }
  }
}
