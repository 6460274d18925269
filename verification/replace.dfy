/**
 * The two forms of Rust's `str::replace` used in the repository: with a
 * character pattern (`'a'`, `['i', 'l']`) and with a string pattern
 * (`"a"`, `".pgn.bz2"`).
 */
module Replace {

  /** `s.replace(p, t)` where `p` is a `char` or a `[char; N]`: each character of `s` in `cs` becomes `t`. */
  function ReplaceChars(s: string, cs: set<char>, t: string): string
  {
    if s == [] then [] else (if s[0] in cs then t else [s[0]]) + ReplaceChars(s[1..], cs, t)
  }

  lemma {:induction false} ReplaceCharsAppend(a: string, b: string, cs: set<char>, t: string)
    ensures ReplaceChars(a + b, cs, t) == ReplaceChars(a, cs, t) + ReplaceChars(b, cs, t)
  {
    if a == [] {
      assert a + b == b;
    } else {
      assert (a + b)[1..] == a[1..] + b;
      ReplaceCharsAppend(a[1..], b, cs, t);
    }
  }

  /** A string none of whose characters is in `cs` is left as it is. */
  lemma {:induction false} ReplaceCharsAbsent(s: string, cs: set<char>, t: string)
    requires forall c :: c in s ==> c !in cs
    ensures ReplaceChars(s, cs, t) == s
  {
    if s != [] {
      assert s[0] in s;
      assert forall c :: c in s[1..] ==> c in s;
      ReplaceCharsAbsent(s[1..], cs, t);
    }
  }

  /** One replaced character between two stretches that keep theirs. */
  lemma ReplaceCharsOneInside(x: string, c: char, z: string, cs: set<char>, t: string)
    requires forall d :: d in x ==> d !in cs
    requires forall d :: d in z ==> d !in cs
    requires c in cs
    ensures ReplaceChars(x + [c] + z, cs, t) == x + t + z
  {
    assert ReplaceChars(x + [c], cs, t) == x + t by {
      ReplaceCharsAppend(x, [c], cs, t);
      ReplaceCharsAbsent(x, cs, t);
      assert ReplaceChars([c], cs, t) == t + ReplaceChars([], cs, t);
    }
    ReplaceCharsAppend(x + [c], z, cs, t);
    ReplaceCharsAbsent(z, cs, t);
  }

  /** `s.replace(pat, t)` for a non-empty `&str` pattern: leftmost, non-overlapping occurrences. */
  function ReplaceStr(s: string, pat: string, t: string): string
    requires pat != []
    decreases |s|
  {
    if |s| < |pat| then s
    else if s[..|pat|] == pat then t + ReplaceStr(s[|pat|..], pat, t)
    else [s[0]] + ReplaceStr(s[1..], pat, t)
  }

  /** With a one-character pattern the string form is the character form. */
  lemma {:induction false} ReplaceStrOneChar(s: string, c: char, t: string)
    ensures ReplaceStr(s, [c], t) == ReplaceChars(s, {c}, t)
  {
    if s != [] {
      ReplaceStrOneChar(s[1..], c, t);
    }
  }

  /** An occurrence at the very start is replaced and scanning resumes after it. */
  lemma ReplaceStrAtStart(pat: string, s: string, t: string)
    requires pat != []
    ensures ReplaceStr(pat + s, pat, t) == t + ReplaceStr(s, pat, t)
  {
    assert (pat + s)[..|pat|] == pat;
    assert (pat + s)[|pat|..] == s;
  }

  /** A prefix without the pattern's first character is copied unchanged. */
  lemma {:induction false} ReplaceStrSkip(x: string, s: string, pat: string, t: string)
    requires pat != [] && pat[0] !in x
    ensures ReplaceStr(x + s, pat, t) == x + ReplaceStr(s, pat, t)
  {
    if x == [] {
      assert x + s == s;
    } else {
      var y, x' := x + s, x[1..];
      assert y[0] == x[0] && y[1..] == x' + s;
      assert pat[0] !in x' by {
        assert forall c :: c in x' ==> c in x;
      }
      ReplaceStrSkip(x', s, pat, t);
      assert ReplaceStr(y, pat, t) == [x[0]] + ReplaceStr(x' + s, pat, t) by {
        if |y| >= |pat| {
          assert y[..|pat|] != pat by {
            assert y[..|pat|][0] == x[0];
            assert x[0] in x;
          }
        } else {
          assert ReplaceStr(x' + s, pat, t) == x' + s;
        }
      }
      assert [x[0]] + (x' + ReplaceStr(s, pat, t)) == x + ReplaceStr(s, pat, t) by {
        assert [x[0]] + x' == x;
      }
    }
  }

  /** A pattern with a character that `s` lacks never occurs in `s`. */
  lemma {:induction false} ReplaceStrAbsent(s: string, pat: string, t: string, c: char)
    requires pat != [] && c in pat && c !in s
    ensures ReplaceStr(s, pat, t) == s
  {
    if |s| >= |pat| {
      assert c !in s[1..];
      ReplaceStrAbsent(s[1..], pat, t, c);
    }
  }
}
