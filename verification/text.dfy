/**
 * String primitives of the Rust standard library that the searcher relies
 * on, stated over `string` (a sequence of Unicode scalar values).  Rust
 * measures and slices `str` in UTF-8 bytes; `Utf8Len` and `ByteSlice` make
 * that explicit.
 */
module Text {
  import opened Wrappers

  /** Number of bytes in the UTF-8 encoding of `c`. */
  function CharWidth(c: char): (w: nat)
    ensures 1 <= w <= 4
    ensures w == 1 <==> c as int < 0x80
  {
    var n := c as int;
    if n < 0x80 then 1 else if n < 0x800 then 2 else if n < 0x10000 then 3 else 4
  }

  /** `str::len`: the length of `s` in UTF-8 bytes. */
  function Utf8Len(s: string): (n: nat)
    ensures |s| <= n <= 4 * |s|
  {
    if s == [] then 0 else CharWidth(s[0]) + Utf8Len(s[1..])
  }

  lemma {:induction false} Utf8LenAppend(a: string, b: string)
    ensures Utf8Len(a + b) == Utf8Len(a) + Utf8Len(b)
  {
    if a == [] {
      assert a + b == b;
    } else {
      assert (a + b)[1..] == a[1..] + b;
      Utf8LenAppend(a[1..], b);
    }
  }

  /** A string of ASCII characters has as many bytes as characters. */
  lemma {:induction false} Utf8LenAscii(s: string)
    requires forall i :: 0 <= i < |s| ==> s[i] as int < 0x80
    ensures Utf8Len(s) == |s|
  {
    if s != [] {
      Utf8LenAscii(s[1..]);
    }
  }

  /** Byte offsets of character boundaries grow strictly with the character index. */
  lemma {:induction false} Utf8LenPrefixMono(s: string, i: nat, j: nat)
    requires i < j <= |s|
    ensures Utf8Len(s[..i]) < Utf8Len(s[..j])
  {
    assert s[..j] == s[..i] + s[i..j];
    Utf8LenAppend(s[..i], s[i..j]);
  }

  /** `char::to_ascii_lowercase`. */
  function LowerChar(c: char): char
  {
    if 'A' <= c <= 'Z' then (c as int + 32) as char else c
  }

  /** `str::to_ascii_lowercase`: only `A`..`Z` change. */
  function AsciiLower(s: string): (r: string)
    ensures |r| == |s|
    ensures forall i :: 0 <= i < |s| ==> r[i] == LowerChar(s[i])
    ensures forall i :: 0 <= i < |r| ==> !('A' <= r[i] <= 'Z')
  {
    seq(|s|, i requires 0 <= i < |s| => LowerChar(s[i]))
  }

  /** Lower-casing keeps every character's UTF-8 width, so the byte length too. */
  lemma {:induction false} AsciiLowerKeepsUtf8Len(s: string)
    ensures Utf8Len(AsciiLower(s)) == Utf8Len(s)
  {
    if s != [] {
      assert AsciiLower(s)[1..] == AsciiLower(s[1..]);
      assert CharWidth(AsciiLower(s)[0]) == CharWidth(s[0]);
      AsciiLowerKeepsUtf8Len(s[1..]);
    }
  }

  /** Lower-casing twice is lower-casing once. */
  lemma AsciiLowerIdempotent(s: string)
    ensures AsciiLower(AsciiLower(s)) == AsciiLower(s)
  {
  }

  /** `needle` occurs in `hay` starting at character index `i`. */
  predicate OccursAt(hay: string, needle: string, i: nat)
  {
    i + |needle| <= |hay| && hay[i..i + |needle|] == needle
  }

  /** `str::contains` with a string pattern. */
  predicate Contains(hay: string, needle: string)
  {
    exists i :: 0 <= i <= |hay| - |needle| && OccursAt(hay, needle, i)
  }

  /** `str::starts_with`. */
  predicate StartsWith(s: string, prefix: string)
  {
    |prefix| <= |s| && s[..|prefix|] == prefix
  }

  /**
   * The character index at which byte offset `b` of `s` falls, when `b` is
   * a character boundary (`str::is_char_boundary`); `None` otherwise.
   */
  function CharIndex(s: string, b: nat): (r: Option<nat>)
    ensures r.Some? ==> r.value <= |s| && Utf8Len(s[..r.value]) == b
    decreases |s|
  {
    if b == 0 then Some(0)
    else if s == [] || b < CharWidth(s[0]) then None
    else
      match CharIndex(s[1..], b - CharWidth(s[0]))
      case None => None
      case Some(i) =>
        assert s[..i + 1][1..] == s[1..][..i];
        Some(i + 1)
  }

  /** Every character boundary is found by `CharIndex`. */
  lemma {:induction false} CharIndexOfBoundary(s: string, i: nat)
    requires i <= |s|
    ensures CharIndex(s, Utf8Len(s[..i])) == Some(i)
  {
    if i > 0 {
      var t := s[1..];
      assert s[..i][1..] == t[..i - 1];
      assert Utf8Len(s[..i]) == CharWidth(s[0]) + Utf8Len(t[..i - 1]);
      CharIndexOfBoundary(t, i - 1);
    }
  }

  /**
   * `&s[a..b]` with byte offsets: `None` where Rust panics, that is when
   * `a > b`, `b` lies past the end, or either offset falls inside a character.
   */
  function ByteSlice(s: string, a: nat, b: nat): (r: Option<string>)
    ensures r.Some? ==> Utf8Len(r.value) == b - a
  {
    if a > b then None
    else
      match (CharIndex(s, a), CharIndex(s, b))
      case (Some(i), Some(j)) =>
        if j < i then (Utf8LenPrefixMono(s, j, i); None)
        else
          assert s[..j] == s[..i] + s[i..j];
          Utf8LenAppend(s[..i], s[i..j]);
          Some(s[i..j])
      case _ => None
  }

  /** Slicing at the byte offsets of two character boundaries takes the characters between them. */
  lemma ByteSliceAt(s: string, i: nat, j: nat, a: nat, b: nat)
    requires i <= j <= |s| && a == Utf8Len(s[..i]) && b == Utf8Len(s[..j])
    ensures ByteSlice(s, a, b) == Some(s[i..j])
  {
    CharIndexOfBoundary(s, i);
    CharIndexOfBoundary(s, j);
    if i < j {
      Utf8LenPrefixMono(s, i, j);
    }
  }

  /** Slicing at the byte offsets that delimit a middle part returns that part. */
  lemma ByteSliceMiddle(s: string, x: string, y: string, z: string, a: nat, b: nat)
    requires s == x + y + z
    requires a == Utf8Len(x) && b == Utf8Len(x) + Utf8Len(y)
    ensures ByteSlice(s, a, b) == Some(y)
  {
    MiddleOffsets(x, y, z);
    ByteSliceIs(s, y, |x|, |x| + |y|, a, b);
  }

  /** `ByteSliceAt` with the offsets and the slice named. */
  lemma ByteSliceIs(s: string, y: string, i: nat, j: nat, a: nat, b: nat)
    requires i <= j <= |s| && Utf8Len(s[..i]) == a && Utf8Len(s[..j]) == b && s[i..j] == y
    ensures ByteSlice(s, a, b) == Some(y)
  {
    ByteSliceAt(s, i, j, a, b);
  }

  /** In `x + y + z`, `y` lies between the character indices `|x|` and `|x| + |y|`, at these byte offsets. */
  lemma MiddleOffsets(x: string, y: string, z: string)
    ensures var s := x + y + z;
      Utf8Len(s[..|x|]) == Utf8Len(x) && Utf8Len(s[..|x| + |y|]) == Utf8Len(x) + Utf8Len(y)
      && s[|x|..|x| + |y|] == y
  {
    var s := x + y + z;
    assert s[..|x|] == x;
    assert s[..|x| + |y|] == x + y;
    Utf8LenAppend(x, y);
  }

  /** The `White_Space` property, which is what `\s` matches in a Unicode regex. */
  predicate IsWhiteSpace(c: char)
  {
    var n := c as int;
    (0x09 <= n <= 0x0D) || n == 0x20 || n == 0x85 || n == 0xA0 || n == 0x1680
    || (0x2000 <= n <= 0x200A) || n == 0x2028 || n == 0x2029 || n == 0x202F
    || n == 0x205F || n == 0x3000
  }

  /** Python's `str.isspace` for one character: `White_Space` plus U+001C..U+001F. */
  predicate IsPySpace(c: char)
  {
    IsWhiteSpace(c) || (0x1C <= c as int <= 0x1F)
  }

  /** Python's `str.strip()` without arguments. */
  function Strip(s: string): string
  {
    var i := SpaceEnd(s, 0);
    s[i..SpaceStart(s, i, |s|)]
  }

  /** Stripping removes white space from both ends, and only that. */
  lemma StripTrims(s: string)
    ensures exists i, j :: 0 <= i <= j <= |s| && Strip(s) == s[i..j]
                           && (forall k :: 0 <= k < i ==> IsPySpace(s[k]))
                           && (forall k :: j <= k < |s| ==> IsPySpace(s[k]))
    ensures Strip(s) != [] ==> !IsPySpace(Strip(s)[0]) && !IsPySpace(Strip(s)[|Strip(s)| - 1])
  {
    var i := SpaceEnd(s, 0);
    var j := SpaceStart(s, i, |s|);
    assert Strip(s) == s[i..j];
  }

  /** The end of the run of white space that starts at `i`. */
  function SpaceEnd(s: string, i: nat): (e: nat)
    requires i <= |s|
    ensures i <= e <= |s| && (e < |s| ==> !IsPySpace(s[e]))
    ensures forall k :: i <= k < e ==> IsPySpace(s[k])
    decreases |s| - i
  {
    if i < |s| && IsPySpace(s[i]) then SpaceEnd(s, i + 1) else i
  }

  /** The start of the run of white space that ends at `j`, not going below `lo`. */
  function SpaceStart(s: string, lo: nat, j: nat): (b: nat)
    requires lo <= j <= |s|
    ensures lo <= b <= j && (b > lo ==> !IsPySpace(s[b - 1]))
    ensures forall k :: b <= k < j ==> IsPySpace(s[k])
    decreases j
  {
    if j > lo && IsPySpace(s[j - 1]) then SpaceStart(s, lo, j - 1) else j
  }

  predicate IsDigit(c: char)
  {
    '0' <= c <= '9'
  }

  function DigitValue(c: char): (d: nat)
    requires IsDigit(c)
    ensures d < 10
  {
    c as int - '0' as int
  }

  function DigitChar(d: nat): (c: char)
    requires d < 10
    ensures IsDigit(c) && DigitValue(c) == d
  {
    ('0' as int + d) as char
  }

  /** `format!("{}", n)` for an unsigned integer. */
  function Decimal(n: nat): (r: string)
    ensures r != [] && forall i :: 0 <= i < |r| ==> IsDigit(r[i])
    ensures |r| > 1 ==> r[0] != '0'
  {
    if n < 10 then [DigitChar(n)] else Decimal(n / 10) + [DigitChar(n % 10)]
  }

  /** `format!("{}", n)` for a signed integer: a minus sign exactly for a negative number, then digits. */
  function SignedDecimal(n: int): (r: string)
    ensures IsSigned(r)
    ensures r[0] == '-' <==> n < 0
  {
    if n < 0 then "-" + Decimal(-n) else Decimal(n)
  }

  /** An optional minus sign followed by at least one digit. */
  predicate IsSigned(s: string)
  {
    s != [] && (s[0] == '-' ==> |s| > 1)
    && forall i :: (if s[0] == '-' then 1 else 0) <= i < |s| ==> IsDigit(s[i])
  }

  /** The integer an optionally signed run of digits denotes. */
  function SignedValue(s: string): int
    requires IsSigned(s)
  {
    if s[0] == '-' then -(DigitsValue(s[1..]) as int) else DigitsValue(s)
  }

  /** `format!("{:02}", n)`: at least two digits, padded with zeros. */
  function Pad2(n: nat): (r: string)
    ensures |r| >= 2 && forall i :: 0 <= i < |r| ==> IsDigit(r[i])
  {
    if n < 10 then "0" + Decimal(n) else Decimal(n)
  }

  /** Reads a string of decimal digits back as a number. */
  function DigitsValue(s: string): nat
    requires forall i :: 0 <= i < |s| ==> IsDigit(s[i])
  {
    if s == [] then 0 else 10 * DigitsValue(s[..|s| - 1]) + DigitValue(s[|s| - 1])
  }

  /** The digits that `Decimal` and `Pad2` print denote the number printed. */
  lemma {:induction false} DecimalValue(n: nat)
    ensures DigitsValue(Decimal(n)) == n
  {
    if n >= 10 {
      var d := Decimal(n);
      assert d[..|d| - 1] == Decimal(n / 10);
      DecimalValue(n / 10);
    }
  }

  /** The text `SignedDecimal` prints denotes the number printed. */
  lemma SignedDecimalValue(n: int)
    ensures SignedValue(SignedDecimal(n)) == n
  {
    if n < 0 {
      DecimalValue(-n);
      assert SignedDecimal(n)[1..] == Decimal(-n);
    } else {
      DecimalValue(n);
    }
  }

  lemma {:induction false} Pad2Value(n: nat)
    ensures DigitsValue(Pad2(n)) == n
  {
    DecimalValue(n);
    if n < 10 {
      assert Pad2(n)[..|Pad2(n)| - 1] == "0";
    }
  }
}
