// Bytes as they travel over the serial line, the UTF-8 encoding the client
// applies to every command string, and Python's `find` on byte strings.

module Wrappers {
  datatype Option<T> = None | Some(value: T)
}

module Bytes {

  newtype Byte = b: int | 0 <= b < 256

  const CR: Byte := 0x0D
  const LF: Byte := 0x0A
  const GT: Byte := 0x3E   // '>', the last byte of the shell prompt

  /** b'\r\n', the line break ending every command and separating the echo. */
  const CRLF: seq<Byte> := [CR, LF]

  /** b'ch>', the prompt the tinySA shell prints when it is ready again. */
  const PROMPT: seq<Byte> := [0x63, 0x68, GT]

  predicate IsAscii(s: string)
  {
    forall i :: 0 <= i < |s| ==> s[i] as int < 0x80
  }

  /** The UTF-8 encoding of one character (a Unicode scalar value). */
  function Utf8Char(c: char): (b: seq<Byte>)
    ensures 1 <= |b| <= 4
    ensures |b| == 1 <==> c as int < 0x80
    ensures |b| == 1 ==> b[0] as int == c as int
  {
    var n := c as int;
    if n < 0x80 then
      [n as Byte]
    else if n < 0x800 then
      [(0xC0 + n / 0x40) as Byte, (0x80 + n % 0x40) as Byte]
    else if n < 0x10000 then
      [(0xE0 + n / 0x1000) as Byte, (0x80 + n / 0x40 % 0x40) as Byte, (0x80 + n % 0x40) as Byte]
    else
      [(0xF0 + n / 0x40000) as Byte, (0x80 + n / 0x1000 % 0x40) as Byte,
       (0x80 + n / 0x40 % 0x40) as Byte, (0x80 + n % 0x40) as Byte]
  }

  /** `bytes(s, 'utf-8')`. */
  function Utf8(s: string): (b: seq<Byte>)
    ensures |s| <= |b| <= 4 * |s|
  {
    if s == [] then [] else Utf8Char(s[0]) + Utf8(s[1..])
  }

  /** An ASCII string is sent one byte per character, each byte its code. */
  lemma {:induction false} Utf8OfAscii(s: string)
    requires IsAscii(s)
    ensures |Utf8(s)| == |s|
    ensures forall i :: 0 <= i < |s| ==> Utf8(s)[i] as int == s[i] as int
  {
    if s != [] {
      Utf8OfAscii(s[1..]);
      assert Utf8(s) == [s[0] as int as Byte] + Utf8(s[1..]);
    }
  }

  /** `pat` occurs in `s` starting at index `i`. */
  predicate OccursAt(s: seq<Byte>, pat: seq<Byte>, i: int)
  {
    0 <= i && i + |pat| <= |s| && s[i..i + |pat|] == pat
  }

  function FindFrom(s: seq<Byte>, pat: seq<Byte>, from: nat): (r: int)
    requires from <= |s|
    ensures r == -1 || (from <= r && r + |pat| <= |s|)
    ensures r != -1 ==> OccursAt(s, pat, r)
    ensures r != -1 ==> forall j :: from <= j < r ==> !OccursAt(s, pat, j)
    ensures r == -1 ==> forall j :: from <= j ==> !OccursAt(s, pat, j)
    decreases |s| - from
  {
    if from + |pat| > |s| then -1
    else if s[from..from + |pat|] == pat then from
    else FindFrom(s, pat, from + 1)
  }

  /** Python's `s.find(pat)`: the first index where `pat` occurs, or -1.
      `s.index(pat)` is the same search, raising ValueError where this gives -1. */
  function Find(s: seq<Byte>, pat: seq<Byte>): (r: int)
    ensures r == -1 || (0 <= r && r + |pat| <= |s|)
    ensures r != -1 ==> OccursAt(s, pat, r) && forall j :: 0 <= j < r ==> !OccursAt(s, pat, j)
    ensures r == -1 <==> forall j :: !OccursAt(s, pat, j)
  {
    FindFrom(s, pat, 0)
  }

  /** `s.endswith(pat)`. */
  predicate EndsWith(s: seq<Byte>, pat: seq<Byte>): (r: bool)
    ensures r <==> |pat| <= |s| && forall i :: 0 <= i < |pat| ==> s[|s| - |pat| + i] == pat[i]
  {
    |pat| <= |s| && s[|s| - |pat|..] == pat
  }

  /** For a one-byte pattern, `find` is the index of the first equal byte. */
  lemma FindByte(s: seq<Byte>, b: Byte)
    ensures Find(s, [b]) == -1 <==> b !in s
    ensures Find(s, [b]) != -1 ==> s[Find(s, [b])] == b && b !in s[..Find(s, [b])]
  {
    forall j | 0 <= j < |s|
      ensures OccursAt(s, [b], j) <==> s[j] == b
    {
      assert s[j..j + 1] == [s[j]];
    }
    var r := Find(s, [b]);
    if b in s {
      var k :| 0 <= k < |s| && s[k] == b;
      assert OccursAt(s, [b], k);
    }
    if r != -1 {
      forall j | 0 <= j < r ensures s[..r][j] != b {
        assert !OccursAt(s, [b], j);
      }
    }
  }

  /** Appending bytes cannot move an occurrence that is already there. */
  lemma {:induction false} FindInPrefix(s: seq<Byte>, t: seq<Byte>, pat: seq<Byte>)
    requires Find(s, pat) != -1
    ensures Find(s + t, pat) == Find(s, pat)
  {
    var r := Find(s, pat);
    forall j | 0 <= j && j + |pat| <= |s|
      ensures OccursAt(s + t, pat, j) <==> OccursAt(s, pat, j)
    {
      assert (s + t)[j..j + |pat|] == s[j..j + |pat|];
    }
    assert OccursAt(s + t, pat, r);
  }
}
