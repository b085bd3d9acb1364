/** Byte strings, one character per byte: searching, trimming and UTF-8 validity as the Rust
standard library and `memchr` define them. */
module Bytes {
  import opened Runs
  import Text

  // ---- Searching ----

  predicate At(hay: string, needle: string, i: nat) {
    i + |needle| <= |hay| && hay[i..i + |needle|] == needle
  }

  function Search(hay: string, needle: string, i: nat): (r: Option<nat>)
    ensures r.Some? ==> i <= r.value && r.value + |needle| <= |hay|
    decreases |hay| - i
  {
    if i + |needle| > |hay| then None else if At(hay, needle, i) then Some(i) else Search(hay, needle, i + 1)
  }

  /** What stands at `at` can be read off piece by piece. */
  lemma Peel(s: string, at: nat, head: string, rest: string)
    requires at <= |s| && s[at..] == head + rest
    ensures at + |head| <= |s| && s[at..at + |head|] == head && s[at + |head|..] == rest
  {
    var n, tail := |head|, s[at..];
    assert s[at..at + n] == tail[..n] == (head + rest)[..n];
    assert s[at + n..] == tail[n..] == (head + rest)[n..];
  }

  lemma SliceOfSlice(s: string, a: nat, b: nat, i: nat, j: nat)
    requires a <= b <= |s| && i <= j <= b - a
    ensures s[a..b][i..j] == s[a + i..a + j]
  {
    forall k | 0 <= k < j - i ensures s[a..b][i..j][k] == s[a + i..a + j][k] {
      assert s[a..b][i + k] == s[a + i + k];
    }
  }

  /** A text occurs in a piece of `s` where it occurs in `s`. */
  lemma AtInside(s: string, start: nat, piece: string, needle: string, k: nat)
    requires start + |piece| <= |s| && s[start..start + |piece|] == piece && k + |needle| <= |piece|
    ensures At(s, needle, start + k) <==> At(piece, needle, k)
  {
    SliceOfSlice(s, start, start + |piece|, k, k + |needle|);
  }

  /** `find_bytes`. */
  function Find(hay: string, needle: string, from: nat): (r: Option<nat>)
    ensures r.Some? ==> from <= r.value && r.value + |needle| <= |hay|
  {
    if needle == "" || from >= |hay| then None else Search(hay, needle, from)
  }

  lemma {:induction false} SearchFirst(hay: string, needle: string, i: nat)
    ensures var r := Search(hay, needle, i);
      if r.Some? then At(hay, needle, r.value) && forall j :: i <= j < r.value ==> !At(hay, needle, j)
      else forall j :: i <= j ==> !At(hay, needle, j)
    decreases |hay| - i
  {
    if i + |needle| > |hay| || At(hay, needle, i) {
    } else {
      SearchFirst(hay, needle, i + 1);
    }
  }

  /** What is found is the first occurrence, and nothing is found only where there is none. */
  lemma FindFirst(hay: string, needle: string, from: nat)
    requires needle != ""
    ensures var r := Find(hay, needle, from);
      if r.Some? then At(hay, needle, r.value) && forall j :: from <= j < r.value ==> !At(hay, needle, j)
      else forall j :: from <= j ==> !At(hay, needle, j)
  {
    SearchFirst(hay, needle, from);
  }

  /** An occurrence with none before it is the one found. */
  lemma FindIs(hay: string, needle: string, from: nat, i: nat)
    requires needle != "" && from <= i && At(hay, needle, i)
    requires forall j :: from <= j < i ==> !At(hay, needle, j)
    ensures Find(hay, needle, from) == Some(i)
  {
    FindFirst(hay, needle, from);
  }

  lemma AtEnds(hay: string, needle: string, i: nat)
    requires needle != "" && At(hay, needle, i)
    ensures hay[i] == needle[0] && hay[i + |needle| - 1] == needle[|needle| - 1]
  {
    assert hay[i] == hay[i..i + |needle|][0];
    assert hay[i + |needle| - 1] == hay[i..i + |needle|][|needle| - 1];
  }

  lemma AtIndex(hay: string, needle: string, i: nat, k: nat)
    requires At(hay, needle, i) && k < |needle|
    ensures hay[i + k] == needle[k]
  {
    assert hay[i + k] == hay[i..i + |needle|][k];
  }

  lemma AtTail(hay: string, lead: string, needle: string, i: nat)
    requires At(hay, lead + needle, i)
    ensures At(hay, needle, i + |lead|)
  {
    var n := |lead| + |needle|;
    assert hay[i + |lead|..i + n] == hay[i..i + n][|lead|..] == needle;
  }

  // ---- UTF-8 ----

  predicate Continues(c: char) {
    0x80 <= c as int <= 0xBF
  }

  /** The length of the well-formed character at the front, or 0. */
  function CharLength(s: string): (n: nat)
    ensures n <= |s| && n <= 4
  {
    if s == "" then 0 else
    var a := s[0] as int;
    if a < 0x80 then 1
    else if |s| < 2 then 0 else
    var b := s[1] as int;
    if 0xC2 <= a <= 0xDF then (if Continues(s[1]) then 2 else 0)
    else if |s| < 3 || !Continues(s[2]) then 0
    else if a == 0xE0 then (if 0xA0 <= b <= 0xBF then 3 else 0)
    else if a == 0xED then (if 0x80 <= b <= 0x9F then 3 else 0)
    else if 0xE1 <= a <= 0xEF then (if Continues(s[1]) then 3 else 0)
    else if |s| < 4 || !Continues(s[3]) then 0
    else if a == 0xF0 then (if 0x90 <= b <= 0xBF then 4 else 0)
    else if a == 0xF4 then (if 0x80 <= b <= 0x8F then 4 else 0)
    else if 0xF1 <= a <= 0xF3 then (if Continues(s[1]) then 4 else 0)
    else 0
  }

  predicate Utf8(s: string) {
    s == "" || (CharLength(s) > 0 && Utf8(s[CharLength(s)..]))
  }

  lemma CharLengthPrefix(s: string, more: string)
    requires CharLength(s) > 0
    ensures CharLength(s + more) == CharLength(s)
  {
  }

  lemma Utf8Step(s: string, n: nat)
    requires n == CharLength(s) && n > 0
    ensures Utf8(s) <==> Utf8(s[n..])
  {
  }

  lemma Utf8Front(a: string, b: string, n: nat)
    requires n == CharLength(a) && n > 0 && Utf8((a + b)[n..])
    ensures Utf8(a + b)
  {
    CharLengthPrefix(a, b);
    Utf8Step(a + b, n);
  }

  lemma DropConcat(a: string, b: string, n: nat)
    requires n <= |a|
    ensures (a + b)[n..] == a[n..] + b
  {
  }

  lemma {:induction false} Utf8Concat(a: string, b: string)
    requires Utf8(a) && Utf8(b)
    ensures Utf8(a + b)
    decreases |a|
  {
    if a == "" {
      assert a + b == b;
    } else {
      var n := CharLength(a);
      Utf8Concat(a[n..], b);
      DropConcat(a, b, n);
      Utf8Front(a, b, n);
    }
  }

  lemma Utf8Concat3(a: string, b: string, c: string)
    requires Utf8(a) && Utf8(b) && Utf8(c)
    ensures Utf8(a + b + c)
  {
    Utf8Concat(a, b);
    Utf8Concat(a + b, c);
  }

  predicate Ascii(s: string) {
    forall i :: 0 <= i < |s| ==> s[i] as int < 0x80
  }

  lemma {:induction false} AsciiIsUtf8(s: string)
    requires Ascii(s)
    ensures Utf8(s)
  {
    if s == "" {
    } else {
      AsciiIsUtf8(s[1..]);
    }
  }

  // ---- Trimming ----

  /** The length of the white-space character at the front, or 0. */
  function SpaceAtStart(s: string): (n: nat)
    ensures n <= |s|
  {
    if s == "" then 0
    else if '\t' <= s[0] <= '\r' || s[0] == ' ' then 1
    else if |s| >= 2 && IsSpace2(s[0], s[1]) then 2
    else if |s| >= 3 && IsSpace3(s[0], s[1], s[2]) then 3
    else 0
  }

  function SpaceAtEnd(s: string): (n: nat)
    ensures n <= |s|
  {
    if s == "" then 0
    else if '\t' <= s[|s| - 1] <= '\r' || s[|s| - 1] == ' ' then 1
    else if |s| >= 2 && IsSpace2(s[|s| - 2], s[|s| - 1]) then 2
    else if |s| >= 3 && IsSpace3(s[|s| - 3], s[|s| - 2], s[|s| - 1]) then 3
    else 0
  }

  /** U+0085 and U+00A0. */
  predicate IsSpace2(a: char, b: char) {
    a as int == 0xC2 && (b as int == 0x85 || b as int == 0xA0)
  }

  /** U+1680, U+2000 to U+200A, U+2028, U+2029, U+202F, U+205F and U+3000. */
  predicate IsSpace3(a: char, b: char, c: char) {
    || (a as int == 0xE1 && b as int == 0x9A && c as int == 0x80)
    || (a as int == 0xE2 && b as int == 0x80 && (0x80 <= c as int <= 0x8A || c as int in {0xA8, 0xA9, 0xAF}))
    || (a as int == 0xE2 && b as int == 0x81 && c as int == 0x9F)
    || (a as int == 0xE3 && b as int == 0x80 && c as int == 0x80)
  }

  function TrimStart(s: string): string {
    if SpaceAtStart(s) > 0 then TrimStart(s[SpaceAtStart(s)..]) else s
  }

  function TrimEnd(s: string): string {
    if SpaceAtEnd(s) > 0 then TrimEnd(s[..|s| - SpaceAtEnd(s)]) else s
  }

  /** `str::trim` on UTF-8 text. */
  function Trim(s: string): string {
    TrimEnd(TrimStart(s))
  }

  predicate Visible(c: char) {
    0x21 <= c as int < 0x7F
  }

  lemma NoSpaceAtStart(s: string)
    requires s != "" && Visible(s[0])
    ensures SpaceAtStart(s) == 0
  {
  }

  lemma NoSpaceAtEnd(s: string)
    requires s != "" && Visible(s[|s| - 1])
    ensures SpaceAtEnd(s) == 0
  {
  }

  lemma TrimVisible(s: string)
    requires s != "" && Visible(s[0]) && Visible(s[|s| - 1])
    ensures Trim(s) == s
  {
    NoSpaceAtStart(s);
    NoSpaceAtEnd(s);
    assert TrimStart(s) == s;
  }

  /** A space in front of visible text is trimmed away. */
  lemma TrimSpace(s: string)
    ensures TrimStart(" " + s) == TrimStart(s) && Trim(" " + s) == Trim(s)
  {
    assert (" " + s)[1..] == s;
  }

  // ---- Case ----

  /** `to_ascii_lowercase`. */
  function Lower(s: string): (r: string)
    ensures |r| == |s| && forall i :: 0 <= i < |s| ==> r[i] == Text.LowerChar(s[i])
  {
    seq(|s|, i requires 0 <= i < |s| => Text.LowerChar(s[i]))
  }

  /** Text without capitals is found in the lower-cased text where it stands. */
  lemma AtLower(value: string, needle: string, i: nat)
    requires At(value, needle, i) && Lower(needle) == needle
    ensures At(Lower(value), needle, i)
  {
    forall k | 0 <= k < |needle| ensures Lower(value)[i..i + |needle|][k] == needle[k] {
      AtIndex(value, needle, i, k);
      assert Lower(needle)[k] == needle[k];
    }
  }

  /** An occurrence cannot reach across a character that the needle does not have. */
  lemma NotAcross(value: string, needle: string, j: nat, q: nat)
    requires j <= q < j + |needle| && q < |value| && Lower(value)[q] !in needle
    ensures !At(Lower(value), needle, j)
  {
    var k: nat := q - j;
    if At(Lower(value), needle, j) {
      AtIndex(Lower(value), needle, j, k);
    }
  }
}
