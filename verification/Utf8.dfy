/** UTF-8 byte strings, character boundaries and the head-only cut. */
module Utf8 {
  import opened Basics
  import opened Decimal

  predicate IsContinuation(b: byte) {
    0x80 <= b < 0xC0
  }

  /** How many bytes the character that starts with `b` has; 0 when no character does. */
  function CharLength(b: byte): nat {
    if b < 0x80 then 1
    else if 0xC2 <= b < 0xE0 then 2
    else if 0xE0 <= b < 0xF0 then 3
    else if 0xF0 <= b < 0xF5 then 4
    else 0
  }

  /** Lead bytes, each followed by its continuation bytes. */
  predicate IsUtf8(s: Bytes) {
    s == [] ||
    (var n := CharLength(s[0]);
     0 < n <= |s| && (forall k :: 0 < k < n ==> IsContinuation(s[k])) && IsUtf8(s[n..]))
  }

  /** `str::is_char_boundary`. */
  predicate IsBoundary(s: Bytes, i: nat) {
    i == 0 || i == |s| || (i < |s| && !IsContinuation(s[i]))
  }

  /** `floor_char_boundary`: the last boundary at or before `i`. */
  function FloorBoundary(s: Bytes, i: nat): (j: nat)
    ensures j <= i && j <= |s| && IsBoundary(s, j)
    ensures forall k :: j < k <= i && k <= |s| ==> !IsBoundary(s, k)
  {
    if i >= |s| then |s| else if IsBoundary(s, i) then i else FloorBoundary(s, i - 1)
  }

  /** `ceil_char_boundary`: the first boundary at or after `i`. */
  function CeilBoundary(s: Bytes, i: nat): (j: nat)
    ensures (i <= |s| ==> i <= j) && j <= |s| && IsBoundary(s, j)
    ensures forall k :: i <= k < j ==> !IsBoundary(s, k)
    decreases |s| - i
  {
    if i >= |s| then |s| else if IsBoundary(s, i) then i else CeilBoundary(s, i + 1)
  }

  function Tail6(n: nat): byte {
    (0x80 + n % 0x40) as byte
  }

  /** A code point as its one to four bytes (section 3 of RFC 3629). */
  function Encoded(cp: nat): Bytes
    requires cp < 0x110000
  {
    if cp < 0x80 then [cp as byte]
    else if cp < 0x800 then [(0xC0 + cp / 0x40) as byte, Tail6(cp)]
    else if cp < 0x10000 then [(0xE0 + cp / 0x1000) as byte, Tail6(cp / 0x40), Tail6(cp)]
    else [(0xF0 + cp / 0x40000) as byte, Tail6(cp / 0x1000), Tail6(cp / 0x40), Tail6(cp)]
  }

  /** Every encoded character is valid text and has a boundary at its ends only,
      whatever follows it. */
  lemma EncodedIsOneCharacter(cp: nat, rest: Bytes)
    requires cp < 0x110000
    ensures var c := Encoded(cp);
            && IsUtf8(c) && !IsContinuation(c[0])
            && forall k :: 0 < k < |c| ==> !IsBoundary(c + rest, k)
  {
    var c := Encoded(cp);
    assert c[|c|..] == [];
    assert forall k :: 0 <= k < |c| ==> (c + rest)[k] == c[k];
  }

  /** Cutting valid text at a boundary leaves valid text on both sides. */
  lemma {:induction false} CutAtBoundary(s: Bytes, k: nat)
    requires IsUtf8(s) && k <= |s| && IsBoundary(s, k)
    ensures IsUtf8(s[..k]) && IsUtf8(s[k..])
  {
    if k == 0 {
      assert s[..0] == [] && s[0..] == s;
    } else {
      var n := CharLength(s[0]);
      if k == |s| {
        assert s[..k] == s && s[k..] == [];
      } else {
        var rest := s[n..];
        assert k >= n;
        assert rest[k - n] == s[k];
        CutAtBoundary(rest, k - n);
        assert s[..k][n..] == rest[..k - n];
        assert s[k..] == rest[k - n..];
      }
    }
  }

  lemma {:induction false} ConcatUtf8(a: Bytes, b: Bytes)
    requires IsUtf8(a) && IsUtf8(b)
    ensures IsUtf8(a + b)
  {
    if a == [] {
      assert a + b == b;
    } else {
      hide IsUtf8;
      FirstChar(a);
      var n := CharLength(a[0]);
      ConcatUtf8(a[n..], b);
      assert (a + b)[n..] == a[n..] + b;
      CharInFront(a + b, n);
    }
  }

  lemma FirstChar(s: Bytes)
    requires s != [] && IsUtf8(s)
    ensures var n := CharLength(s[0]);
            0 < n <= |s| && (forall k :: 0 < k < n ==> IsContinuation(s[k])) && IsUtf8(s[n..])
  {
  }

  lemma CharInFront(s: Bytes, n: nat)
    requires s != [] && n == CharLength(s[0]) && 0 < n <= |s|
    requires (forall k :: 0 < k < n ==> IsContinuation(s[k])) && IsUtf8(s[n..])
    ensures IsUtf8(s)
  {
  }

  lemma Concat3Utf8(a: Bytes, b: Bytes, c: Bytes)
    requires IsUtf8(a) && IsUtf8(b) && IsUtf8(c)
    ensures IsUtf8(a + b + c)
  {
    ConcatUtf8(a, b);
    ConcatUtf8(a + b, c);
  }

  /** A character has at most four bytes, so a boundary is never more than
      three bytes away from any position. */
  lemma {:induction false} BoundaryNearby(s: Bytes, i: nat)
    requires IsUtf8(s) && i < |s|
    ensures i <= FloorBoundary(s, i) + 3
    ensures CeilBoundary(s, i) <= i + 3
  {
    var lo, hi := CharAt(s, i);
  }

  /** The character that covers position `i`. */
  lemma {:induction false} CharAt(s: Bytes, i: nat) returns (lo: nat, hi: nat)
    requires IsUtf8(s) && i < |s|
    ensures lo <= i < hi <= |s| && hi - lo <= 4
    ensures IsBoundary(s, lo) && IsBoundary(s, hi)
  {
    var n := CharLength(s[0]);
    if i < n {
      lo, hi := 0, n;
      if n < |s| { assert s[n..][0] == s[n]; }
    } else {
      lo, hi := CharAt(s[n..], i - n);
      if lo == 0 { assert s[n..][0] == s[n]; } else { assert s[n..][lo] == s[n + lo]; }
      if hi < |s[n..]| { assert s[n..][hi] == s[n + hi]; }
      lo, hi := lo + n, hi + n;
    }
  }

  predicate IsAscii(s: Bytes) {
    forall k :: 0 <= k < |s| ==> s[k] < 0x80
  }

  lemma {:induction false} AsciiIsUtf8(s: Bytes)
    requires IsAscii(s)
    ensures IsUtf8(s)
  {
    if s == [] {
    } else {
      AsciiIsUtf8(s[1..]);
    }
  }

  /** U+2026, three bytes. */
  const ELLIPSIS: Bytes := [0xE2, 0x80, 0xA6]
  /** U+2014, three bytes. */
  const EM_DASH: Bytes := [0xE2, 0x80, 0x94]

  /** `truncate_text`: `max` bounds the kept head, the marker comes on top. */
  function TruncateText(s: Bytes, max: nat): Bytes {
    if |s| > max then
      var cut := FloorBoundary(s, max);
      s[..cut] + ELLIPSIS + TruncatedNote(|s| - cut)
    else s
  }

  /** The last `h` at most `room` at which `text` can be cut between characters. */
  ghost predicate LongestHead(text: Bytes, h: nat, room: nat) {
    && h <= |text| && h <= room && IsBoundary(text, h)
    && forall k :: h < k <= room && k <= |text| ==> !IsBoundary(text, k)
  }

  /** `out` is the text itself when it fits, otherwise its longest head and a
      note whose count reads back as exactly the bytes that are missing. */
  ghost predicate HeadKept(out: Bytes, s: Bytes, max: nat) {
    var opens, closes := Ascii(" [truncated "), Ascii(" bytes]");
    if |s| <= max then out == s
    else exists h: nat, count: Bytes ::
      && LongestHead(s, h, max)
      && DigitsValue(count) == Some(|s| - h)
      && out == s[..h] + ELLIPSIS + (opens + count + closes)
  }

  lemma TruncateTextKeepsHead(s: Bytes, max: nat)
    ensures HeadKept(TruncateText(s, max), s, max)
  {
    if |s| > max {
      var h := FloorBoundary(s, max);
      DecRoundTrip(|s| - h);
      assert LongestHead(s, h, max);
    }
  }

  function TruncatedNote(dropped: nat): (note: Bytes)
    ensures IsAscii(note)
  {
    Ascii(" [truncated ") + Dec(dropped) + Ascii(" bytes]")
  }

  lemma TruncateTextIsUtf8(s: Bytes, max: nat)
    requires IsUtf8(s)
    ensures IsUtf8(TruncateText(s, max))
  {
    if |s| > max {
      var cut := FloorBoundary(s, max);
      CutAtBoundary(s, cut);
      EllipsisIsUtf8();
      AsciiIsUtf8(TruncatedNote(|s| - cut));
      hide IsUtf8;
      Concat3Utf8(s[..cut], ELLIPSIS, TruncatedNote(|s| - cut));
    }
  }

  lemma EllipsisIsUtf8()
    ensures IsUtf8(ELLIPSIS) && IsUtf8(EM_DASH)
  {
    assert ELLIPSIS[3..] == [] && EM_DASH[3..] == [];
  }

  /** The code point of a three-byte character. */
  function CodePoint3(c: Bytes): int
    requires |c| == 3
  {
    (c[0] as int - 0xE0) * 0x1000 + (c[1] as int - 0x80) * 0x40 + (c[2] as int - 0x80)
  }

  lemma MarksAreTheCharacters()
    ensures |ELLIPSIS| == 3 && CodePoint3(ELLIPSIS) == 0x2026
    ensures |EM_DASH| == 3 && CodePoint3(EM_DASH) == 0x2014
  {
  }
}
