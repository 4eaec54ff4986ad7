/** The cut that keeps both ends inside a byte bound (`truncate_text_keeping_edges`). */
module Truncation {
  import opened Basics
  import opened Decimal
  import opened Utf8

  const MARKER_RESERVE: nat := 128

  const MARKER_MIDDLE: Bytes := Ascii(" bytes dropped from the middle ")
  const MARKER_HINT: Bytes := Ascii(" re-read with offset/limit to see the gap] ")

  function DropMarkerOf(count: Bytes): Bytes {
    [NL] + ELLIPSIS + Ascii(" [") + count + MARKER_MIDDLE + EM_DASH + MARKER_HINT + ELLIPSIS + [NL]
  }

  function DropMarker(dropped: nat): Bytes {
    DropMarkerOf(Dec(dropped))
  }

  /** What the cut keeps: everything, the head only, or `[..headEnd]` and `[tailStart..]`. */
  datatype Cut = Whole | HeadOnly | Edges(headEnd: nat, tailStart: nat)

  function EdgeCut(s: Bytes, max: nat): Cut {
    if |s| <= max then Whole
    else
      var budget := SatSub(max, MARKER_RESERVE);
      if budget == 0 then HeadOnly
      else
        var headEnd := FloorBoundary(s, budget * 2 / 3);
        var tailStart := CeilBoundary(s, |s| - (budget - headEnd));
        if headEnd == 0 || headEnd >= tailStart || tailStart >= |s| then HeadOnly
        else Edges(headEnd, tailStart)
  }

  function TruncateKeepingEdges(s: Bytes, max: nat): Bytes {
    match EdgeCut(s, max)
    case Whole => s
    case HeadOnly => TruncateText(s, max)
    case Edges(h, t) => s[..h] + DropMarker(t - h) + s[t..]
  }

  /** The marker's fixed part is 87 bytes, so it fits the reserve with any
      `usize` count. */
  lemma MarkerFitsReserve(dropped: nat)
    requires dropped < USIZE_LIMIT
    ensures |DropMarker(dropped)| == 87 + |Dec(dropped)| <= MARKER_RESERVE - 21 == 107
  {
    UsizeDigits(dropped);
  }

  /** The two cut points: on character boundaries, in order, and together
      buying no more than the budget. */
  lemma EdgesFitBudget(s: Bytes, max: nat)
    requires EdgeCut(s, max).Edges?
    ensures var Edges(h, t) := EdgeCut(s, max);
            && 0 < h < t < |s| && IsBoundary(s, h) && IsBoundary(s, t)
            && h + (|s| - t) + MARKER_RESERVE <= max
  {
  }

  /** The budget is used up to one character at each cut: the head takes two
      thirds of it, the tail what the head leaves. */
  lemma EdgesFillBudget(s: Bytes, max: nat)
    requires IsUtf8(s) && EdgeCut(s, max).Edges?
    ensures var Edges(h, t) := EdgeCut(s, max);
            var budget := max - 128;
            && h <= budget * 2 / 3 <= h + 3
            && |s| - t <= budget - h <= |s| - t + 3
  {
    var budget := max - MARKER_RESERVE;
    var head := FloorBoundary(s, budget * 2 / 3);
    hide IsUtf8;
    BoundaryNearby(s, budget * 2 / 3);
    BoundaryNearby(s, |s| - (budget - head));
  }

  /** `out` is a head of `s`, the marker and a tail of `s`, both ends non-empty
      and cut between characters, and the marker's count reads back as exactly
      the bytes of `s` that are missing. */
  ghost predicate KeepsBothEnds(s: Bytes, out: Bytes, head: Bytes, count: Bytes, tail: Bytes) {
    && head != [] && tail != []
    && |head| + |tail| < |s| && head <= s && tail == s[|s| - |tail|..]
    && IsBoundary(s, |head|) && IsBoundary(s, |s| - |tail|)
    && out == head + DropMarkerOf(count) + tail
    && DigitsValue(count) == Some(|s| - |head| - |tail|)
  }

  lemma KeepsBothEndsAt(s: Bytes, h: nat, t: nat)
    requires 0 < h < t < |s| && IsBoundary(s, h) && IsBoundary(s, t)
    ensures KeepsBothEnds(s, s[..h] + DropMarker(t - h) + s[t..], s[..h], Dec(t - h), s[t..])
  {
    DecRoundTrip(t - h);
    var n := |s[t..]|;
    assert |s| - n == t;
  }

  /** Whenever both ends are kept, the result also fits the bound. */
  lemma KeepingEdgesBound(s: Bytes, max: nat)
    requires |s| < USIZE_LIMIT
    requires EdgeCut(s, max).Edges?
    ensures |TruncateKeepingEdges(s, max)| <= max
    ensures exists head: Bytes, count: Bytes, tail: Bytes ::
              KeepsBothEnds(s, TruncateKeepingEdges(s, max), head, count, tail)
  {
    hide EdgeCut, DropMarkerOf, KeepsBothEnds;
    EdgesFitBudget(s, max);
    var cut := EdgeCut(s, max);
    var h, t := cut.headEnd, cut.tailStart;
    MarkerFitsReserve(t - h);
    KeepsBothEndsAt(s, h, t);
  }

  /** The head-only cut never fits: its note comes on top of a head that is at
      most three bytes short of the bound. */
  lemma HeadOnlyOverruns(s: Bytes, max: nat)
    requires IsUtf8(s) && |s| > max
    ensures |TruncateText(s, max)| > max
  {
    BoundaryNearby(s, max);
    hide IsUtf8, FloorBoundary;
    var cut := FloorBoundary(s, max);
    assert |TruncatedNote(|s| - cut)| > 3;
  }

  /** Short text comes back whole; longer text with both ends, or with the longest
      head that fits and the missing bytes counted on top of it. */
  lemma KeepingEdgesMeans(s: Bytes, max: nat)
    ensures var out := TruncateKeepingEdges(s, max);
            && (|s| <= max <==> EdgeCut(s, max).Whole?)
            && (EdgeCut(s, max).Edges?
                ==> exists head: Bytes, count: Bytes, tail: Bytes :: KeepsBothEnds(s, out, head, count, tail))
            && (!EdgeCut(s, max).Edges? ==> HeadKept(out, s, max))
  {
    hide DropMarkerOf, KeepsBothEnds, HeadKept, TruncateText, FloorBoundary, CeilBoundary;
    TruncateTextKeepsHead(s, max);
    var cut := EdgeCut(s, max);
    if cut.Whole? {
      WholeIsKept(s, max);
    } else if cut.Edges? {
      var h, t := cut.headEnd, cut.tailStart;
      EdgesFitBudget(s, max);
      KeepsBothEndsAt(s, h, t);
      assert KeepsBothEnds(s, TruncateKeepingEdges(s, max), s[..h], Dec(t - h), s[t..]);
    }
  }

  lemma WholeIsKept(s: Bytes, max: nat)
    requires |s| <= max
    ensures HeadKept(s, s, max)
  {
  }

  /** The result fits the bound exactly when the text fits or keeps both ends. */
  lemma BoundHeldIff(s: Bytes, max: nat)
    requires IsUtf8(s) && |s| < USIZE_LIMIT
    ensures |TruncateKeepingEdges(s, max)| <= max <==> !EdgeCut(s, max).HeadOnly?
  {
    match EdgeCut(s, max)
    case Whole =>
    case HeadOnly => HeadOnlyOverruns(s, max);
    case Edges(_, _) => KeepingEdgesBound(s, max);
  }

  /** The result of the cut is valid text again. */
  lemma KeepingEdgesIsUtf8(s: Bytes, max: nat)
    requires IsUtf8(s)
    ensures IsUtf8(TruncateKeepingEdges(s, max))
  {
    hide DropMarker, IsUtf8, EdgeCut, TruncateText;
    TruncateTextIsUtf8(s, max);
    var cut := EdgeCut(s, max);
    if cut.Edges? {
      EdgesFitBudget(s, max);
      CutAtBoundary(s, cut.headEnd);
      CutAtBoundary(s, cut.tailStart);
      MarkerIsUtf8(cut.tailStart - cut.headEnd);
      Concat3Utf8(s[..cut.headEnd], DropMarker(cut.tailStart - cut.headEnd), s[cut.tailStart..]);
    }
  }

  /** The marker is valid text: its parts are ASCII or whole characters. */
  lemma MarkerIsUtf8(dropped: nat)
    ensures IsUtf8(DropMarker(dropped))
  {
    EllipsisIsUtf8();
    AsciiIsUtf8([NL]);
    AsciiIsUtf8(Ascii(" ["));
    AsciiIsUtf8(Dec(dropped));
    AsciiIsUtf8(MARKER_MIDDLE);
    AsciiIsUtf8(MARKER_HINT);
    NinePartsUtf8([NL], ELLIPSIS, Ascii(" ["), Dec(dropped), MARKER_MIDDLE, EM_DASH, MARKER_HINT, ELLIPSIS, [NL]);
  }

  lemma NinePartsUtf8(a: Bytes, b: Bytes, c: Bytes, d: Bytes, e: Bytes, f: Bytes, g: Bytes, h: Bytes, i: Bytes)
    requires IsUtf8(a) && IsUtf8(b) && IsUtf8(c) && IsUtf8(d) && IsUtf8(e)
    requires IsUtf8(f) && IsUtf8(g) && IsUtf8(h) && IsUtf8(i)
    ensures IsUtf8(a + b + c + d + e + f + g + h + i)
  {
    ConcatUtf8(a, b);
    ConcatUtf8(a + b, c);
    ConcatUtf8(a + b + c, d);
    ConcatUtf8(a + b + c + d, e);
    ConcatUtf8(a + b + c + d + e, f);
    ConcatUtf8(a + b + c + d + e + f, g);
    ConcatUtf8(a + b + c + d + e + f + g, h);
    ConcatUtf8(a + b + c + d + e + f + g + h, i);
  }

  /** Below the floor no text keeps both ends; at the floor every ASCII text does. */
  lemma FloorForAscii(s: Bytes, max: nat)
    requires IsAscii(s) && |s| > max
    ensures EdgeCut(s, max).Edges? <==> max >= 130
  {
  }

  /** The smallest bound for which every text keeps both ends, whatever its
      characters: eight bytes above the documented floor of 130. */
  const UNIVERSAL_CAP: nat := 138

  lemma EdgesAboveUniversalCap(s: Bytes, max: nat)
    requires IsUtf8(s) && |s| > max >= UNIVERSAL_CAP
    ensures EdgeCut(s, max).Edges?
  {
    var budget := max - MARKER_RESERVE;
    var headEnd := FloorBoundary(s, budget * 2 / 3);
    assert headEnd > 0 by { BoundaryNearby(s, budget * 2 / 3); }
    var from := |s| - (budget - headEnd);
    LastCharacter(s, from);
  }

  /** Four bytes before the end there is always a boundary left to start a tail at. */
  lemma LastCharacter(s: Bytes, from: nat)
    requires IsUtf8(s) && from + 4 <= |s|
    ensures CeilBoundary(s, from) < |s|
  {
    BoundaryNearby(s, from);
  }

  /** Text that defeats every smaller bound: ASCII ended by one four-byte character. */
  function WideTail(n: nat): Bytes {
    seq(n, _ => 97 as byte) + [0xF0, 0x9F, 0x98, 0x80]
  }

  lemma WideTailLosesItsEnd(max: nat)
    requires max < UNIVERSAL_CAP
    ensures IsUtf8(WideTail(max)) && |WideTail(max)| > max && !EdgeCut(WideTail(max), max).Edges?
  {
    var s := WideTail(max);
    WideTailShape(max);
    var budget := SatSub(max, MARKER_RESERVE);
    if budget > 0 {
      var want := budget * 2 / 3;
      assert FloorBoundary(s, want) == want;
      assert CeilBoundary(s, |s| - (budget - want)) == |s|;
    }
  }

  lemma WideTailShape(n: nat)
    ensures var s := WideTail(n);
            && IsUtf8(s) && |s| == n + 4
            && (forall k :: 0 <= k <= n ==> IsBoundary(s, k))
            && (forall k :: n < k < n + 4 ==> !IsBoundary(s, k))
  {
    var head: Bytes, wide: Bytes := seq(n, _ => 97 as byte), [0xF0, 0x9F, 0x98, 0x80];
    AsciiIsUtf8(head);
    assert wide[4..] == [];
    ConcatUtf8(head, wide);
    var s := WideTail(n);
    assert s[n] == 0xF0 && s[n + 1] == 0x9F && s[n + 2] == 0x98 && s[n + 3] == 0x80;
  }

  /** Both ends survive for every text exactly from `UNIVERSAL_CAP` on. */
  lemma EdgesKeptForEveryTextIff(max: nat)
    ensures (forall s :: IsUtf8(s) && |s| > max ==> EdgeCut(s, max).Edges?) <==> max >= UNIVERSAL_CAP
  {
    if max >= UNIVERSAL_CAP {
      forall s | IsUtf8(s) && |s| > max ensures EdgeCut(s, max).Edges? {
        EdgesAboveUniversalCap(s, max);
      }
    } else {
      WideTailLosesItsEnd(max);
      var s := WideTail(max);
      assert IsUtf8(s) && |s| > max && !EdgeCut(s, max).Edges?;
    }
  }
}
