/** The one-line note of a turn's tool calls inside a byte bound
    (`render_turn_tool_calls_bounded`). */
module RenderCalls {
  import opened Basics
  import opened Decimal
  import opened Parts
  import opened Utf8
  import Messages
  import Turns

  const COMMA: Bytes := Ascii(", ")

  /** The marker without its leading blank: it opens with the ellipsis. */
  function MoreCalls(hidden: nat): Bytes {
    ELLIPSIS + Ascii("(") + Dec(hidden) + if hidden == 1 then Ascii(" more call)") else Ascii(" more calls)")
  }

  function Marker(hidden: nat): Bytes {
    if hidden == 0 then [] else Ascii(" ") + MoreCalls(hidden)
  }

  /** The first `keep` calls, whole, and the number of all the others. */
  function Note(calls: seq<Bytes>, omitted: nat, keep: nat): Bytes
    requires keep <= |calls|
  {
    Join(calls[..keep], COMMA) + Marker(omitted + (|calls| - keep))
  }

  /** What closes a cut call: the marker when calls are hidden, else the ellipsis. */
  function CutMark(hidden: nat): Bytes {
    if hidden == 0 then ELLIPSIS else MoreCalls(hidden)
  }

  /** `mark` opens with the ellipsis and its count reads back as `hidden`. */
  ghost predicate Counts(mark: Bytes, hidden: nat) {
    var one, more := Ascii(" more call)"), Ascii(" more calls)");
    exists count: Bytes ::
      && mark == ELLIPSIS + Ascii("(") + count + (if hidden == 1 then one else more)
      && DigitsValue(count) == Some(hidden)
  }

  /** `note` is the longest head of `first` that fits with a mark behind it: the
      count of the hidden calls, or the ellipsis when there are none. When the
      bound cannot hold the mark it is the longest head alone. */
  ghost predicate CutNote(note: Bytes, first: Bytes, hidden: nat, limit: nat) {
    exists h: nat, mark: Bytes ::
      && (if hidden == 0 then mark == ELLIPSIS else Counts(mark, hidden))
      && if |mark| <= limit
         then LongestHead(first, h, limit - |mark|) && note == first[..h] + mark
         else LongestHead(first, h, limit) && note == first[..h]
  }

  lemma MoreCallsCounts(hidden: nat)
    ensures Counts(MoreCalls(hidden), hidden)
  {
    DecRoundTrip(hidden);
  }

  method RenderBounded(calls: seq<Bytes>, omitted: nat, limit: nat) returns (note: Option<Bytes>)
    ensures note.None? <==> calls == []
    ensures note.Some? ==> |note.value| <= limit
    ensures forall keep :: 0 < keep <= |calls| && |Note(calls, omitted, keep)| <= limit
              && (forall more :: keep < more <= |calls| ==> |Note(calls, omitted, more)| > limit)
              ==> note == Some(Note(calls, omitted, keep))
    ensures calls != [] && (forall keep :: 0 < keep <= |calls| ==> |Note(calls, omitted, keep)| > limit)
            ==> note.Some? && CutNote(note.value, calls[0], omitted + |calls| - 1, limit)
    ensures note.Some? && (forall k :: 0 <= k < |calls| ==> IsUtf8(calls[k])) ==> IsUtf8(note.value)
  {
    hide Join, MoreCalls, Counts, IsUtf8, IsBoundary;
    if calls == [] {
      return None;
    }
    var keep := |calls|;
    while true
      invariant 0 < keep <= |calls|
      invariant forall more :: keep < more <= |calls| ==> |Note(calls, omitted, more)| > limit
      decreases keep
    {
      var hidden := omitted + (|calls| - keep);
      var body := Join(calls[..keep], COMMA);
      if |body| + |Marker(hidden)| <= limit {
        NoteIsUtf8(calls, omitted, keep);
        return Some(body + Marker(hidden));
      }
      assert |Note(calls, omitted, keep)| > limit;
      if keep == 1 {
        var mark := CutMark(hidden);
        CutIsUtf8(calls[0], hidden);
        MoreCallsCounts(hidden);
        if |mark| <= limit {
          var h := FloorBoundary(calls[0], Min(limit - |mark|, |calls[0]|));
          assert LongestHead(calls[0], h, limit - |mark|);
          return Some(calls[0][..h] + mark);
        } else {
          var h := FloorBoundary(calls[0], Min(limit, |calls[0]|));
          assert LongestHead(calls[0], h, limit);
          return Some(calls[0][..h]);
        }
      }
      keep := keep - 1;
    }
  }

  lemma {:induction false} JoinIsUtf8(parts: seq<Bytes>)
    requires forall k :: 0 <= k < |parts| ==> IsUtf8(parts[k])
    ensures IsUtf8(Join(parts, COMMA))
  {
    hide IsUtf8;
    if |parts| == 0 {
      AsciiIsUtf8([]);
    } else if |parts| > 1 {
      JoinIsUtf8(parts[1..]);
      AsciiIsUtf8(COMMA);
      Concat3Utf8(parts[0], COMMA, Join(parts[1..], COMMA));
    }
  }

  lemma MoreCallsIsUtf8(hidden: nat)
    ensures IsUtf8(MoreCalls(hidden))
  {
    hide IsUtf8;
    var close := if hidden == 1 then Ascii(" more call)") else Ascii(" more calls)");
    EllipsisIsUtf8();
    AsciiIsUtf8(Ascii("("));
    AsciiIsUtf8(Dec(hidden));
    AsciiIsUtf8(close);
    Concat3Utf8(ELLIPSIS, Ascii("("), Dec(hidden));
    ConcatUtf8(ELLIPSIS + Ascii("(") + Dec(hidden), close);
  }

  lemma NoteIsUtf8(calls: seq<Bytes>, omitted: nat, keep: nat)
    requires keep <= |calls|
    ensures (forall k :: 0 <= k < |calls| ==> IsUtf8(calls[k])) ==> IsUtf8(Note(calls, omitted, keep))
  {
    hide IsUtf8, MoreCalls, Join;
    if forall k :: 0 <= k < |calls| ==> IsUtf8(calls[k]) {
      var hidden := omitted + (|calls| - keep);
      JoinIsUtf8(calls[..keep]);
      MoreCallsIsUtf8(hidden);
      AsciiIsUtf8(Ascii(" "));
      AsciiIsUtf8([]);
      ConcatUtf8(Ascii(" "), MoreCalls(hidden));
      ConcatUtf8(Join(calls[..keep], COMMA), Marker(hidden));
    }
  }

  lemma CutIsUtf8(first: Bytes, hidden: nat)
    ensures forall h: nat :: IsUtf8(first) && h <= |first| && IsBoundary(first, h)
              ==> IsUtf8(first[..h]) && IsUtf8(first[..h] + CutMark(hidden))
  {
    hide IsUtf8, MoreCalls;
    forall h: nat | IsUtf8(first) && h <= |first| && IsBoundary(first, h)
      ensures IsUtf8(first[..h]) && IsUtf8(first[..h] + CutMark(hidden))
    {
      CutAtBoundary(first, h);
      EllipsisIsUtf8();
      MoreCallsIsUtf8(hidden);
      ConcatUtf8(first[..h], CutMark(hidden));
    }
  }

  /** `note` is `body`, and behind it the count of the hidden calls if there are any. */
  ghost predicate NamesHidden(note: Bytes, body: Bytes, hidden: nat) {
    if hidden == 0 then note == body
    else exists mark: Bytes :: Counts(mark, hidden) && note == body + (Ascii(" ") + mark)
  }

  lemma MarkerNamesHidden(body: Bytes, hidden: nat)
    ensures NamesHidden(body + Marker(hidden), body, hidden)
  {
    hide MoreCalls, Counts;
    MoreCallsCounts(hidden);
    if hidden == 0 { assert body + [] == body; }
  }

  /** A note is its whole calls, comma-separated, and the count of all the others. */
  lemma NoteTells(calls: seq<Bytes>, omitted: nat, keep: nat)
    requires keep <= |calls|
    ensures exists body: Bytes ::
              && Joined(body, calls[..keep], Ascii(", "))
              && NamesHidden(Note(calls, omitted, keep), body, omitted + |calls| - keep)
  {
    hide Join, NamesHidden, Joined, Marker;
    JoinPlaces(calls[..keep], COMMA);
    MarkerNamesHidden(Join(calls[..keep], COMMA), omitted + |calls| - keep);
  }

  /** The marker names exactly the calls that are not shown: listed and omitted
      ones together, so shown plus named is every call the turn made, and the
      shown ones are the turn's first. */
  lemma NothingUnaccounted(turn: Turns.Turn, keep: nat)
    requires Turns.Flush(turn) != []
    requires keep <= |Turns.Flush(turn)[0].toolCalls|
    ensures var pair, all := Turns.Flush(turn)[0], Turns.AllCalls(turn.assistants);
            exists body: Bytes ::
              && Joined(body, all[..keep], Ascii(", "))
              && NamesHidden(Note(pair.toolCalls, pair.omittedToolCalls, keep), body, |all| - keep)
  {
    hide Join, NamesHidden, Joined, Note, Turns.Flush;
    Turns.CallsListedOrCounted(turn);
    var pair, all := Turns.Flush(turn)[0], Turns.AllCalls(turn.assistants);
    assert pair.toolCalls[..keep] == all[..keep];
    NoteTells(pair.toolCalls, pair.omittedToolCalls, keep);
  }

  /** A cut call still shows which tool ran, as soon as the name itself fits. */
  lemma NameIsShown(call: Messages.ToolCall, h: nat, room: nat)
    requires LongestHead(Turns.RenderToolCall(call), h, room) && |call.name| <= room
    ensures |call.name| <= h && Turns.RenderToolCall(call)[..h][..|call.name|] == call.name
  {
    hide Turns.RenderFields, Join, TruncateText;
    var text := Turns.RenderToolCall(call);
    assert text[..|call.name|] == call.name && text[|call.name|] == 40;
    assert IsBoundary(text, |call.name|);
  }
}
