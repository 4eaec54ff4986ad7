/** The writer's side: where the journal really ends (`clean_end`), and what an
    append leaves behind (`append_journal`). */
module Writer {
  import opened Basics
  import opened Lines
  import opened Messages
  import opened Codec

  /** Where the next message goes, and the newline a recovered torn tail is missing. */
  datatype AppendPoint = AppendPoint(offset: nat, prefix: Bytes)

  /** The append point for a journal whose last newline ends at `cut`. */
  function AppendPointAfter(c: Codec, b: Bytes, cut: nat): AppendPoint
    requires cut <= |b|
  {
    if cut == |b| then AppendPoint(cut, [])
    else if Classify(c, b[cut..]).Keep? then AppendPoint(|b|, [NL])
    else AppendPoint(cut, [])
  }

  /** `clean_end` as a value: behind the last newline, or behind a torn tail
      that is a complete message. A file without a newline starts over. */
  function CleanEndOf(c: Codec, b: Bytes): (point: AppendPoint)
    ensures point.offset <= |b|
  {
    var cut := LineStart(b, |b|);
    if cut == 0 then AppendPoint(0, []) else AppendPointAfter(c, b, cut)
  }

  /** `clean_end`: the block loop, back to the last newline, then a look at
      what follows it. `None` stands for a missing journal. */
  method CleanEnd(c: Codec, journal: Option<Bytes>, size: nat) returns (point: AppendPoint)
    requires size > 0
    ensures point == match journal case None => AppendPoint(0, []) case Some(b) => CleanEndOf(c, b)
  {
    if journal.None? || journal.value == [] {
      return AppendPoint(0, []);
    }
    var b := journal.value;
    var end := |b|;
    while true
      invariant 0 < end <= |b|
      invariant forall k :: end <= k < |b| ==> b[k] != NL
      decreases end
    {
      var start := SatSub(end, size);
      var bytes := b[start..end];
      var i := LineStart(bytes, |bytes|);
      if i > 0 {
        LastNewlineOfBlock(b, start, end, i);
        return AppendPointAfter(c, b, start + i);
      }
      assert forall k :: start <= k < end ==> b[k] == bytes[k - start];
      if start == 0 {
        LineStartIs(b, 0, |b|);
        return AppendPoint(0, []);
      }
      end := start;
    }
  }

  lemma LastNewlineOfBlock(b: Bytes, start: nat, end: nat, i: nat)
    requires start <= end <= |b| && i == LineStart(b[start..end], end - start) > 0
    requires forall k :: end <= k < |b| ==> b[k] != NL
    ensures LineStart(b, |b|) == start + i
  {
    var bytes := b[start..end];
    assert b[start + i - 1] == bytes[i - 1];
    forall k | start + i <= k < end ensures b[k] != NL {
      assert b[k] == bytes[k - start];
    }
    LineStartIs(b, start + i, |b|);
  }

  /** The lines of a batch, as the append builds them. */
  method SerializeBatch(c: Codec, batch: seq<Message>) returns (buf: Bytes)
    ensures buf == EncAll(c, batch)
  {
    buf := [];
    for i := 0 to |batch|
      invariant buf == EncAll(c, batch[..i])
    {
      buf := buf + c.enc(batch[i]);
      buf := buf + [NL];
      EncAllSnoc(c, batch[..i], batch[i]);
      assert batch[..i + 1] == batch[..i] + [batch[i]];
    }
    assert batch[..|batch|] == batch;
  }

  lemma EncAllSnoc(c: Codec, ms: seq<Message>, m: Message)
    ensures EncAll(c, ms + [m]) == EncAll(c, ms) + c.enc(m) + [NL]
  {
    EncAllAppend(c, ms, [m]);
    EncAllOne(c, m);
    Assoc(EncAll(c, ms), c.enc(m), [NL]);
  }

  /** What a completed append leaves: the journal up to the point, the prefix,
      the new lines. */
  function Appended(b: Bytes, point: AppendPoint, lines: Bytes): Bytes
    requires point.offset <= |b|
  {
    b[..point.offset] + point.prefix + lines
  }

  /** A completed save of `batch`. */
  function Saved(c: Codec, b: Bytes, batch: seq<Message>): Bytes {
    Appended(b, CleanEndOf(c, b), EncAll(c, batch))
  }

  /** A save that died after the truncation and `written` bytes. */
  function TornSave(c: Codec, b: Bytes, batch: seq<Message>, written: nat): Bytes {
    var point := CleanEndOf(c, b);
    var bytes := point.prefix + EncAll(c, batch);
    b[..point.offset] + bytes[..Min(written, |bytes|)]
  }

  // ----- what a save keeps -----

  /** Every terminated line of `b`, as bytes. */
  function TerminatedPart(b: Bytes): Bytes {
    b[..LineStart(b, |b|)]
  }

  /** No save, completed or torn, touches a terminated line. */
  lemma SavesKeepTerminatedLines(c: Codec, b: Bytes, batch: seq<Message>, written: nat)
    ensures TerminatedPart(b) <= Saved(c, b, batch)
    ensures TerminatedPart(b) <= TornSave(c, b, batch, written)
  {
    assert CleanEndOf(c, b).offset >= LineStart(b, |b|);
  }

  /** A prefix that ends a line stays part of the terminated lines. */
  lemma PrefixStaysTerminated(x: Bytes, b: Bytes)
    requires WholeLines(x) && x <= b
    ensures x <= TerminatedPart(b)
  {
    if x != [] {
      assert b[|x| - 1] == x[|x| - 1];
      assert LineStart(b, |b|) > |x| - 1;
    }
  }

  /** On whole lines the clean end is the end. */
  lemma CleanEndOfWholeLines(c: Codec, b: Bytes)
    requires WholeLines(b)
    ensures CleanEndOf(c, b) == AppendPoint(|b|, [])
  {
    WholeLinesIff(b);
  }

  /** On whole lines with a torn fragment behind them the clean end is in front
      of the fragment, or behind it when it is a complete message. */
  lemma CleanEndOfTorn(c: Codec, lines: Bytes, frag: Bytes)
    requires WholeLines(lines) && NoNewline(frag) && frag != []
    ensures CleanEndOf(c, lines + frag)
         == if lines == [] then AppendPoint(0, [])
            else if Classify(c, frag).Keep? then AppendPoint(|lines + frag|, [NL])
            else AppendPoint(|lines|, [])
  {
    TornLineStart(lines, frag);
    assert (lines + frag)[|lines|..] == frag;
  }

  lemma TornLineStart(lines: Bytes, frag: Bytes)
    requires WholeLines(lines) && NoNewline(frag)
    ensures LineStart(lines + frag, |lines + frag|) == |lines|
  {
    var b := lines + frag;
    if lines != [] { assert b[|lines| - 1] == lines[|lines| - 1]; }
    forall k | |lines| <= k < |b| ensures b[k] != NL {
      assert b[k] == frag[k - |lines|] && frag[k - |lines|] in frag;
    }
    LineStartIs(b, |lines|, |b|);
  }

  /** A save behind whole lines adds its lines and nothing else. */
  lemma SaveBehindLines(c: Codec, b: Bytes, ms: seq<Message>, batch: seq<Message>)
    requires WholeLines(b)
    ensures Saved(c, b + EncAll(c, ms), batch) == b + EncAll(c, ms + batch)
  {
    EncAllWholeLines(c, ms);
    var mid := b + EncAll(c, ms);
    CleanEndOfWholeLines(c, mid);
    hide EncAll, CleanEndOf;
    assert mid[..|mid|] + [] == mid;
    EncAllAppend(c, ms, batch);
    Assoc(b, EncAll(c, ms), EncAll(c, batch));
  }
}
