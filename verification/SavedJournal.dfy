/** A completed save on any journal: the whole lines it builds on, and the new
    lines behind them. */
module SavedJournal {
  import opened Basics
  import opened Lines
  import opened Messages
  import opened Codec
  import opened BackwardScan
  import opened BackwardReader
  import opened ForwardReader
  import opened Writer
  import opened Anchors

  /** What a save keeps of the journal: up to the clean end, terminated. */
  function Base(c: Codec, b: Bytes): Bytes {
    b[..CleanEndOf(c, b).offset] + CleanEndOf(c, b).prefix
  }

  lemma BaseIsWholeLines(c: Codec, b: Bytes)
    ensures WholeLines(Base(c, b)) && |Base(c, b)| == CleanEndOf(c, b).offset + |CleanEndOf(c, b).prefix|
    ensures forall batch :: Saved(c, b, batch) == Base(c, b) + EncAll(c, batch)
  {
  }

  lemma CleanEndShape(c: Codec, b: Bytes)
    ensures var point := CleanEndOf(c, b);
            && (point.prefix == [] || (point.prefix == [NL] && point.offset == |b|))
            && (point.offset > 0 ==> Base(c, b) != [])
  {
  }

  /** What a torn save leaves, behind the lines it builds on. */
  lemma TornBehindBase(c: Codec, b: Bytes, batch: seq<Message>, written: nat)
    requires written >= |CleanEndOf(c, b).prefix|
    ensures var j := Min(written - |CleanEndOf(c, b).prefix|, |EncAll(c, batch)|);
            TornSave(c, b, batch, written) == Base(c, b) + EncAll(c, batch)[..j]
  {
    hide CleanEndOf, EncAll;
    var point, lines := CleanEndOf(c, b), EncAll(c, batch);
    var k := Min(written, |point.prefix + lines|);
    TakeAppend(point.prefix, lines, k);
    Assoc(b[..point.offset], point.prefix, lines[..k - |point.prefix|]);
    if k == |point.prefix| {
      assert lines[..0] == [] && (point.prefix + lines)[..k] == point.prefix + lines[..0];
    }
  }

  /** The lines of `x` from `o` on, read in front of `newer`. */
  function LinesOnto(c: Codec, x: Bytes, o: nat, newer: Scan): Scan
    requires o <= |x|
    decreases |x| - o
  {
    var i := NextNewline(x, o);
    if i == |x| then newer else Push(Classify(c, x[o..i]), false, LinesOnto(c, x, i + 1, newer))
  }

  lemma {:induction false} TrustedSplits(c: Codec, x: Bytes, y: Bytes, o: nat)
    requires WholeLines(x) && AtLineStart(x, o)
    ensures Trusted(c, x + y, o) == LinesOnto(c, x, o, Trusted(c, x + y, |x|))
    ensures NoBlankLine(x + y, o) <==> NoBlankLine(x, o) && NoBlankLine(x + y, |x|)
    decreases |x| - o
  {
    hide Classify, IsBlank, Trusted, NoBlankLine;
    var i := NextNewline(x, o);
    if i == |x| {
      SplitsAtEnd(x, o);
    } else {
      NextNewlineIs(x + y, o, i);
      TrustedSplits(c, x, y, i + 1);
      SameLine(x, y, o, i);
      TrustedLine(c, x + y, o, i);
      TrustedLine(c, x, o, i);
    }
  }

  lemma {:induction false} LinesOntoExtends(c: Codec, x: Bytes, o: nat, scan: Scan, newer: seq<Message>)
    requires o <= |x|
    ensures LinesOnto(c, x, o, Ahead(scan, newer)) == Ahead(LinesOnto(c, x, o, scan), newer)
    decreases |x| - o
  {
    hide Classify, Push, Ahead;
    var i := NextNewline(x, o);
    if i < |x| {
      LinesOntoExtends(c, x, i + 1, scan, newer);
      PushExtend(Classify(c, x[o..i]), false, LinesOnto(c, x, i + 1, scan), newer);
    }
  }

  /** Behind whole lines, new lines are read on top of what was there. */
  lemma TrustedAppended(c: Codec, x: Bytes, ms: seq<Message>)
    requires Lawful(c) && WholeLines(x)
    ensures Trusted(c, x + EncAll(c, ms), 0) == Ahead(Trusted(c, x, 0), Filter(ms, IsValid))
    ensures NoBlankLine(x, 0) ==> NoBlankLine(x + EncAll(c, ms), 0)
  {
    LawfulRejectsBlank(c);
    hide Lawful, Trusted, Forward, NoBlankLine, Uncorrupted, EncAll, LinesOnto, IsValid;
    var b := x + EncAll(c, ms);
    TrustedOfWritten(c, x, ms);
    TrustedSplits(c, x, EncAll(c, ms), 0);
    TrustedSplits(c, x, [], 0);
    assert x + [] == x;
    TrustedAtEnd(c, x);
    LinesOntoExtends(c, x, 0, Scan([], false), Filter(ms, IsValid));
    assert [] + Filter(ms, IsValid) == Filter(ms, IsValid);
  }

  lemma TrustedAtEnd(c: Codec, b: Bytes)
    requires RejectsBlank(c)
    ensures Trusted(c, b, |b|) == Scan([], false) && NoBlankLine(b, |b|)
  {
    assert b[|b|..] == [] && IsBlank([]);
  }

  lemma TrustedOfWritten(c: Codec, x: Bytes, ms: seq<Message>)
    requires Lawful(c) && WholeLines(x)
    ensures Trusted(c, x + EncAll(c, ms), |x|) == Scan(Filter(ms, IsValid), false)
    ensures NoBlankLine(x + EncAll(c, ms), |x|)
  {
    hide Lawful, Trusted, Forward, NoBlankLine, Uncorrupted, EncAll, TornTail, TornMessages, IsValid, Entries;
    var b := x + EncAll(c, ms);
    EncAllWholeLines(c, ms);
    AppendedAtLineStart(x, EncAll(c, ms));
    WrittenIsClean(c, x, ms);
    ReadersAgree(c, b, |x|);
    ForwardReadsWritten(c, x, ms);
    EntriesMessages(c, ms, |x|);
    NothingTorn(c, b);
    assert Filter(ms, IsValid) + [] == Filter(ms, IsValid);
  }

  /** The journal of completed saves, read from a line start on. */
  lemma WrittenFrom(c: Codec, x: Bytes, ms: seq<Message>, size: nat)
    requires Lawful(c) && WholeLines(x) && size > 0
    ensures WholeLines(x + EncAll(c, ms)) && AtLineStart(x + EncAll(c, ms), |x|)
    ensures TornTail(x + EncAll(c, ms)) == []
    ensures BlockwiseTail(c, x + EncAll(c, ms), |x|, size) == Scan(Filter(ms, IsValid), false)
  {
    LawfulRejectsBlank(c);
    hide Lawful, BlockwiseTail, Trusted, NoBlankLine, EncAll;
    var b := x + EncAll(c, ms);
    EncAllWholeLines(c, ms);
    AppendedAtLineStart(x, EncAll(c, ms));
    WholeLinesIff(b);
    TrustedOfWritten(c, x, ms);
    BlockwiseIsTrusted(c, b, |x|, size);
  }

  lemma NothingTorn(c: Codec, b: Bytes)
    requires WholeLines(b)
    ensures TornMessages(c, TornTail(b)) == []
  {
    WholeLinesIff(b);
  }

  lemma AppendedAtLineStart(x: Bytes, y: Bytes)
    requires WholeLines(x) && WholeLines(y)
    ensures AtLineStart(x + y, |x|) && WholeLines(x + y)
  {
  }

  /** A torn fragment read on top of whole lines. */
  lemma TrustedTorn(c: Codec, x: Bytes, frag: Bytes)
    requires RejectsBlank(c) && WholeLines(x) && NoNewline(frag)
    ensures Trusted(c, x + frag, 0) == Ahead(Trusted(c, x, 0), TornMessages(c, frag))
    ensures NoBlankLine(x + frag, 0) <==> NoBlankLine(x, 0)
  {
    TornIsLast(c, x, frag);
    hide Trusted, NoBlankLine, LinesOnto, TornMessages;
    TrustedSplits(c, x, frag, 0);
    TrustedSplits(c, x, [], 0);
    assert x + [] == x;
    TrustedAtEnd(c, x);
    LinesOntoExtends(c, x, 0, Scan([], false), TornMessages(c, frag));
    assert [] + TornMessages(c, frag) == TornMessages(c, frag);
  }

  lemma TornIsLast(c: Codec, x: Bytes, frag: Bytes)
    requires WholeLines(x) && NoNewline(frag)
    ensures Trusted(c, x + frag, |x|) == Scan(TornMessages(c, frag), false) && NoBlankLine(x + frag, |x|)
  {
    var b := x + frag;
    forall k | |x| <= k < |b| ensures b[k] != NL {
      assert b[k] == frag[k - |x|] && frag[k - |x|] in frag;
    }
    NextNewlineIs(b, |x|, |b|);
    assert b[|x|..] == frag;
  }
}
