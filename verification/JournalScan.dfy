/** The backward scan over the whole journal: every block adds exactly its own
    lines, whatever the block size. */
module JournalScan {
  import opened Basics
  import opened Lines
  import opened Messages
  import opened Codec
  import opened BackwardScan

  /** The scan has read `[r..]`: `messages` are the messages of the lines that
      start there, `carry` is what it holds of the line that spans `r`. */
  ghost predicate ScanState(c: Codec, b: Bytes, size: nat, r: nat, carry: Option<Bytes>, messages: seq<Message>)
    requires size > 0
  {
    && r <= |b|
    && (r == 0 || IsEdge(|b|, r, size))
    && (if AtLineStart(b, r) then
          carry == None && BlockwiseTail(c, b, r, size) == Scan(messages, false)
        else
          var i := NextNewline(b, r);
          if i < |b| then
            carry == Some(b[r..i]) && BlockwiseTail(c, b, i + 1, size) == Scan(messages, false)
          else
            messages == [] && carry == if r == |b| then None else Some(b[r..]))
  }

  // ----- block edges -----

  lemma {:induction false} NextEdge(n: int, q: int, size: nat)
    requires size > 0 && IsEdge(n, q, size)
    ensures IsEdge(n, q - size, size)
    decreases n - q
  {
    if n != q { NextEdge(n - size, q, size); }
  }

  lemma EdgeGap(n: int, q: int, size: nat)
    requires size > 0 && IsEdge(n, q, size)
    ensures q == n || q <= n - size
  {
  }

  lemma {:induction false} EdgeIsBefore(n: int, q: int, x: int, size: nat)
    requires size > 0 && IsEdge(n, q, size)
    ensures q <= x ==> EdgeBefore(n, x, size) >= q
    ensures x < q ==> EdgeBefore(n, x, size) == EdgeBefore(q, x, size)
    decreases n - q
  {
    if n != q { EdgeIsBefore(n - size, q, x, size); }
  }

  /** A line that a block edge `q` falls into ends a block. */
  lemma EdgeInsideEndsBlock(s: nat, e: nat, q: nat, n: nat, size: nat)
    requires size > 0 && s < q <= e + 1 && IsEdge(n, q, size)
    ensures EndsBlock(s, e, n, size)
  {
    EdgeIsBefore(n, q, e + 1, size);
  }

  /** A line strictly inside the block `[p..q)` does not. */
  lemma InsideBlockEndsNone(s: nat, e: nat, p: nat, q: nat, n: nat, size: nat)
    requires size > 0 && p <= s <= e && e + 1 < q && IsEdge(n, q, size) && p == SatSub(q, size)
    ensures !EndsBlock(s, e, n, size)
  {
    EdgeIsBefore(n, q, e + 1, size);
    assert EdgeBefore(q, e + 1, size) == q - size;
  }

  // ----- the lines of one block -----

  /** Whole lines `[o..h)` strictly inside a block fold like the block's
      complete lines. */
  lemma {:induction false} FoldIsTail(c: Codec, b: Bytes, o: nat, h: nat, p: nat, q: nat, size: nat)
    requires size > 0 && p <= o <= h < q <= |b| && p == SatSub(q, size) && IsEdge(|b|, q, size)
    requires o == h || b[h - 1] == NL
    ensures BlockwiseTail(c, b, o, size) == FoldLines(c, Split(b[o..h]), BlockwiseTail(c, b, h, size))
    decreases h - o
  {
    hide BlockwiseTail, FoldLines, Split, Classify, EndsBlock, EdgeBefore, IsEdge;
    if o == h {
      assert b[o..h] == [];
      FoldNothing(c, BlockwiseTail(c, b, h, size));
    } else {
      var i := NextNewline(b, o);
      FoldIsTail(c, b, i + 1, h, p, q, size);
      InsideBlockEndsNone(o, i, p, q, |b|, size);
      FoldStep(c, b, o, i, h, size);
    }
  }

  lemma FoldStep(c: Codec, b: Bytes, o: nat, i: nat, h: nat, size: nat)
    requires size > 0 && o <= i < h <= |b| && NextNewline(b, o) == i && !EndsBlock(o, i, |b|, size)
    requires BlockwiseTail(c, b, i + 1, size) == FoldLines(c, Split(b[i + 1..h]), BlockwiseTail(c, b, h, size))
    ensures BlockwiseTail(c, b, o, size) == FoldLines(c, Split(b[o..h]), BlockwiseTail(c, b, h, size))
  {
    hide BlockwiseTail, FoldLines, Split, Classify, EndsBlock, Push;
    SplitWindow(b, o, i, h);
    FoldLinesCons(c, b[o..i], Split(b[i + 1..h]), BlockwiseTail(c, b, h, size));
    BlockwiseStep(c, b, o, i, size);
  }

  lemma FoldNothing(c: Codec, newer: Scan)
    ensures FoldLines(c, Split([]), newer) == newer
  {
    var pieces: seq<Bytes> := [[]];
    assert Split([]) == pieces && pieces[1..] == [];
  }

  lemma FoldLinesCons(c: Codec, line: Bytes, pieces: seq<Bytes>, newer: Scan)
    ensures FoldLines(c, [line] + pieces, newer) == Push(Classify(c, line), false, FoldLines(c, pieces, newer))
  {
    assert ([line] + pieces)[1..] == pieces;
  }

  lemma SplitWindow(b: Bytes, o: nat, i: nat, h: nat)
    requires o <= i < h <= |b| && NextNewline(b, o) == i
    ensures Split(b[o..h]) == [b[o..i]] + Split(b[i + 1..h])
  {
    hide Split;
    assert b[o..h] == b[o..i] + [NL] + b[i + 1..h];
    SplitFirst(b[o..i], b[i + 1..h]);
  }

  lemma BlockwiseStep(c: Codec, b: Bytes, o: nat, i: nat, size: nat)
    requires o <= i < |b| && NextNewline(b, o) == i && size > 0
    ensures BlockwiseTail(c, b, o, size)
         == Push(Classify(c, b[o..i]), EndsBlock(o, i, |b|, size), BlockwiseTail(c, b, i + 1, size))
  {
  }

  /** A terminated line at a block's end is read like the file's line. */
  lemma TerminatedIsTail(c: Codec, b: Bytes, h: nat, i: nat, q: nat, size: nat, messages: seq<Message>)
    requires size > 0 && IsEdge(|b|, q, size) && h < q <= i + 1 <= |b|
    requires NextNewline(b, h) == i && BlockwiseTail(c, b, i + 1, size) == Scan(messages, false)
    ensures Ahead(Push(Classify(c, b[h..i]), true, Scan([], false)), messages) == BlockwiseTail(c, b, h, size)
  {
    hide BlockwiseTail, Classify, EndsBlock, Push, NextNewline;
    EdgeInsideEndsBlock(h, i, q, |b|, size);
    PushExtend(Classify(c, b[h..i]), true, Scan([], false), messages);
    assert [] + messages == messages;
    BlockwiseStep(c, b, h, i, size);
  }

  /** The torn tail, seen in the first block or carried into an older one. */
  lemma TornIsTail(c: Codec, b: Bytes, h: nat, size: nat, carried: bool)
    requires RejectsBlank(c) && size > 0 && h < |b| && NextNewline(b, h) == |b|
    requires carried <==> |b| - h > size
    ensures (if carried then Push(Classify(c, b[h..]), true, Scan([], false)) else Scan(TornMessages(c, b[h..]), false))
         == BlockwiseTail(c, b, h, size)
  {
  }

  /** The block's last line, together with the carry, is read like the line
      of the file it is part of. */
  lemma SpanningIsTail(c: Codec, b: Bytes, h: nat, q: nat, size: nat, carry: Option<Bytes>, messages: seq<Message>)
    requires RejectsBlank(c) && size > 0 && ScanState(c, b, size, q, carry, messages)
    requires h < q <= h + size && forall k :: h <= k < q - 1 ==> b[k] != NL
    ensures Ahead(SpanningLine(c, HeadOfLast(b, h, q), carry, b[q - 1] == NL), messages) == BlockwiseTail(c, b, h, size)
  {
    hide Classify, BlockwiseTail;
    if b[q - 1] == NL {
      NextNewlineIs(b, h, q - 1);
      assert b[h..q - 1] + [] == b[h..q - 1];
      TerminatedIsTail(c, b, h, q - 1, q, size, messages);
    } else {
      var i := NextNewline(b, q);
      NextNewlineIs(b, h, i);
      if i < |b| {
        assert b[h..q] + b[q..i] == b[h..i];
        TerminatedIsTail(c, b, h, i, q, size, messages);
      } else {
        EdgeGap(|b|, q, size);
        TornIsTail(c, b, h, size, q < |b|);
        if q == |b| { assert b[h..q] == b[h..]; } else { assert b[h..q] + b[q..] == b[h..]; }
        var tail := BlockwiseTail(c, b, h, size);
        assert Ahead(tail, []) == tail by { assert tail.messages + [] == tail.messages; }
      }
    }
  }

  /** The block's share of its last line, without the newline. */
  function HeadOfLast(b: Bytes, h: nat, q: nat): Bytes
    requires h < q <= |b|
  {
    if b[q - 1] == NL then b[h..q - 1] else b[h..q]
  }

  /** The first line start at or after `p`, or the file's length plus one. */
  function FirstLineFrom(b: Bytes, p: nat): (o: nat)
    requires p <= |b|
    ensures p <= o && (o <= |b| ==> AtLineStart(b, o))
  {
    if AtLineStart(b, p) then p else NextNewline(b, p) + 1
  }

  function PrevByte(b: Bytes, p: nat): Option<byte>
    requires p <= |b|
  {
    if p == 0 then None else Some(b[p - 1])
  }

  /** How a block divides, in file coordinates. */
  lemma BlockDivides(b: Bytes, p: nat, q: nat)
    requires p < q <= |b|
    ensures var o := FirstLineFrom(b, p);
            && StartsMidLine(PrevByte(b, p)) == !AtLineStart(b, p)
            && RestOfBlock(PrevByte(b, p), b[p..q]) == (if o < q then b[o..q] else [])
            && FirstFragment(PrevByte(b, p), b[p..q]) == (if AtLineStart(b, p) then [] else b[p..Min(o - 1, q)])
  {
    if !AtLineStart(b, p) {
      BlockDividesMidLine(b, p, q, NextNewline(b, p));
    }
  }

  lemma BlockDividesMidLine(b: Bytes, p: nat, q: nat, i: nat)
    requires 0 < p < q <= |b| && b[p - 1] != NL && i == NextNewline(b, p)
    ensures RestOfBlock(Some(b[p - 1]), b[p..q]) == (if i + 1 < q then b[i + 1..q] else [])
    ensures FirstFragment(Some(b[p - 1]), b[p..q]) == b[p..Min(i, q)]
  {
    hide NextNewline;
    NextNewlineInWindow(b, p, q, 0);
    WindowCut(b, p, Min(i, q), q);
    if i < q { WindowCut(b, p, i + 1, q); }
  }

  /** A block without a line boundary of its own only lengthens the carry. */
  lemma BlockInsideLine(c: Codec, b: Bytes, q: nat, size: nat, carry: Option<Bytes>, messages: seq<Message>)
    requires size > 0 && q > 0 && ScanState(c, b, size, q, carry, messages)
    requires FirstLineFrom(b, SatSub(q, size)) >= q
    ensures var p := SatSub(q, size);
            ScanState(c, b, size, p, Some(b[p..Min(NextNewline(b, p), q)] + CarryBytes(carry)), messages)
  {
    hide BlockwiseTail;
    var p := SatSub(q, size);
    var i := NextNewline(b, p);
    NextEdge(|b|, q, size);
    hide IsEdge, NextNewline;
    GrowCarry(b, p, q, Max(q, i));
    if i == q - 1 {
      GrowCarry(b, p, i, i);
    } else {
      assert b[q - 1] != NL;
      NextNewlineIs(b, q, i);
    }
  }

  lemma GrowCarry(b: Bytes, p: nat, q: nat, i: nat)
    requires p <= q <= i <= |b|
    ensures b[p..q] + b[q..i] == b[p..i]
    ensures b[p..q] + b[q..] == b[p..] && b[p..|b|] == b[p..] && b[p..q] + [] == b[p..q]
  {
  }

  /** Where the block's last line starts. */
  function LastLineOf(b: Bytes, q: nat): (h: nat)
    requires 0 < q <= |b|
    ensures h < q && forall k :: h <= k < q - 1 ==> b[k] != NL
    ensures h > 0 ==> b[h - 1] == NL
  {
    LineStart(b, if b[q - 1] == NL then q - 1 else q)
  }

  /** The body of a block, divided into complete lines and the last line's head. */
  lemma BodyDivides(c: Codec, b: Bytes, o: nat, h: nat, e: nat, carry: Option<Bytes>, terminated: bool)
    requires o <= e <= |b| && AtLineStart(b, o) && h == LineStart(b, e)
    ensures o <= h && ParseBody(c, b[o..e], carry, terminated)
                      == FoldLines(c, Split(b[o..h]), SpanningLine(c, b[h..e], carry, terminated))
  {
    hide FoldLines, SpanningLine, Split, LineStart;
    LineStartInWindow(b, o, e);
    WindowCut(b, o, h, e);
  }

  lemma BodyOfRest(b: Bytes, o: nat, q: nat, e: nat)
    requires o < q <= |b| && e == if b[q - 1] == NL then q - 1 else q
    ensures var rest := b[o..q];
            (if EndsWithNewline(rest) then rest[..|rest| - 1] else rest) == b[o..e]
  {
    assert b[o..q][q - o - 1] == b[q - 1];
  }

  lemma WindowCut(b: Bytes, o: nat, h: nat, e: nat)
    requires o <= h <= e <= |b|
    ensures b[o..e][..h - o] == b[o..h] && b[o..e][h - o..] == b[h..e]
  {
  }

  lemma RestDivides(c: Codec, b: Bytes, o: nat, q: nat, carry: Option<Bytes>)
    requires o < q <= |b| && AtLineStart(b, o)
    ensures var h := LastLineOf(b, q);
            o <= h && ParseLines(c, b[o..q], carry, b[q - 1] == NL)
                      == FoldLines(c, Split(b[o..h]), SpanningLine(c, HeadOfLast(b, h, q), carry, b[q - 1] == NL))
  {
    hide FoldLines, SpanningLine, Split, LineStart, ParseBody, EndsWithNewline;
    var e := if b[q - 1] == NL then q - 1 else q;
    BodyOfRest(b, o, q, e);
    BodyDivides(c, b, o, LastLineOf(b, q), e, carry, b[q - 1] == NL);
  }

  /** What `parse_block` returns for a block with a line boundary, in file
      coordinates. */
  lemma BlockWithLines(c: Codec, b: Bytes, p: nat, q: nat, carry: Option<Bytes>)
    requires p < q <= |b| && FirstLineFrom(b, p) < q
    ensures var o := FirstLineFrom(b, p);
            var scan := ParseLines(c, b[o..q], carry, b[q - 1] == NL);
            ParseBlockValue(c, PrevByte(b, p), b[p..q], carry)
              == Block(scan.messages, if AtLineStart(b, p) then None else Some(b[p..o - 1]), scan.stopped)
  {
    hide ParseLines, FirstFragment, RestOfBlock;
    BlockDivides(b, p, q);
    assert EndsWithNewline(b[p..q]) == (b[q - 1] == NL) by { assert b[p..q][q - p - 1] == b[q - 1]; }
  }

  /** One block read: the scan state moves down to the block's start, or the
      scan stops with exactly what the whole file would give from there on. */
  lemma BlockStep(c: Codec, b: Bytes, q: nat, size: nat, carry: Option<Bytes>, messages: seq<Message>)
    requires RejectsBlank(c) && size > 0 && q > 0 && ScanState(c, b, size, q, carry, messages)
    ensures var p := SatSub(q, size);
            var block := ParseBlockValue(c, PrevByte(b, p), b[p..q], carry);
            && (!block.stop ==> ScanState(c, b, size, p, block.carry, block.messages + messages))
            && (block.stop ==> var o := FirstLineFrom(b, p);
                               o <= |b| && BlockwiseTail(c, b, o, size) == Scan(block.messages + messages, true))
  {
    var p := SatSub(q, size);
    if FirstLineFrom(b, p) >= q {
      BlockStepInsideLine(c, b, q, size, carry, messages);
    } else {
      BlockStepWithLines(c, b, q, size, carry, messages);
    }
  }

  lemma BlockStepInsideLine(c: Codec, b: Bytes, q: nat, size: nat, carry: Option<Bytes>, messages: seq<Message>)
    requires size > 0 && q > 0 && ScanState(c, b, size, q, carry, messages)
    requires FirstLineFrom(b, SatSub(q, size)) >= q
    ensures var p := SatSub(q, size);
            var block := ParseBlockValue(c, PrevByte(b, p), b[p..q], carry);
            !block.stop && ScanState(c, b, size, p, block.carry, block.messages + messages)
  {
    var p := SatSub(q, size);
    assert p < q <= |b|;
    hide ScanState, NextNewline;
    BlockIsInsideLine(c, b, p, q, carry);
    BlockInsideLine(c, b, q, size, carry, messages);
    assert [] + messages == messages;
  }

  /** What `parse_block` returns for a block without a line boundary. */
  lemma BlockIsInsideLine(c: Codec, b: Bytes, p: nat, q: nat, carry: Option<Bytes>)
    requires p < q <= |b| && FirstLineFrom(b, p) >= q
    ensures ParseBlockValue(c, PrevByte(b, p), b[p..q], carry)
         == Block([], Some(b[p..Min(NextNewline(b, p), q)] + CarryBytes(carry)), false)
  {
    hide FirstFragment, RestOfBlock, NextNewline, ParseLines;
    BlockDivides(b, p, q);
  }

  lemma BlockStepWithLines(c: Codec, b: Bytes, q: nat, size: nat, carry: Option<Bytes>, messages: seq<Message>)
    requires RejectsBlank(c) && size > 0 && q > 0 && ScanState(c, b, size, q, carry, messages)
    requires FirstLineFrom(b, SatSub(q, size)) < q
    ensures var p := SatSub(q, size);
            var block := ParseBlockValue(c, PrevByte(b, p), b[p..q], carry);
            && (!block.stop ==> ScanState(c, b, size, p, block.carry, block.messages + messages))
            && (block.stop ==> var o := FirstLineFrom(b, p);
                               o <= |b| && BlockwiseTail(c, b, o, size) == Scan(block.messages + messages, true))
  {
    hide FoldLines, SpanningLine, BlockwiseTail, Split, LineStart, NextNewline, ParseBlockValue, HeadOfLast,
      IsEdge, ParseLines;
    var p := SatSub(q, size);
    var o := FirstLineFrom(b, p);
    BlockWithLines(c, b, p, q, carry);
    RestDivides(c, b, o, q, carry);
    var h := LastLineOf(b, q);
    var spanning := SpanningLine(c, HeadOfLast(b, h, q), carry, b[q - 1] == NL);
    SpanningIsTail(c, b, h, q, size, carry, messages);
    FoldIsTail(c, b, o, h, p, q, size);
    FoldLinesExtend(c, Split(b[o..h]), spanning, messages);
    var scan := FoldLines(c, Split(b[o..h]), spanning);
    assert BlockwiseTail(c, b, o, size) == Scan(scan.messages + messages, scan.stopped);
    NextEdge(|b|, q, size);
  }
}
