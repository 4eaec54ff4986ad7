/** When the block edges show: exactly which journals a backward scan of a given
    block size reads as they are meant, and which it reads differently. */
module BlockEdges {
  import opened Basics
  import opened Lines
  import opened Messages
  import opened Codec
  import opened BackwardScan
  import opened JournalScan
  import opened BackwardReader

  /** At `s` starts a non-empty line of nothing but white space, terminated, and
      a block ends in it. */
  predicate BlankEdge(b: Bytes, s: nat, size: nat)
    requires size > 0 && s <= |b|
  {
    var e := NextNewline(b, s);
    s < e < |b| && IsBlank(b[s..e]) && EndsBlock(s, e, |b|, size)
  }

  /** The trusted messages of the lines behind the one that starts at `s`. */
  function Behind(c: Codec, b: Bytes, s: nat): seq<Message>
    requires s <= |b|
  {
    if NextNewline(b, s) < |b| then Trusted(c, b, NextNewline(b, s) + 1).messages else []
  }

  /** Every blank line from `o` on that ends a block has `ms` behind it. */
  ghost predicate AllBehind(c: Codec, b: Bytes, o: nat, size: nat, ms: seq<Message>)
    requires size > 0
  {
    forall s: nat :: o <= s <= |b| && AtLineStart(b, s) && BlankEdge(b, s, size) ==> Behind(c, b, s) == ms
  }

  ghost predicate SomeBlankEdge(b: Bytes, o: nat, size: nat)
    requires size > 0
  {
    exists s: nat :: o <= s <= |b| && AtLineStart(b, s) && BlankEdge(b, s, size)
  }

  lemma NextLineStart(b: Bytes, o: nat, i: nat, s: nat)
    requires o <= i < |b| && NextNewline(b, o) == i
    requires o < s <= |b| && AtLineStart(b, s)
    ensures s >= i + 1
  {
  }

  lemma EdgesStep(c: Codec, b: Bytes, o: nat, i: nat, size: nat, ms: seq<Message>)
    requires size > 0 && o <= i < |b| && NextNewline(b, o) == i && AtLineStart(b, o)
    ensures AllBehind(c, b, o, size, ms)
       <==> (BlankEdge(b, o, size) ==> Trusted(c, b, i + 1).messages == ms) && AllBehind(c, b, i + 1, size, ms)
    ensures SomeBlankEdge(b, o, size) <==> BlankEdge(b, o, size) || SomeBlankEdge(b, i + 1, size)
  {
    hide BlankEdge, Trusted, NextNewline;
    forall s: nat | o < s <= |b| && AtLineStart(b, s) ensures s >= i + 1 {
      NextLineStart(b, o, i, s);
    }
    if AllBehind(c, b, o, size, ms) && BlankEdge(b, o, size) {
      assert Behind(c, b, o) == ms;
    }
  }

  lemma NoEdgesAtEnd(c: Codec, b: Bytes, o: nat, size: nat, ms: seq<Message>)
    requires size > 0 && o <= |b| && NextNewline(b, o) == |b| && AtLineStart(b, o)
    ensures AllBehind(c, b, o, size, ms) && !SomeBlankEdge(b, o, size)
  {
    forall s: nat | o <= s <= |b| && AtLineStart(b, s) ensures !BlankEdge(b, s, size) {
      assert s == o;
    }
  }

  /** Older lines never take a trusted message away. */
  lemma {:induction false} TrustedGrows(c: Codec, b: Bytes, o: nat, p: nat)
    requires o <= p <= |b| && AtLineStart(b, p)
    ensures |Trusted(c, b, p).messages| <= |Trusted(c, b, o).messages|
    decreases p - o
  {
    hide Trusted, Classify;
    if o < p {
      var i := NextNewline(b, o);
      assert i < p;
      TrustedGrows(c, b, i + 1, p);
      TrustedLine(c, b, o, i);
    }
  }

  lemma {:induction false} EdgeShortens(c: Codec, b: Bytes, o: nat, size: nat, ms: seq<Message>)
    requires size > 0 && o <= |b| && SomeBlankEdge(b, o, size) && |ms| > |Trusted(c, b, o).messages|
    ensures !AllBehind(c, b, o, size, ms)
  {
    hide Trusted;
    var s: nat :| o <= s <= |b| && AtLineStart(b, s) && BlankEdge(b, s, size);
    TrustedGrows(c, b, o, NextNewline(b, s) + 1);
  }

  /** One line put in front, as the journal means it and as the blocks read it. */
  lemma EdgeCases(line: Line, hard: bool, blocks: Scan, meant: Scan)
    requires |blocks.messages| <= |meant.messages| && (!blocks.stopped ==> blocks == meant)
    ensures var b', m' := Push(line, hard, blocks), Push(line, false, meant);
            && |b'.messages| <= |m'.messages|
            && (!b'.stopped <==> !blocks.stopped && line != Corrupt && !(line == Blank && hard))
            && (!b'.stopped ==> b' == m')
            && (!blocks.stopped ==> b'.messages == m'.messages)
            && (blocks.stopped ==> b' == blocks)
            && (m'.messages == meant.messages || (line.Keep? && !meant.stopped && |m'.messages| > |meant.messages|))
            && (m'.stopped <==> meant.stopped || line == Corrupt)
  {
  }

  /** The block scan stops exactly at corrupt lines and at blank lines that end a
      block, and loses messages exactly when such a blank line has some in
      front of it. */
  lemma {:induction false} BlankEdgesDecide(c: Codec, b: Bytes, o: nat, size: nat)
    requires RejectsBlank(c) && size > 0 && AtLineStart(b, o) && TornFits(c, b, size)
    ensures var blocks, meant := BlockwiseTail(c, b, o, size), Trusted(c, b, o);
            && |blocks.messages| <= |meant.messages|
            && (!blocks.stopped ==> blocks == meant)
            && (blocks.stopped <==> meant.stopped || SomeBlankEdge(b, o, size))
            && (blocks.messages == meant.messages <==> AllBehind(c, b, o, size, meant.messages))
    decreases |b| - o
  {
    hide BlockwiseTail, Trusted, TornFits, Classify, BlankEdge, AllBehind, SomeBlankEdge, Push;
    var i := NextNewline(b, o);
    if i == |b| {
      TornIsTrusted(c, b, o, size);
      TornNeverStops(c, b, o);
      NoEdgesAtEnd(c, b, o, size, Trusted(c, b, o).messages);
    } else {
      BlankEdgesDecide(c, b, i + 1, size);
      TrustedLine(c, b, o, i);
      BlockwiseStep(c, b, o, i, size);
      BlankIsEdge(c, b, o, i, size);
      var line, hard := Classify(c, b[o..i]), EndsBlock(o, i, |b|, size);
      EdgeCases(line, hard, BlockwiseTail(c, b, i + 1, size), Trusted(c, b, i + 1));
      EdgesStep(c, b, o, i, size, Trusted(c, b, o).messages);
      EdgesKeep(c, b, o, i, size);
    }
  }

  lemma TornNeverStops(c: Codec, b: Bytes, o: nat)
    requires o <= |b| && NextNewline(b, o) == |b|
    ensures !Trusted(c, b, o).stopped
  {
  }

  lemma BlankIsEdge(c: Codec, b: Bytes, o: nat, i: nat, size: nat)
    requires RejectsBlank(c) && size > 0 && o <= i < |b| && NextNewline(b, o) == i
    ensures BlankEdge(b, o, size) <==> Classify(c, b[o..i]) == Blank && EndsBlock(o, i, |b|, size)
  {
  }

  /** What the line at `o` adds is behind no edge further on. */
  lemma EdgesKeep(c: Codec, b: Bytes, o: nat, i: nat, size: nat)
    requires size > 0 && o <= i < |b| && NextNewline(b, o) == i
    ensures |Trusted(c, b, o).messages| > |Trusted(c, b, i + 1).messages| && SomeBlankEdge(b, i + 1, size)
        ==> !AllBehind(c, b, i + 1, size, Trusted(c, b, o).messages)
    ensures !SomeBlankEdge(b, i + 1, size) ==> AllBehind(c, b, i + 1, size, Trusted(c, b, o).messages)
  {
    hide Trusted, BlankEdge, NextNewline;
    if |Trusted(c, b, o).messages| > |Trusted(c, b, i + 1).messages| && SomeBlankEdge(b, i + 1, size) {
      EdgeShortens(c, b, i + 1, size, Trusted(c, b, o).messages);
    }
  }

  lemma PushedTail(line: Line, hard: bool, blocks: Scan, meant: Scan)
    requires IsSuffix(blocks.messages, meant.messages) && (!blocks.stopped ==> blocks == meant)
    ensures IsSuffix(Push(line, hard, blocks).messages, Push(line, false, meant).messages)
  {
    hide IsSuffix;
    if blocks.stopped {
      PushKeepsSuffix(line, false, meant, blocks.messages);
    } else {
      SuffixOfItself(Push(line, false, meant).messages);
    }
  }

  /** Whatever the blocks do, they read an end of what the journal means. */
  lemma {:induction false} BlocksReadTail(c: Codec, b: Bytes, o: nat, size: nat)
    requires RejectsBlank(c) && size > 0 && AtLineStart(b, o) && TornFits(c, b, size)
    ensures IsSuffix(BlockwiseTail(c, b, o, size).messages, Trusted(c, b, o).messages)
    decreases |b| - o
  {
    hide BlockwiseTail, Trusted, TornFits, Classify, Push, IsSuffix, AllBehind, SomeBlankEdge;
    var i := NextNewline(b, o);
    if i == |b| {
      TornIsTrusted(c, b, o, size);
      SuffixOfItself(Trusted(c, b, o).messages);
    } else {
      BlocksReadTail(c, b, i + 1, size);
      BlankEdgesDecide(c, b, i + 1, size);
      TrustedLine(c, b, o, i);
      BlockwiseStep(c, b, o, i, size);
      var blocks, meant := BlockwiseTail(c, b, i + 1, size), Trusted(c, b, i + 1);
      PushedTail(Classify(c, b[o..i]), EndsBlock(o, i, |b|, size), blocks, meant);
    }
  }

  // ----- the lines of a longer file -----

  /** The lines of `x` from `o` on, read in front of `newer`, in blocks counted
      from position `n`. */
  function EdgedLines(c: Codec, x: Bytes, o: nat, n: nat, size: nat, newer: Scan): Scan
    requires size > 0 && o <= |x|
    decreases |x| - o
  {
    var i := NextNewline(x, o);
    if i == |x| then newer
    else Push(Classify(c, x[o..i]), EndsBlock(o, i, n, size), EdgedLines(c, x, i + 1, n, size, newer))
  }

  /** A file is read as its first lines, in blocks counted from its end, in front
      of the rest. */
  lemma {:induction false} EdgedSplits(c: Codec, x: Bytes, y: Bytes, o: nat, size: nat)
    requires size > 0 && WholeLines(x) && AtLineStart(x, o)
    ensures BlockwiseTail(c, x + y, o, size)
         == EdgedLines(c, x, o, |x + y|, size, BlockwiseTail(c, x + y, |x|, size))
    decreases |x| - o
  {
    hide Classify, BlockwiseTail, EndsBlock;
    var i := NextNewline(x, o);
    if i == |x| {
      SplitsAtEnd(x, o);
    } else {
      NextNewlineIs(x + y, o, i);
      EdgedSplits(c, x, y, i + 1, size);
      SameLine(x, y, o, i);
      BlockwiseStep(c, x + y, o, i, size);
    }
  }

  lemma {:induction false} EdgedExtends(
    c: Codec, x: Bytes, o: nat, n: nat, size: nat, scan: Scan, newer: seq<Message>)
    requires size > 0 && o <= |x|
    ensures EdgedLines(c, x, o, n, size, Ahead(scan, newer)) == Ahead(EdgedLines(c, x, o, n, size, scan), newer)
    decreases |x| - o
  {
    hide Classify, Push, Ahead, EndsBlock;
    var i := NextNewline(x, o);
    if i == |x| {
    } else {
      EdgedExtends(c, x, i + 1, n, size, scan, newer);
      PushExtend(Classify(c, x[o..i]), EndsBlock(o, i, n, size), EdgedLines(c, x, i + 1, n, size, scan), newer);
    }
  }

  // ----- the exact condition -----

  /** The torn tail is complete or fits a block, and every blank line that ends a
      block has all the trusted messages behind it; or there are none. */
  ghost predicate ReadsTrusted(c: Codec, b: Bytes, size: nat)
    requires size > 0
  {
    if TornFits(c, b, size) then AllBehind(c, b, 0, size, Trusted(c, b, 0).messages)
    else Trusted(c, b, 0).messages == []
  }

  lemma {:induction false} OversizedTornStops(c: Codec, b: Bytes, o: nat, size: nat)
    requires RejectsBlank(c) && size > 0 && AtLineStart(b, o) && !TornFits(c, b, size)
    ensures BlockwiseTail(c, b, o, size) == Scan([], true)
    decreases |b| - o
  {
    hide BlockwiseTail, Trusted, TornFits, Classify;
    var i := NextNewline(b, o);
    if i == |b| {
      TornIsTrusted(c, b, o, size);
    } else {
      OversizedTornStops(c, b, i + 1, size);
      BlockwiseStep(c, b, o, i, size);
    }
  }

  /** On every journal the backward scan returns exactly the valid messages
      behind the last corrupt line if and only if no blank line at a block edge
      and no oversized torn tail stands in the way of any. */
  lemma ScanIsTrustedIff(c: Codec, b: Bytes, size: nat)
    requires RejectsBlank(c) && size > 0
    ensures BlockwiseTail(c, b, 0, size).messages == Trusted(c, b, 0).messages <==> ReadsTrusted(c, b, size)
  {
    hide BlockwiseTail, Trusted, TornFits, AllBehind;
    if TornFits(c, b, size) {
      BlankEdgesDecide(c, b, 0, size);
    } else {
      OversizedTornStops(c, b, 0, size);
    }
  }

  /** A journal without blank lines is read as it is meant when its torn tail fits. */
  lemma NoBlankLineReads(c: Codec, b: Bytes, size: nat)
    requires RejectsBlank(c) && size > 0 && NoBlankLine(b, 0) && TornFits(c, b, size)
    ensures ReadsTrusted(c, b, size)
  {
    hide BlockwiseTail, Trusted, TornFits, AllBehind, NoBlankLine;
    BlockwiseIsTrusted(c, b, 0, size);
    ScanIsTrustedIff(c, b, size);
  }

  // ----- the block size -----

  /** The last line is blank and terminated: every block size ends a block in it. */
  ghost predicate EndsBlank(b: Bytes) {
    exists s: nat :: s < |b| - 1 && AtLineStart(b, s) && NextNewline(b, s) == |b| - 1 && IsBlank(b[s..|b| - 1])
  }

  lemma EndsBlankReadsNothing(c: Codec, b: Bytes, size: nat)
    requires RejectsBlank(c) && size > 0 && EndsBlank(b)
    ensures BlockwiseTail(c, b, 0, size).messages == []
  {
    var s: nat :| s < |b| - 1 && AtLineStart(b, s) && NextNewline(b, s) == |b| - 1 && IsBlank(b[s..|b| - 1]);
    BlankLineAtEdgeStops(c, b, s, size);
    assert b[|b|..] == [] && IsBlank([]);
  }

  /** A block as long as the file has an edge in the last line only. */
  lemma OneBlock(c: Codec, b: Bytes, size: nat)
    requires RejectsBlank(c) && size > |b| && !EndsBlank(b)
    ensures ReadsTrusted(c, b, size)
  {
    hide Trusted, IsBlank;
    forall s: nat | s <= |b| && AtLineStart(b, s) ensures !BlankEdge(b, s, size) {
      var e := NextNewline(b, s);
      if s < e < |b| && e + 1 < |b| {
        assert EdgeBefore(|b|, e + 1, size) == EdgeBefore(|b| - size, e + 1, size) < 0;
      }
    }
  }

  ghost predicate SizesAgree(c: Codec, b: Bytes) {
    forall size: nat, other: nat :: size > 0 && other > 0 ==>
      BlockwiseTail(c, b, 0, size).messages == BlockwiseTail(c, b, 0, other).messages
  }

  /** Every position is an edge of blocks of one byte: what they read as it is
      meant, blocks of every size do. */
  lemma OneByteIsHardest(c: Codec, b: Bytes, size: nat)
    requires RejectsBlank(c) && size > 0 && ReadsTrusted(c, b, 1)
    ensures ReadsTrusted(c, b, size)
  {
    hide Trusted, Behind, IsBlank, NextNewline;
    forall s: nat | s <= |b| && AtLineStart(b, s) && BlankEdge(b, s, size) ensures BlankEdge(b, s, 1) {
      EveryByteIsEdge(|b|, NextNewline(b, s) + 1);
    }
    forall s: nat | s <= |b| && AtLineStart(b, s) ensures |Behind(c, b, s)| <= |Trusted(c, b, 0).messages| {
      BehindIsShorter(c, b, s);
    }
  }

  lemma {:induction false} EveryByteIsEdge(n: int, x: int)
    requires x <= n
    ensures EdgeBefore(n, x, 1) == x
    decreases n - x
  {
    if n == x {
    } else {
      EveryByteIsEdge(n - 1, x);
    }
  }

  lemma BehindIsShorter(c: Codec, b: Bytes, s: nat)
    requires s <= |b| && AtLineStart(b, s)
    ensures |Behind(c, b, s)| <= |Trusted(c, b, 0).messages|
  {
    hide Trusted;
    if NextNewline(b, s) < |b| {
      TrustedGrows(c, b, 0, NextNewline(b, s) + 1);
    }
  }

  /** All block sizes read the same if and only if blocks of one byte read the
      journal as it is meant, or its last line is blank and all read nothing. */
  lemma BlockSizeIrrelevantIff(c: Codec, b: Bytes)
    requires RejectsBlank(c)
    ensures SizesAgree(c, b) <==> EndsBlank(b) || ReadsTrusted(c, b, 1)
  {
    hide BlockwiseTail, Trusted, ReadsTrusted, EndsBlank;
    forall size: nat | size > 0
      ensures BlockwiseTail(c, b, 0, size).messages == Trusted(c, b, 0).messages <==> ReadsTrusted(c, b, size)
      ensures EndsBlank(b) ==> BlockwiseTail(c, b, 0, size).messages == []
    {
      ScanIsTrustedIff(c, b, size);
      if EndsBlank(b) { EndsBlankReadsNothing(c, b, size); }
    }
    if !EndsBlank(b) {
      var one := |b| + 1;
      OneBlock(c, b, one);
      assert BlockwiseTail(c, b, 0, one).messages == Trusted(c, b, 0).messages;
      if SizesAgree(c, b) {
        assert BlockwiseTail(c, b, 0, 1).messages == BlockwiseTail(c, b, 0, one).messages;
      }
      if ReadsTrusted(c, b, 1) {
        forall size: nat | size > 0 ensures ReadsTrusted(c, b, size) {
          OneByteIsHardest(c, b, size);
        }
      }
    }
  }

  // ----- the blank line, inside a block and at its end -----

  /** A blank line strictly inside a block is skipped: the whole scan is the
      lines in front of it read onto the lines behind it. */
  lemma BlankLineInsideIsSkipped(c: Codec, b: Bytes, s: nat, size: nat)
    requires RejectsBlank(c) && size > 0 && AtLineStart(b, s)
    requires var e := NextNewline(b, s); s < e < |b| && IsBlank(b[s..e]) && !EndsBlock(s, e, |b|, size)
    ensures BlockwiseTail(c, b, 0, size)
         == EdgedLines(c, b[..s], 0, |b|, size, BlockwiseTail(c, b, NextNewline(b, s) + 1, size))
  {
    var e := NextNewline(b, s);
    BlockwiseStep(c, b, s, e, size);
    assert Classify(c, b[s..e]) == Blank;
    hide BlockwiseTail, EdgedLines, NextNewline, IsBlank, EndsBlock, Classify;
    assert b[..s] + b[s..] == b && WholeLines(b[..s]);
    EdgedSplits(c, b[..s], b[s..], 0, size);
  }

  /** A blank line that a block ends in stops the scan: only what lies behind
      it is returned. */
  lemma BlankLineAtEdgeStops(c: Codec, b: Bytes, s: nat, size: nat)
    requires RejectsBlank(c) && size > 0 && AtLineStart(b, s)
    requires var e := NextNewline(b, s); s < e < |b| && IsBlank(b[s..e]) && EndsBlock(s, e, |b|, size)
    ensures BlockwiseTail(c, b, 0, size).messages == BlockwiseTail(c, b, NextNewline(b, s) + 1, size).messages
  {
    var e := NextNewline(b, s);
    BlockwiseStep(c, b, s, e, size);
    assert Classify(c, b[s..e]) == Blank;
    assert BlockwiseTail(c, b, s, size).stopped;
    OlderLinesInFront(c, b, 0, s, size);
  }
}
