/** The reader's backward side: `scan_backwards`, `read_prior`, `read_all`. */
module BackwardReader {
  import opened Basics
  import opened Lines
  import opened Messages
  import opened ToolCallRepair
  import opened Depth
  import opened Codec
  import opened BackwardScan
  import opened JournalScan

  // ----- a scan that stops keeps what it has -----

  lemma {:induction false} OlderLinesInFront(c: Codec, b: Bytes, o: nat, p: nat, size: nat)
    requires size > 0 && o <= p <= |b| && (o == p || b[p - 1] == NL)
    ensures BlockwiseTail(c, b, p, size).stopped ==> BlockwiseTail(c, b, o, size) == BlockwiseTail(c, b, p, size)
    ensures IsSuffix(BlockwiseTail(c, b, p, size).messages, BlockwiseTail(c, b, o, size).messages)
    decreases p - o
  {
    hide BlockwiseTail, Classify, EndsBlock;
    if o == p {
      SuffixOfItself(BlockwiseTail(c, b, p, size).messages);
    } else {
      var i := NextNewline(b, o);
      OlderLinesInFront(c, b, i + 1, p, size);
      BlockwiseStep(c, b, o, i, size);
      var tail := BlockwiseTail(c, b, i + 1, size);
      PushKeepsSuffix(Classify(c, b[o..i]), EndsBlock(o, i, |b|, size), tail, BlockwiseTail(c, b, p, size).messages);
    }
  }

  ghost predicate IsSuffix<T(!new)>(ys: seq<T>, zs: seq<T>) {
    exists xs :: zs == xs + ys
  }

  lemma SuffixOfItself<T(!new)>(ys: seq<T>)
    ensures IsSuffix(ys, ys) && IsSuffix([], ys)
  {
    assert ys == [] + ys && ys == ys + [];
  }

  lemma PushKeepsSuffix(line: Line, hard: bool, scan: Scan, ys: seq<Message>)
    requires IsSuffix(ys, scan.messages)
    ensures IsSuffix(ys, Push(line, hard, scan).messages)
  {
    var xs :| scan.messages == xs + ys;
    if line.Keep? {
      Assoc([line.message], xs, ys);
      assert Push(line, hard, scan).messages in {xs + ys, ([line.message] + xs) + ys};
    } else {
      assert Push(line, hard, scan).messages == xs + ys;
    }
  }

  lemma StateIsSuffix(c: Codec, b: Bytes, size: nat, r: nat, carry: Option<Bytes>, messages: seq<Message>)
    requires size > 0 && ScanState(c, b, size, r, carry, messages)
    ensures IsSuffix(messages, BlockwiseTail(c, b, 0, size).messages)
  {
    hide BlockwiseTail, IsEdge;
    if AtLineStart(b, r) {
      OlderLinesInFront(c, b, 0, r, size);
    } else if NextNewline(b, r) < |b| {
      OlderLinesInFront(c, b, 0, NextNewline(b, r) + 1, size);
    } else {
      SuffixOfItself(BlockwiseTail(c, b, 0, size).messages);
    }
  }

  // ----- the loops -----

  /** What the scan returned, before the repair, against the whole journal:
      a tail of it, the whole of it unless the depth was already covered. */
  ghost predicate CoversDepth(all: seq<Message>, raw: seq<Message>, depth: PriorDepth) {
    raw == all || (Satisfied(raw, depth) && IsSuffix(raw, all))
  }

  /** Where the scan that has reached `r` ends, and what it has then. */
  function ScanValue(
    c: Codec, b: Bytes, size: nat, depth: PriorDepth, r: nat, carry: Option<Bytes>, messages: seq<Message>)
    : (nat, seq<Message>)
    requires size > 0 && r <= |b|
    decreases r
  {
    if r == 0 || Satisfied(messages, depth) then (r, messages)
    else
      var start := SatSub(r, size);
      var block := ParseBlockValue(c, PrevByte(b, start), b[start..r], carry);
      if block.stop then (start, block.messages + messages)
      else ScanValue(c, b, size, depth, start, block.carry, block.messages + messages)
  }

  /** Whether the whole-journal scan gets to the head of the file. */
  predicate ReachesHead(c: Codec, b: Bytes, size: nat)
    requires size > 0
  {
    Scanned(c, b, size, All).0 == 0
  }

  /** A scan that is still running: how far it has read and what it holds. */
  datatype Reading = Reading(offset: nat, carry: Option<Bytes>, messages: seq<Message>)

  /** The unbounded scan after `blocks` blocks, `None` once a line has stopped it. */
  function ScanAfter(c: Codec, b: Bytes, size: nat, blocks: nat): (r: Option<Reading>)
    requires size > 0
    ensures r.Some? ==> r.value.offset <= |b|
  {
    if blocks == 0 then Some(Reading(|b|, None, []))
    else
      match ScanAfter(c, b, size, blocks - 1)
      case None => None
      case Some(before) =>
        if before.offset == 0 then Some(before)
        else
          var start := SatSub(before.offset, size);
          var block := ParseBlockValue(c, PrevByte(b, start), b[start..before.offset], before.carry);
          if block.stop then None else Some(Reading(start, block.carry, block.messages + before.messages))
  }

  lemma {:induction false} ScanAfterState(c: Codec, b: Bytes, size: nat, blocks: nat)
    requires RejectsBlank(c) && size > 0 && ScanAfter(c, b, size, blocks).Some?
    ensures var r := ScanAfter(c, b, size, blocks).value; ScanState(c, b, size, r.offset, r.carry, r.messages)
  {
    hide ScanState, ParseBlockValue;
    if blocks == 0 {
      StartState(c, b, size);
    } else {
      ScanAfterState(c, b, size, blocks - 1);
      var before := ScanAfter(c, b, size, blocks - 1).value;
      if before.offset > 0 { BlockStep(c, b, before.offset, size, before.carry, before.messages); }
    }
  }

  /** After every block the scan holds a carry exactly when the byte before its
      read offset exists and does not end a line, and the carry is the rest of
      that line as far as the file has it. */
  lemma CarryIffMidLine(c: Codec, b: Bytes, size: nat, blocks: nat)
    requires RejectsBlank(c) && size > 0 && ScanAfter(c, b, size, blocks).Some?
    requires ScanAfter(c, b, size, blocks).value.offset < |b|
    ensures var r := ScanAfter(c, b, size, blocks).value;
            && (r.carry.Some? <==> r.offset > 0 && b[r.offset - 1] != NL)
            && (r.carry.Some? ==> r.carry.value == b[r.offset..NextNewline(b, r.offset)])
  {
    hide ScanState, ScanAfter, NextNewline;
    ScanAfterState(c, b, size, blocks);
    var r := ScanAfter(c, b, size, blocks).value;
    CarryOfState(c, b, size, r.offset, r.carry, r.messages);
  }

  lemma CarryOfState(c: Codec, b: Bytes, size: nat, r: nat, carry: Option<Bytes>, messages: seq<Message>)
    requires size > 0 && r < |b| && ScanState(c, b, size, r, carry, messages)
    ensures carry == if AtLineStart(b, r) then None else Some(b[r..NextNewline(b, r)])
  {
    hide BlockwiseTail, IsEdge, NextNewline;
    assert b[r..|b|] == b[r..];
  }

  /** What the blocks gave: all of the whole-file reading, or a tail of it that
      covers the depth. */
  lemma {:induction false} ScanValueCovers(
    c: Codec, b: Bytes, size: nat, depth: PriorDepth, r: nat, carry: Option<Bytes>, messages: seq<Message>)
    requires RejectsBlank(c) && size > 0 && ScanState(c, b, size, r, carry, messages)
    ensures var all, raw := BlockwiseTail(c, b, 0, size).messages, ScanValue(c, b, size, depth, r, carry, messages).1;
            CoversDepth(all, raw, depth)
    decreases r
  {
    hide BlockwiseTail, ParseBlockValue, IsEdge, Satisfied, IsSuffix;
    StateIsSuffix(c, b, size, r, carry, messages);
    if r > 0 && !Satisfied(messages, depth) {
      var start := SatSub(r, size);
      var block := ParseBlockValue(c, PrevByte(b, start), b[start..r], carry);
      BlockStep(c, b, r, size, carry, messages);
      if block.stop {
        var o := FirstLineFrom(b, start);
        OlderLinesInFront(c, b, 0, o, size);
      } else {
        ScanValueCovers(c, b, size, depth, start, block.carry, block.messages + messages);
      }
    }
  }

  /** What the whole scan of a file returns before its repair. */
  function Scanned(c: Codec, b: Bytes, size: nat, depth: PriorDepth): (nat, seq<Message>)
    requires size > 0
  {
    ScanValue(c, b, size, depth, |b|, None, [])
  }

  /** `scan_backwards` without the repair. */
  method ScanBlocks(c: Codec, file: Bytes, size: nat, depth: PriorDepth)
    returns (readOffset: nat, messages: seq<Message>)
    requires RejectsBlank(c) && size > 0
    ensures CoversDepth(BlockwiseTail(c, file, 0, size).messages, messages, depth)
    ensures (readOffset, messages) == Scanned(c, file, size, depth)
    ensures depth.All? && !BlockwiseTail(c, file, 0, size).stopped ==> readOffset == 0
  {
    hide BlockwiseTail, ParseBlockValue;
    readOffset, messages := |file|, [];
    var carry: Option<Bytes> := None;
    StartState(c, file, size);
    while readOffset > 0 && !Satisfied(messages, depth)
      invariant ScanState(c, file, size, readOffset, carry, messages)
      invariant ScanValue(c, file, size, depth, readOffset, carry, messages)
             == ScanValue(c, file, size, depth, |file|, None, [])
      decreases readOffset
    {
      var start := SatSub(readOffset, size);
      var block := ParseBlock(c, PrevByte(file, start), file[start..readOffset], carry);
      BlockStep(c, file, readOffset, size, carry, messages);
      readOffset, carry, messages := start, block.carry, block.messages + messages;
      if block.stop {
        var o := FirstLineFrom(file, start);
        OlderLinesInFront(c, file, 0, o, size);
        return;
      }
    }
    StateIsSuffix(c, file, size, readOffset, carry, messages);
  }

  /** The scan only stays short of the head when an untrusted line stops it. */
  lemma {:induction false} UnstoppedReachesHead(
    c: Codec, b: Bytes, size: nat, r: nat, carry: Option<Bytes>, messages: seq<Message>)
    requires RejectsBlank(c) && size > 0 && ScanState(c, b, size, r, carry, messages)
    requires !BlockwiseTail(c, b, 0, size).stopped
    ensures ScanValue(c, b, size, All, r, carry, messages).0 == 0
    decreases r
  {
    hide BlockwiseTail, ParseBlockValue, IsEdge;
    if r > 0 {
      var start := SatSub(r, size);
      var block := ParseBlockValue(c, PrevByte(b, start), b[start..r], carry);
      BlockStep(c, b, r, size, carry, messages);
      if block.stop {
        var o := FirstLineFrom(b, start);
        OlderLinesInFront(c, b, 0, o, size);
        assert false;
      }
      UnstoppedReachesHead(c, b, size, start, block.carry, block.messages + messages);
    }
  }

  /** Where the block that starts at 0 ends. */
  function HeadBlockEnd(n: nat, size: nat): (end: nat)
    requires size > 0
    ensures end <= n && (n > 0 ==> 0 < end <= size)
    decreases n
  {
    if n <= size then n else HeadBlockEnd(n - size, size)
  }

  /** No line that starts behind the block at 0 stops the scan. */
  predicate HeadIsClear(c: Codec, b: Bytes, size: nat)
    requires size > 0
  {
    var o := FirstLineFrom(b, HeadBlockEnd(|b|, size));
    o <= |b| ==> !BlockwiseTail(c, b, o, size).stopped
  }

  lemma StateIsClear(c: Codec, b: Bytes, size: nat, r: nat, carry: Option<Bytes>, messages: seq<Message>)
    requires size > 0 && ScanState(c, b, size, r, carry, messages)
    ensures FirstLineFrom(b, r) <= |b| ==> !BlockwiseTail(c, b, FirstLineFrom(b, r), size).stopped
  {
    hide BlockwiseTail, IsEdge;
  }

  lemma FirstLineGrows(b: Bytes, p: nat, q: nat)
    requires p <= q <= |b|
    ensures FirstLineFrom(b, p) <= FirstLineFrom(b, q)
  {
  }

  /** A stop behind the head block keeps it from being read. */
  lemma StopBehindHead(c: Codec, b: Bytes, size: nat, p: nat)
    requires size > 0 && HeadBlockEnd(|b|, size) <= p <= |b|
    requires FirstLineFrom(b, p) <= |b| && BlockwiseTail(c, b, FirstLineFrom(b, p), size).stopped
    ensures !HeadIsClear(c, b, size)
  {
    hide BlockwiseTail, NextNewline, HeadBlockEnd;
    var h := HeadBlockEnd(|b|, size);
    FirstLineGrows(b, h, p);
    OlderLinesInFront(c, b, FirstLineFrom(b, h), FirstLineFrom(b, p), size);
  }

  lemma {:induction false} ReachesHeadFrom(
    c: Codec, b: Bytes, size: nat, r: nat, carry: Option<Bytes>, messages: seq<Message>)
    requires RejectsBlank(c) && size > 0 && ScanState(c, b, size, r, carry, messages)
    requires r > 0 && HeadBlockEnd(r, size) == HeadBlockEnd(|b|, size)
    ensures ScanValue(c, b, size, All, r, carry, messages).0 == 0 <==> HeadIsClear(c, b, size)
    decreases r
  {
    hide BlockwiseTail, ParseBlockValue, IsEdge, ScanState, FirstLineFrom;
    if r <= size {
      StateIsClear(c, b, size, r, carry, messages);
    } else {
      StateInFile(c, b, size, r, carry, messages);
      var start := SatSub(r, size);
      var block := ParseBlockValue(c, PrevByte(b, start), b[start..r], carry);
      BlockStep(c, b, r, size, carry, messages);
      if block.stop {
        StopBehindHead(c, b, size, start);
      } else {
        ReachesHeadFrom(c, b, size, start, block.carry, block.messages + messages);
      }
    }
  }

  lemma StateInFile(c: Codec, b: Bytes, size: nat, r: nat, carry: Option<Bytes>, messages: seq<Message>)
    requires size > 0 && ScanState(c, b, size, r, carry, messages)
    ensures r <= |b|
  {
  }

  /** The scan of any journal gets to offset 0 exactly when nothing stops it
      behind the block that starts there: it may still stop in that block. */
  lemma ReachesHeadIff(c: Codec, b: Bytes, size: nat)
    requires RejectsBlank(c) && size > 0
    ensures ReachesHead(c, b, size) <==> HeadIsClear(c, b, size)
  {
    hide BlockwiseTail, ScanState, ParseBlockValue;
    StartState(c, b, size);
    if b == [] {
      StateIsClear(c, b, size, |b|, None, []);
    } else {
      ReachesHeadFrom(c, b, size, |b|, None, []);
    }
  }

  lemma StartState(c: Codec, b: Bytes, size: nat)
    requires RejectsBlank(c) && size > 0
    ensures ScanState(c, b, size, |b|, None, [])
  {
    assert IsBlank([]);
    assert b[|b|..] == [];
    NextNewlineIs(b, |b|, |b|);
  }

  /** `scan_backwards`: the blocks, then the repair of what they gave. */
  method ScanBackwards(c: Codec, file: Bytes, size: nat, depth: PriorDepth)
    returns (readOffset: nat, messages: seq<Message>)
    requires RejectsBlank(c) && size > 0
    ensures readOffset == Scanned(c, file, size, depth).0
    ensures messages == Repair(Scanned(c, file, size, depth).1)
    ensures CoversDepth(BlockwiseTail(c, file, 0, size).messages, Scanned(c, file, size, depth).1, depth)
  {
    hide BlockwiseTail;
    readOffset, messages := ScanBlocks(c, file, size, depth);
    var origin;
    messages, origin := RepairDanglingToolCalls(messages);
  }

  /** `read_all`: the whole journal, whatever the block size. */
  method ReadAll(c: Codec, file: Bytes, size: nat) returns (messages: seq<Message>)
    requires RejectsBlank(c) && size > 0
    ensures messages == Repair(BlockwiseTail(c, file, 0, size).messages)
  {
    var readOffset;
    readOffset, messages := ScanBackwards(c, file, size, All);
  }

  /** `read_prior`: the slice that covers `depth` in what the scan collected. It
      is the slice of the whole journal exactly when the collected tail covers
      the depth after its repair, or the older lines change nothing. */
  method ReadPrior(c: Codec, file: Bytes, size: nat, depth: PriorDepth)
    returns (messages: seq<Message>, reachedHead: bool)
    requires RejectsBlank(c) && size > 0
    ensures messages == Slice(Repair(Scanned(c, file, size, depth).1), depth)
    ensures reachedHead <==> Scanned(c, file, size, depth).0 == 0
    ensures var all, raw := BlockwiseTail(c, file, 0, size).messages, Scanned(c, file, size, depth).1;
            messages == Slice(Repair(all), depth) <==> Satisfied(Repair(raw), depth) || Repair(all) == Repair(raw)
    ensures depth.All? ==> messages == Repair(BlockwiseTail(c, file, 0, size).messages)
    ensures NoDangling(BlockwiseTail(c, file, 0, size).messages)
        ==> messages == Slice(BlockwiseTail(c, file, 0, size).messages, depth)
  {
    hide BlockwiseTail, Satisfied, SliceStart, Repair, ScanValue, NoDangling;
    var readOffset, tail := ScanBackwards(c, file, size, depth);
    ghost var all, raw := BlockwiseTail(c, file, 0, size).messages, Scanned(c, file, size, depth).1;
    messages := tail[SliceStart(tail, depth)..];
    reachedHead := readOffset == 0;
    ScanIsSliceIff(all, raw, depth);
    if NoDangling(all) {
      UndamagedScanIsSlice(all, raw, depth);
    }
    if depth.All? {
      AllKeepsEverything(tail, raw, depth);
      AllKeepsEverything(Repair(all), raw, depth);
    }
  }

  lemma AllKeepsEverything(ms: seq<Message>, raw: seq<Message>, depth: PriorDepth)
    requires depth.All?
    ensures Slice(ms, depth) == ms && !Satisfied(raw, depth)
  {
  }

  lemma ScanIsSliceIff(all: seq<Message>, raw: seq<Message>, depth: PriorDepth)
    requires CoversDepth(all, raw, depth)
    ensures Slice(Repair(raw), depth) == Slice(Repair(all), depth)
       <==> Satisfied(Repair(raw), depth) || Repair(all) == Repair(raw)
  {
    hide Satisfied, Slice, Repair;
    if raw != all {
      var older: seq<Message> :| all == older + raw;
      EarlyStopIsSoundIff(older, raw, depth);
    }
  }

  lemma UndamagedScanIsSlice(all: seq<Message>, raw: seq<Message>, depth: PriorDepth)
    requires CoversDepth(all, raw, depth) && NoDangling(all)
    ensures Slice(Repair(raw), depth) == Slice(all, depth)
  {
    hide Satisfied, Slice, Repair, Dangling;
    RepairIsIdentityIff(all);
    if raw != all {
      var older: seq<Message> :| all == older + raw;
      NoDanglingSuffix(older, raw);
      RepairIsIdentityIff(raw);
      SliceOfCoveringTail(older, raw, depth);
    }
  }

  /** Every call of a suffix is answered inside the suffix. */
  lemma NoDanglingSuffix(xs: seq<Message>, ys: seq<Message>)
    requires NoDangling(xs + ys)
    ensures NoDangling(ys)
  {
    hide Dangling;
    forall i | 0 <= i < |ys| ensures !Dangling(ys[i], ys[i + 1..]) {
      var j := |xs| + i;
      assert !Dangling((xs + ys)[j], (xs + ys)[j + 1..]);
      assert (xs + ys)[j + 1..] == ys[i + 1..];
    }
  }

  // ----- what the block scan means -----

  /** The torn tail is complete, or short enough for the first block to see it whole. */
  ghost predicate TornFits(c: Codec, b: Bytes, size: nat) {
    |TornTail(b)| <= size || c.dec(TornTail(b)).Some?
  }

  /** No terminated line from `o` on is whitespace only. */
  predicate NoBlankLine(b: Bytes, o: nat)
    requires o <= |b|
    decreases |b| - o
  {
    var i := NextNewline(b, o);
    i == |b| || ((i == o || !IsBlank(b[o..i])) && NoBlankLine(b, i + 1))
  }

  lemma SplitsAtEnd(x: Bytes, o: nat)
    requires WholeLines(x) && AtLineStart(x, o) && NextNewline(x, o) == |x|
    ensures o == |x| && NoBlankLine(x, o)
  {
  }

  lemma LastLineIsTorn(b: Bytes, o: nat)
    requires AtLineStart(b, o) && NextNewline(b, o) == |b|
    ensures TornTail(b) == b[o..]
  {
    LineStartIs(b, o, |b|);
  }

  lemma TrustedLine(c: Codec, b: Bytes, o: nat, i: nat)
    requires o <= i < |b| && NextNewline(b, o) == i
    ensures Trusted(c, b, o) == Push(Classify(c, b[o..i]), false, Trusted(c, b, i + 1))
    ensures NoBlankLine(b, o) <==> (i == o || !IsBlank(b[o..i])) && NoBlankLine(b, i + 1)
  {
  }

  /** Without blank lines the scan is either exactly the trusted lines or, when
      the torn tail does not fit, nothing at all. */
  lemma {:induction false} BlockwiseIsTrusted(c: Codec, b: Bytes, o: nat, size: nat)
    requires RejectsBlank(c) && size > 0 && AtLineStart(b, o) && NoBlankLine(b, o)
    ensures BlockwiseTail(c, b, o, size) == if TornFits(c, b, size) then Trusted(c, b, o) else Scan([], true)
    decreases |b| - o
  {
    hide BlockwiseTail, Trusted, NoBlankLine, TornFits, Classify;
    var i := NextNewline(b, o);
    if i == |b| {
      TornIsTrusted(c, b, o, size);
    } else {
      TrustedLine(c, b, o, i);
      BlockwiseIsTrusted(c, b, i + 1, size);
      BlankOnlyIfBlank(c, b[o..i]);
      BlockwiseStep(c, b, o, i, size);
    }
  }

  lemma TornIsTrusted(c: Codec, b: Bytes, o: nat, size: nat)
    requires RejectsBlank(c) && size > 0 && AtLineStart(b, o) && NextNewline(b, o) == |b|
    ensures BlockwiseTail(c, b, o, size) == if TornFits(c, b, size) then Trusted(c, b, o) else Scan([], true)
  {
    LastLineIsTorn(b, o);
  }

  lemma BlankOnlyIfBlank(c: Codec, line: Bytes)
    ensures Classify(c, line) == Blank ==> IsBlank(line) && line != []
  {
  }
}
