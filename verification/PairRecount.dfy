/** What a recount gives behind a save: the journal's pairs and the batch's own. */
module PairRecount {
  import opened Basics
  import opened Lines
  import opened Messages
  import opened ToolCallRepair
  import opened Turns
  import opened Depth
  import opened Codec
  import opened BackwardScan
  import opened BackwardReader
  import opened BlockEdges
  import opened Writer
  import opened Session
  import opened Anchors
  import opened SavedJournal

  // ----- the count is additive -----

  /** The count of a journal whose trusted messages are `ms`. */
  function PairsOf(ms: seq<Message>): nat {
    TurnCount(Repair(ms))
  }

  /** One message alone is never a pair. */
  lemma OneMessageIsNoPair(ms: seq<Message>)
    requires |ms| <= 1
    ensures PairsOf(ms) == 0
  {
    RepairNotLonger(ms, false);
    hide RepairFrom, OpensTurn, KeepsTurnAlive;
    var kept := Repair(ms);
    if kept != [] {
      var rest: seq<Message> := [];
      assert kept[1..] == rest;
      assert TurnCount(kept) == TurnCount(rest) + if OpensTurn(kept[0]) && Lead(rest) then 1 else 0;
    }
  }

  /** What the save builds on: the whole lines, and a complete torn message
      made a line. A file without a newline starts over. */
  lemma BaseCases(c: Codec, lines: Bytes, frag: Bytes)
    requires WholeLines(lines) && NoNewline(frag)
    ensures LineStart(lines + frag, |lines + frag|) == |lines|
    ensures Base(c, lines + frag)
         == if lines == [] then []
            else if frag != [] && Classify(c, frag).Keep? then lines + (frag + [NL])
            else lines
  {
    var b := lines + frag;
    TornLineStart(lines, frag);
    if frag == [] {
      assert b == lines;
      CleanEndOfWholeLines(c, b);
      assert b[..|b|] + [] == lines;
    } else {
      CleanEndOfTorn(c, lines, frag);
      hide CleanEndOf, Classify;
      Assoc(lines, frag, [NL]);
      assert b[..|b|] == b && b[..|lines|] + [] == lines && b[..0] + [] == [];
    }
  }

  lemma DivideJournal(b: Bytes) returns (lines: Bytes, frag: Bytes)
    ensures b == lines + frag && WholeLines(lines) && NoNewline(frag)
  {
    var cut := LineStart(b, |b|);
    lines, frag := b[..cut], b[cut..];
  }

  /** It means what the journal meant, but for a file that starts over. */
  lemma BaseReadsLikeJournal(c: Codec, b: Bytes)
    requires RejectsBlank(c)
    ensures NoBlankLine(b, 0) ==> NoBlankLine(Base(c, b), 0)
    ensures LineStart(b, |b|) > 0 ==> Trusted(c, Base(c, b), 0) == Trusted(c, b, 0)
    ensures LineStart(b, |b|) == 0 ==> Base(c, b) == [] && |Trusted(c, b, 0).messages| <= 1
  {
    hide Trusted, NoBlankLine, Base, LineStart, Classify;
    var lines, frag := DivideJournal(b);
    BaseCases(c, lines, frag);
    TrustedTorn(c, lines, frag);
    if lines == [] {
      TrustedAtEnd(c, []);
      TornIsShort(c, frag);
    } else if frag != [] && Classify(c, frag).Keep? {
      TerminatedFragment(c, lines, frag);
    } else {
      TornIsNothing(c, frag);
      assert Trusted(c, lines, 0).messages + [] == Trusted(c, lines, 0).messages;
    }
  }

  lemma TornIsShort(c: Codec, frag: Bytes)
    ensures |TornMessages(c, frag)| <= 1
  {
  }

  lemma TornIsNothing(c: Codec, frag: Bytes)
    requires frag == [] || !Classify(c, frag).Keep?
    ensures TornMessages(c, frag) == []
  {
  }

  /** A recovered line reads the same with and without its newline. */
  lemma TerminatedFragment(c: Codec, lines: Bytes, frag: Bytes)
    requires RejectsBlank(c) && WholeLines(lines) && NoNewline(frag) && Classify(c, frag).Keep?
    ensures Trusted(c, lines + (frag + [NL]), 0) == Ahead(Trusted(c, lines, 0), TornMessages(c, frag))
    ensures NoBlankLine(lines, 0) ==> NoBlankLine(lines + (frag + [NL]), 0)
  {
    OneLineBehind(c, lines, frag);
    hide Trusted, NoBlankLine, LinesOnto, Classify, TornMessages;
    TrustedSplits(c, lines, frag + [NL], 0);
    TrustedSplits(c, lines, [], 0);
    assert lines + [] == lines;
    TrustedAtEnd(c, lines);
    LinesOntoExtends(c, lines, 0, Scan([], false), TornMessages(c, frag));
    assert [] + TornMessages(c, frag) == TornMessages(c, frag);
  }

  lemma OneLineBehind(c: Codec, lines: Bytes, frag: Bytes)
    requires RejectsBlank(c) && NoNewline(frag) && Classify(c, frag).Keep?
    ensures Trusted(c, lines + (frag + [NL]), |lines|) == Scan(TornMessages(c, frag), false)
    ensures NoBlankLine(lines + (frag + [NL]), |lines|)
  {
    hide Classify, Trusted, NoBlankLine, TornMessages, NextNewline;
    AppendNothing(lines + (frag + [NL]));
    WrittenNewline(lines, frag, []);
    WrittenLine(lines, frag, []);
    LastLineReads(c, lines + (frag + [NL]), |lines|, frag);
  }

  lemma AppendNothing(b: Bytes)
    ensures b + [] == b
  {
  }

  lemma LastLineReads(c: Codec, b: Bytes, o: nat, line: Bytes)
    requires RejectsBlank(c) && Classify(c, line).Keep?
    requires |b| == o + |line| + 1 && NextNewline(b, o) == o + |line| && b[o..o + |line|] == line
    ensures Trusted(c, b, o) == Scan(TornMessages(c, line), false) && NoBlankLine(b, o)
  {
    KeptIsTorn(c, line);
    hide Classify, IsBlank, Trusted, NoBlankLine, TornMessages;
    TrustedOverLine(c, b, o, line);
    TrustedAtEnd(c, b);
  }

  lemma KeptIsTorn(c: Codec, line: Bytes)
    requires RejectsBlank(c) && Classify(c, line).Keep?
    ensures !IsBlank(line) && Push(Classify(c, line), false, Scan([], false)) == Scan(TornMessages(c, line), false)
  {
  }

  lemma TrustedOverLine(c: Codec, b: Bytes, o: nat, line: Bytes)
    requires o + |line| < |b| && NextNewline(b, o) == o + |line| && !IsBlank(line)
    ensures b[o..o + |line|] == line ==>
              && Trusted(c, b, o) == Push(Classify(c, line), false, Trusted(c, b, o + |line| + 1))
              && (NoBlankLine(b, o) <==> NoBlankLine(b, o + |line| + 1))
  {
    hide Classify, IsBlank;
  }

  /** What the lines that a save builds on read as when `added` bytes follow
      them: they stay, but blocks are counted from the new end. */
  function OldReading(env: Env, b: Bytes, added: nat): seq<Message>
    requires env.blockSize > 0
  {
    var x := Base(env.codec, b);
    EdgedLines(env.codec, x, 0, |x| + added, env.blockSize, Scan([], false)).messages
  }

  /** The bytes a save of `batch` adds behind them. */
  function Added(env: Env, batch: seq<Message>): nat {
    |EncAll(env.codec, batch)|
  }

  /** The saved file is read as the old lines, in blocks counted from the new
      end, and the batch behind them; of the old lines never more than they mean. */
  lemma SavedReading(env: Env, b: Bytes, batch: seq<Message>)
    requires Lawful(env.codec) && env.blockSize > 0
    ensures BlockwiseTail(env.codec, Saved(env.codec, b, batch), 0, env.blockSize).messages
         == OldReading(env, b, Added(env, batch)) + Filter(batch, IsValid)
    ensures IsSuffix(OldReading(env, b, Added(env, batch)), Trusted(env.codec, Base(env.codec, b), 0).messages)
  {
    hide *;
    var c, x := env.codec, Base(env.codec, b);
    LawfulRejectsBlank(c);
    BaseIsWholeLines(c, b);
    OldReadingIs(env, b, batch);
    ReadOnto(c, x, batch, env.blockSize);
    TrustedAppended(c, x, batch);
    SavedTornFits(env, b, batch);
    SavedIsTail(c, Saved(c, b, batch), env.blockSize);
    BehindMessages(c, x, batch, env.blockSize);
    CommonEnd(OldReading(env, b, Added(env, batch)), Trusted(c, x, 0).messages, Filter(batch, IsValid));
  }

  lemma OldReadingIs(env: Env, b: Bytes, batch: seq<Message>)
    requires env.blockSize > 0
    ensures var x := Base(env.codec, b);
            OldReading(env, b, Added(env, batch))
            == EdgedLines(env.codec, x, 0, |x + EncAll(env.codec, batch)|, env.blockSize, Scan([], false)).messages
  {
    hide Base, EncAll, EdgedLines;
  }

  /** Whole lines with written ones behind them. */
  lemma ReadOnto(c: Codec, x: Bytes, batch: seq<Message>, size: nat)
    requires Lawful(c) && WholeLines(x) && size > 0
    ensures var b := x + EncAll(c, batch);
            BlockwiseTail(c, b, 0, size)
            == Ahead(EdgedLines(c, x, 0, |b|, size, Scan([], false)), Filter(batch, IsValid))
  {
    hide *;
    var b, added := x + EncAll(c, batch), Filter(batch, IsValid);
    WrittenFrom(c, x, batch, size);
    HeadIsLineStart(x);
    EdgedSplits(c, x, EncAll(c, batch), 0, size);
    EdgedExtends(c, x, 0, |b|, size, Scan([], false), added);
    AheadOfNothing(added);
  }

  lemma HeadIsLineStart(x: Bytes)
    ensures AtLineStart(x, 0)
  {
  }

  lemma AheadOfNothing(ms: seq<Message>)
    ensures Ahead(Scan([], false), ms) == Scan(ms, false)
  {
    assert [] + ms == ms;
  }

  lemma BehindMessages(c: Codec, x: Bytes, batch: seq<Message>, size: nat)
    requires size > 0
    ensures Ahead(EdgedLines(c, x, 0, |x + EncAll(c, batch)|, size, Scan([], false)), Filter(batch, IsValid)).messages
         == EdgedLines(c, x, 0, |x + EncAll(c, batch)|, size, Scan([], false)).messages + Filter(batch, IsValid)
    ensures Ahead(Trusted(c, x, 0), Filter(batch, IsValid)).messages
         == Trusted(c, x, 0).messages + Filter(batch, IsValid)
  {
    hide EdgedLines, EncAll, Filter, Trusted;
  }

  lemma SavedIsTail(c: Codec, file: Bytes, size: nat)
    requires RejectsBlank(c) && size > 0 && TornFits(c, file, size)
    ensures IsSuffix(BlockwiseTail(c, file, 0, size).messages, Trusted(c, file, 0).messages)
  {
    hide *;
    HeadIsLineStart(file);
    BlocksReadTail(c, file, 0, size);
  }

  lemma CommonEnd(read: seq<Message>, meant: seq<Message>, added: seq<Message>)
    requires IsSuffix(read + added, meant + added)
    ensures IsSuffix(read, meant)
  {
    var more: seq<Message> :| meant + added == more + (read + added);
    Assoc(more, read, added);
    assert meant == (meant + added)[..|meant|] && more + read == (more + read + added)[..|meant|];
  }

  /** A recount after a save: the pairs still read of the old lines, and the
      batch's own. */
  lemma SavedRecount(env: Env, b: Bytes, batch: seq<Message>)
    requires Lawful(env.codec) && env.blockSize > 0
    requires batch != [] && OpensTurn(batch[0]) && KeepsDangling(Trusted(env.codec, b, 0).messages, batch)
    ensures Recount(env, Saved(env.codec, b, batch)) == PairsOf(OldReading(env, b, Added(env, batch))) + PairsOf(batch)
  {
    var c := env.codec;
    LawfulRejectsBlank(c);
    hide Lawful, Trusted, BlockwiseTail, OpensTurn, IsValid, Base, Repair, OldReading, LineStart, KeepsDangling,
      NoBlankLine, Saved;
    SavedReading(env, b, batch);
    BaseReadsLikeJournal(c, b);
    if LineStart(b, |b|) == 0 {
      TrustedAtEnd(c, []);
      SuffixOfNothing(OldReading(env, b, Added(env, batch)));
    } else {
      KeepsDanglingEnd(OldReading(env, b, Added(env, batch)), Trusted(c, b, 0).messages, batch);
    }
    PairsAppend(OldReading(env, b, Added(env, batch)), batch);
  }

  lemma SuffixOfNothing(ys: seq<Message>)
    requires IsSuffix(ys, [])
    ensures ys == []
  {
  }

  lemma KeepsDanglingEnd(ys: seq<Message>, zs: seq<Message>, batch: seq<Message>)
    requires IsSuffix(ys, zs) && KeepsDangling(zs, batch)
    ensures KeepsDangling(ys, batch)
  {
    var xs: seq<Message> :| zs == xs + ys;
    KeepsDanglingSuffix(zs, |xs|, batch);
    assert zs[|xs|..] == ys;
  }

  /** Adding the batch's pairs to the count before gives the count after, with no
      recount, exactly when the old lines show as many pairs in the saved file
      as they did before. */
  lemma CountIsAdditiveIff(env: Env, b: Bytes, batch: seq<Message>)
    requires Lawful(env.codec) && env.blockSize > 0
    requires batch != [] && OpensTurn(batch[0]) && KeepsDangling(Trusted(env.codec, b, 0).messages, batch)
    ensures Recount(env, Saved(env.codec, b, batch)) == Recount(env, b) + PairsOf(batch)
       <==> PairsOf(OldReading(env, b, Added(env, batch))) == Recount(env, b)
  {
    hide Lawful, Trusted, OpensTurn, KeepsDangling, Recount, PairsOf, OldReading, Saved;
    SavedRecount(env, b, batch);
  }

  /** So it does whenever both files are read as they are meant. */
  lemma CountIsAdditive(env: Env, b: Bytes, batch: seq<Message>)
    requires Lawful(env.codec) && env.blockSize > 0
    requires ReadsTrusted(env.codec, b, env.blockSize)
    requires ReadsTrusted(env.codec, Saved(env.codec, b, batch), env.blockSize)
    ensures PairsOf(OldReading(env, b, Added(env, batch))) == Recount(env, b)
  {
    MeantInFront(env, b, batch);
    LawfulRejectsBlank(env.codec);
    hide Lawful, Trusted, BlockwiseTail, ReadsTrusted, OldReading, Saved, PairsOf;
    ScanIsTrustedIff(env.codec, b, env.blockSize);
    assert Recount(env, b) == PairsOf(BlockwiseTail(env.codec, b, 0, env.blockSize).messages) by { RecountIs(env, b); }
  }

  lemma RecountIs(env: Env, b: Bytes)
    requires env.blockSize > 0
    ensures Recount(env, b) == PairsOf(BlockwiseTail(env.codec, b, 0, env.blockSize).messages)
  {
  }

  /** What a saved file that is read as it is meant shows of the old lines: all
      they mean, in pairs. */
  lemma MeantInFront(env: Env, b: Bytes, batch: seq<Message>)
    requires Lawful(env.codec) && env.blockSize > 0
    requires ReadsTrusted(env.codec, Saved(env.codec, b, batch), env.blockSize)
    ensures PairsOf(OldReading(env, b, Added(env, batch))) == PairsOf(Trusted(env.codec, b, 0).messages)
  {
    var c := env.codec;
    LawfulRejectsBlank(c);
    hide Lawful, Trusted, BlockwiseTail, IsValid, Base, PairsOf, LineStart, ReadsTrusted, OldReading, EncAll,
      NoBlankLine;
    ScanIsTrustedIff(c, Saved(c, b, batch), env.blockSize);
    SavedReading(env, b, batch);
    BaseIsWholeLines(c, b);
    TrustedAppended(c, Base(c, b), batch);
    SameFront(OldReading(env, b, Added(env, batch)), Trusted(c, Base(c, b), 0).messages, Filter(batch, IsValid));
    BaseReadsLikeJournal(c, b);
    if LineStart(b, |b|) == 0 {
      TrustedAtEnd(c, []);
      OneMessageIsNoPair(Trusted(c, b, 0).messages);
      OneMessageIsNoPair([]);
    }
  }

  lemma SameFront(xs: seq<Message>, ys: seq<Message>, zs: seq<Message>)
    requires xs + zs == ys + zs
    ensures xs == ys
  {
    assert |xs| == |ys| && xs == (xs + zs)[..|xs|] && ys == (ys + zs)[..|ys|];
  }

  /** Without blank lines: exactly when the torn tail before the save fits a
      block, or there was nothing to count. */
  lemma AdditiveWithoutBlanksIff(env: Env, b: Bytes, batch: seq<Message>)
    requires Lawful(env.codec) && env.blockSize > 0 && NoBlankLine(b, 0)
    ensures PairsOf(OldReading(env, b, Added(env, batch))) == Recount(env, b)
       <==> TornFits(env.codec, b, env.blockSize) || PairsOf(Trusted(env.codec, b, 0).messages) == 0
  {
    var c := env.codec;
    LawfulRejectsBlank(c);
    hide Lawful, Trusted, NoBlankLine, BlockwiseTail, TornFits, Base, EncAll, OldReading, PairsOf, ReadsTrusted,
      LineStart;
    BaseIsWholeLines(c, b);
    BaseReadsLikeJournal(c, b);
    TrustedAppended(c, Base(c, b), batch);
    SavedTornFits(env, b, batch);
    NoBlankLineReads(c, Saved(c, b, batch), env.blockSize);
    MeantInFront(env, b, batch);
    RecountIs(env, b);
    BlockwiseIsTrusted(c, b, 0, env.blockSize);
    OneMessageIsNoPair([]);
  }

  lemma SavedTornFits(env: Env, b: Bytes, batch: seq<Message>)
    ensures TornFits(env.codec, Saved(env.codec, b, batch), env.blockSize)
  {
    BaseIsWholeLines(env.codec, b);
    EncAllWholeLines(env.codec, batch);
    AppendedAtLineStart(Base(env.codec, b), EncAll(env.codec, batch));
    WholeLinesIff(Saved(env.codec, b, batch));
  }

  lemma PairsAppend(before: seq<Message>, batch: seq<Message>)
    requires batch != [] && OpensTurn(batch[0]) && KeepsDangling(before, batch)
    ensures PairsOf(before + Filter(batch, IsValid)) == PairsOf(before) + PairsOf(batch)
  {
    OpenerStaysFirst(batch);
    hide OpensTurn, IsValid, RepairFrom, KeepsDangling;
    var added := Filter(batch, IsValid);
    KeepsDanglingFiltered(before, batch);
    RepairAppend(before, added, false);
    TurnCountAppend(Repair(before), Repair(added));
    RepairFilterCommute(batch, false);
    CountsIgnoreInvalid(Repair(batch));
  }
}
