/** Journals, byte for byte, that a block scan reads differently from what they
    mean, for every lawful codec. */
module ScanFailures {
  import opened Basics
  import opened Lines
  import opened Messages
  import opened ToolCallRepair
  import opened Depth
  import opened Codec
  import opened BackwardScan
  import opened JournalScan
  import opened BackwardReader
  import opened BlockEdges
  import opened Writer
  import opened Session
  import opened Anchors
  import opened SavedJournal
  import opened PairRecount

  // ----- the early stop -----

  /** The last block of a journal of completed saves, when it starts with a
      line: exactly its lines. */
  lemma LastBlock(c: Codec, older: seq<Message>, newer: seq<Message>)
    requires Lawful(c) && newer != []
    ensures var b, p := EncAll(c, older + newer), |EncAll(c, older)|;
            && p + |EncAll(c, newer)| == |b|
            && ParseBlockValue(c, PrevByte(b, p), b[p..|b|], None) == Block(Filter(newer, IsValid), None, false)
  {
    LawfulRejectsBlank(c);
    EncAllAppend(c, older, newer);
    EncAllWholeLines(c, older);
    var b, x, size := EncAll(c, older + newer), EncAll(c, older), |EncAll(c, newer)|;
    assert size > 0;
    WrittenFrom(c, x, newer, size);
    StartState(c, b, size);
    BlockStep(c, b, |b|, size, None, []);
    hide Lawful, EncAll, ParseBlockValue, Filter, IsEdge, BlockwiseTail, ReachesHead;
    var block := ParseBlockValue(c, PrevByte(b, |x|), b[|x|..|b|], None);
    assert block.messages + [] == block.messages;
  }

  /** When the newest lines fill exactly one block and cover the depth, the scan
      stops in front of them. */
  lemma ScanStopsInFront(c: Codec, older: seq<Message>, newer: seq<Message>, depth: PriorDepth)
    requires Lawful(c) && newer != [] && !Satisfied([], depth) && Satisfied(Filter(newer, IsValid), depth)
    ensures |EncAll(c, newer)| > 0
    ensures Scanned(c, EncAll(c, older + newer), |EncAll(c, newer)|, depth)
         == (|EncAll(c, older)|, Filter(newer, IsValid))
  {
    LastBlock(c, older, newer);
    var b, p, size := EncAll(c, older + newer), |EncAll(c, older)|, |EncAll(c, newer)|;
    assert size > 0;
    hide Lawful, EncAll, Satisfied, ParseBlockValue, Filter;
    assert Filter(newer, IsValid) + [] == Filter(newer, IsValid);
    if p > 0 {
      ScanOneBlock(c, b, size, depth, p, Filter(newer, IsValid));
    } else {
      ScanOneBlock(c, b, size, depth, p, Filter(newer, IsValid));
    }
  }

  lemma ScanOneBlock(c: Codec, b: Bytes, size: nat, depth: PriorDepth, p: nat, ms: seq<Message>)
    requires size > 0 && p + size == |b| && !Satisfied([], depth) && Satisfied(ms, depth)
    requires ParseBlockValue(c, PrevByte(b, p), b[p..|b|], None) == Block(ms, None, false)
    ensures Scanned(c, b, size, depth) == (p, ms)
  {
    hide Satisfied, ParseBlockValue;
    assert ms + [] == ms;
    assert ScanValue(c, b, size, depth, p, None, ms) == (p, ms);
  }

  /** The journal of one answered turn and a newest turn that is a dangling call,
      read for one turn in blocks as long as the newest turn: the scan stops in
      front of it, the repair takes its answer, and the caller gets one user
      message where the whole journal gives the answered turn as well. */
  lemma DanglingTailLosesTurn(c: Codec, user: Message, reply: Message, call: Message)
    requires Lawful(c) && OpensTurn(user) && reply.role == call.role == Assistant
    requires KeepsTurnAlive(reply) && KeepsTurnAlive(call) && Calls(reply) == [] && Dangling(call, [])
    ensures var file, size, depth := EncAll(c, [user, reply, user, call]), |EncAll(c, [user, call])|, Window(1, 1);
            && size > 0
            && Scanned(c, file, size, depth) == (|EncAll(c, [user, reply])|, [user, call])
            && Slice(Repair(Scanned(c, file, size, depth).1), depth) == [user]
            && Slice(Repair(BlockwiseTail(c, file, 0, size).messages), depth) == [user, reply, user]
  {
    var older, newer, all := [user, reply], [user, call], [user, reply, user, call];
    assert older + newer == all;
    assert IsValid(user) && IsValid(reply) && IsValid(call) by { AliveIsValid(user, reply, call); }
    FilterAll(newer, IsValid);
    FilterAll(all, IsValid);
    DanglingTailDefeatsEarlyStop(user, reply, call);
    assert !Satisfied([], Window(1, 1));
    hide Lawful, OpensTurn, KeepsTurnAlive, Dangling, Calls, IsValid, EncAll, BlockwiseTail, ScanValue, Repair,
      Slice, Satisfied, Filter;
    ScanStopsInFront(c, older, newer, Window(1, 1));
    ScanReadsWritten(c, all, |EncAll(c, newer)|);
  }

  lemma AliveIsValid(user: Message, reply: Message, call: Message)
    requires OpensTurn(user) && KeepsTurnAlive(reply) && KeepsTurnAlive(call)
    ensures IsValid(user) && IsValid(reply) && IsValid(call)
  {
    hide KeepsTurnAlive;
    if !IsValid(reply) { InvalidCarriesNothing(reply); }
    if !IsValid(call) { InvalidCarriesNothing(call); }
  }

  /** So for every codec there is a journal and a block size for which
      `read_prior` misses a turn. */
  lemma EarlyStopCanFail(c: Codec)
    requires Lawful(c)
    ensures exists file: Bytes, size: nat :: size > 0
              && Slice(Repair(Scanned(c, file, size, Window(1, 1)).1), Window(1, 1))
                 != Slice(Repair(BlockwiseTail(c, file, 0, size).messages), Window(1, 1))
  {
    var hi: Bytes := [104];
    var user := Message(User, Str(hi), [], None, None);
    var reply := Message(Assistant, Str(hi), [], None, None);
    var call := Message(Assistant, Str(hi), [ToolCall(Some(hi), hi, Scalar([]))], None, None);
    assert Calls(call)[0].id == Some(hi) && !HasToolResult([], hi);
    hide Lawful, Scanned, BlockwiseTail, EncAll;
    DanglingTailLosesTurn(c, user, reply, call);
    var file, size := EncAll(c, [user, reply, user, call]), |EncAll(c, [user, call])|;
    assert |Slice(Repair(Scanned(c, file, size, Window(1, 1)).1), Window(1, 1))| == 1;
    assert |Slice(Repair(BlockwiseTail(c, file, 0, size).messages), Window(1, 1))| == 3;
  }

  // ----- the blank line at a block edge -----

  const BLANK_LINE: Bytes := [32, NL]

  /** Two messages with a blank line between them: read in blocks as long as the
      second line the first message is lost, read in one block it is not. */
  lemma BlankEdgeLosesMessage(c: Codec, first: Message, second: Message)
    requires Lawful(c) && IsValid(first) && IsValid(second)
    ensures var b := EncAll(c, [first]) + BLANK_LINE + EncAll(c, [second]);
            && Trusted(c, b, 0).messages == [first, second]
            && BlockwiseTail(c, b, 0, |b| + 1).messages == [first, second]
            && |EncAll(c, [second])| > 0
            && BlockwiseTail(c, b, 0, |EncAll(c, [second])|).messages == [second]
  {
    hide *;
    BlankBetweenMeans(c, first, second);
    BlankEdgeBlocks(c, first, second);
    BlankBetweenInOneBlock(c, first, second);
  }

  lemma BlankBetweenInOneBlock(c: Codec, first: Message, second: Message)
    requires Lawful(c)
    ensures var b := EncAll(c, [first]) + BLANK_LINE + EncAll(c, [second]);
            BlockwiseTail(c, b, 0, |b| + 1).messages == Trusted(c, b, 0).messages
  {
    hide *;
    LawfulRejectsBlank(c);
    EncAllWholeLines(c, [first]);
    BlankBehind(c, EncAll(c, [first]));
    NotBlankAtEnd(c, EncAll(c, [first]) + BLANK_LINE, second);
    ReadInOneBlock(c, EncAll(c, [first]) + BLANK_LINE + EncAll(c, [second]));
  }

  lemma ReadInOneBlock(c: Codec, b: Bytes)
    requires RejectsBlank(c) && !EndsBlank(b)
    ensures BlockwiseTail(c, b, 0, |b| + 1).messages == Trusted(c, b, 0).messages
  {
    hide *;
    OneBlock(c, b, |b| + 1);
    ScanIsTrustedIff(c, b, |b| + 1);
  }

  lemma BlankBetweenMeans(c: Codec, first: Message, second: Message)
    requires Lawful(c) && IsValid(first) && IsValid(second)
    ensures Trusted(c, EncAll(c, [first]) + BLANK_LINE + EncAll(c, [second]), 0).messages == [first, second]
  {
    LawfulRejectsBlank(c);
    FilterAll([first], IsValid);
    FilterAll([second], IsValid);
    hide Lawful, Trusted, EncAll, Filter, IsValid;
    var x := EncAll(c, [first]);
    EncAllWholeLines(c, [first]);
    BlankBehind(c, x);
    TrustedAppended(c, [], [first]);
    TrustedAppended(c, x + BLANK_LINE, [second]);
    assert [] + x == x;
    TrustedAtEnd(c, []);
    assert [first] + [second] == [first, second] && [] + [first] == [first];
  }

  lemma BlankEdgeBlocks(c: Codec, first: Message, second: Message)
    requires Lawful(c) && IsValid(second)
    ensures var b := EncAll(c, [first]) + BLANK_LINE + EncAll(c, [second]);
            && |EncAll(c, [second])| > 0
            && BlockwiseTail(c, b, 0, |EncAll(c, [second])|).messages == [second]
  {
    hide *;
    FilterAll([second], IsValid);
    EncAllOne(c, second);
    EncAllWholeLines(c, [first]);
    BlankEdgeReads(c, EncAll(c, [first]), [second]);
  }

  /** Blocks as long as the lines behind a blank line read just those. */
  lemma BlankEdgeReads(c: Codec, x: Bytes, ms: seq<Message>)
    requires Lawful(c) && WholeLines(x) && |EncAll(c, ms)| > 0
    ensures BlockwiseTail(c, x + BLANK_LINE + EncAll(c, ms), 0, |EncAll(c, ms)|).messages == Filter(ms, IsValid)
  {
    LawfulRejectsBlank(c);
    BlankBehind(c, x);
    hide Lawful, BlockwiseTail, EncAll, Filter, IsBlank, NextNewline;
    var size, y := |EncAll(c, ms)|, x + BLANK_LINE;
    var b := y + EncAll(c, ms);
    BlankLineAt(c, x, EncAll(c, ms));
    NextEdge(|b|, |b|, size);
    EdgeInsideEndsBlock(|x|, |x| + 1, |y|, |b|, size);
    hide EndsBlock, IsEdge;
    WrittenFrom(c, y, ms, size);
    BlankLineAtEdgeStops(c, b, |x|, size);
  }

  lemma BlankBehind(c: Codec, x: Bytes)
    requires Lawful(c) && WholeLines(x)
    ensures WholeLines(x + BLANK_LINE) && Trusted(c, x + BLANK_LINE, 0) == Trusted(c, x, 0)
  {
    LawfulRejectsBlank(c);
    var y := x + BLANK_LINE;
    NextNewlineIs(y, |x|, |x| + 1);
    assert y[|x|..|x| + 1] == [32];
    assert Classify(c, [32]) == Blank by { assert IsBlank([32]); }
    TrustedAtEnd(c, y);
    assert Trusted(c, y, |x|) == Scan([], false);
    hide Lawful, Trusted, NoBlankLine;
    TrustedSplits(c, x, BLANK_LINE, 0);
    TrustedSplits(c, x, [], 0);
    assert x + [] == x;
    TrustedAtEnd(c, x);
  }

  lemma BlankLineAt(c: Codec, x: Bytes, rest: Bytes)
    requires WholeLines(x)
    ensures var b := x + BLANK_LINE + rest;
            && AtLineStart(b, |x|) && NextNewline(b, |x|) == |x| + 1
            && b[|x|..|x| + 1] == [32] && IsBlank(b[|x|..|x| + 1])
  {
    var line: Bytes := [32];
    assert line + [NL] == BLANK_LINE && NoNewline(line) && IsBlank(line);
    hide *;
    WrittenNewline(x, line, rest);
    WrittenLine(x, line, rest);
    StartsBehind(x, BLANK_LINE + rest);
    Assoc(x, BLANK_LINE, rest);
  }

  lemma StartsBehind(x: Bytes, more: Bytes)
    requires WholeLines(x)
    ensures AtLineStart(x + more, |x|)
  {
    if x != [] { assert (x + more)[|x| - 1] == x[|x| - 1]; }
  }

  lemma NotBlankAtEnd(c: Codec, y: Bytes, m: Message)
    requires Lawful(c) && WholeLines(y)
    ensures !EndsBlank(y + EncAll(c, [m]))
  {
    EncAllOne(c, m);
    LineIsNotBlank(c, m);
    var line := c.enc(m);
    var b := y + EncAll(c, [m]);
    WrittenLine(y, line, []);
    WrittenNewline(y, line, []);
    assert y + (line + [NL]) + [] == b;
    hide IsBlank, NextNewline, Lawful;
    forall s: nat | s < |b| - 1 && AtLineStart(b, s) && NextNewline(b, s) == |b| - 1 ensures s == |y| {
      LastStart(b, s, |y|);
    }
  }

  lemma LastStart(b: Bytes, s: nat, t: nat)
    requires s < |b| - 1 && t < |b| - 1 && AtLineStart(b, s) && AtLineStart(b, t)
    requires NextNewline(b, s) == |b| - 1 == NextNewline(b, t)
    ensures s == t
  {
  }

  // ----- the oversized torn tail -----

  /** A save that died inside a line longer than a block hides the whole journal. */
  lemma OversizedTornTailHidesAll(c: Codec, kept: Message, torn: Message, size: nat, written: nat)
    requires Lawful(c) && IsValid(kept) && 0 < size < written < |c.enc(torn)|
    ensures var b := EncAll(c, [kept]) + c.enc(torn)[..written];
            Trusted(c, b, 0).messages == [kept] && BlockwiseTail(c, b, 0, size).messages == []
  {
    hide *;
    WrittenMeans(c, [kept]);
    FilterAll([kept], IsValid);
    TornStart(c, torn, written);
    OversizedTorn(c, EncAll(c, [kept]), c.enc(torn)[..written], size);
  }

  lemma WrittenMeans(c: Codec, ms: seq<Message>)
    requires Lawful(c)
    ensures WholeLines(EncAll(c, ms)) && Trusted(c, EncAll(c, ms), 0).messages == Filter(ms, IsValid)
  {
    LawfulRejectsBlank(c);
    hide Lawful, Trusted, EncAll, Filter;
    EncAllWholeLines(c, ms);
    TrustedAppended(c, [], ms);
    TrustedAtEnd(c, []);
    assert [] + EncAll(c, ms) == EncAll(c, ms) && [] + Filter(ms, IsValid) == Filter(ms, IsValid);
  }

  lemma TornStart(c: Codec, torn: Message, written: nat)
    requires Lawful(c) && 0 < written < |c.enc(torn)|
    ensures var frag := c.enc(torn)[..written]; NoNewline(frag) && |frag| == written && c.dec(frag) == None
  {
  }

  lemma OversizedTorn(c: Codec, x: Bytes, frag: Bytes, size: nat)
    requires Lawful(c) && WholeLines(x) && NoNewline(frag) && c.dec(frag) == None && 0 < size < |frag|
    ensures Trusted(c, x + frag, 0).messages == Trusted(c, x, 0).messages
    ensures BlockwiseTail(c, x + frag, 0, size).messages == []
  {
    LawfulRejectsBlank(c);
    hide Lawful, Trusted, BlockwiseTail;
    TrustedTorn(c, x, frag);
    TornLineStart(x, frag);
    var b := x + frag;
    assert b[|x|..] == frag;
    assert Trusted(c, x, 0).messages + [] == Trusted(c, x, 0).messages;
    OversizedTornStops(c, b, 0, size);
  }

  // ----- the pair count -----

  lemma AnsweredTurnIsPair(user: Message, reply: Message)
    requires OpensTurn(user) && reply.role == Assistant && KeepsTurnAlive(reply) && Calls(reply) == []
    ensures Repair([user, reply]) == [user, reply] && PairsOf([user, reply]) == 1
    ensures IsValid(user) && IsValid(reply)
  {
    AliveIsValid(user, reply, reply);
    assert user.role == User && !OpensTurn(reply);
    assert !Dangling(user, [reply]) && !Dangling(reply, []);
    AnsweredTurnSatisfies(user, reply);
    hide OpensTurn, Dangling, KeepsTurnAlive, Calls;
    assert [user, reply][1..] == [reply] && [reply][1..] == [];
    assert RepairFrom([reply], false) == [reply];
  }

  lemma NoCallsKeepDangling(user: Message, reply: Message, ys: seq<Message>)
    requires user.role == User && Calls(reply) == []
    ensures KeepsDangling([user, reply], ys)
  {
    var none: seq<Message> := [];
    assert [user, reply][1..] == [reply] && [reply][1..] == none;
    assert !Dangling(user, [reply]) && !Dangling(reply, none);
    hide Dangling;
    assert KeepsDangling(none, ys) && KeepsDangling([reply], ys);
  }

  /** One answered turn and a blank last line: no block size reads anything of it,
      so the kept count is 0. A second turn saved behind it makes the first one
      readable again: a recount gives 2 where the kept count says 1. */
  lemma BlankLastLineBreaksCount(env: Env, user: Message, reply: Message)
    requires Lawful(env.codec) && OpensTurn(user) && Calls(user) == []
    requires reply.role == Assistant && KeepsTurnAlive(reply) && Calls(reply) == []
    requires env.blockSize > |Saved(env.codec, EncAll(env.codec, [user, reply]) + BLANK_LINE, [user, reply])|
    ensures var b, batch := EncAll(env.codec, [user, reply]) + BLANK_LINE, [user, reply];
            && Recount(env, b) == 0 && PairsOf(batch) == 1
            && Recount(env, Saved(env.codec, b, batch)) == 2
  {
    var c, batch := env.codec, [user, reply];
    var b := EncAll(c, batch) + BLANK_LINE;
    LawfulRejectsBlank(c);
    AnsweredTurnIsPair(user, reply);
    assert user.role == User;
    NoCallsKeepDangling(user, reply, batch);
    hide *;
    TurnAndBlank(c, user, reply);
    EndsBlankReadsNothing(c, b, env.blockSize);
    RecountIs(env, b);
    OneMessageIsNoPair([]);
    OneBlock(c, Saved(c, b, batch), env.blockSize);
    MeantInFront(env, b, batch);
    SavedRecount(env, b, batch);
  }

  lemma TurnAndBlank(c: Codec, user: Message, reply: Message)
    requires Lawful(c) && IsValid(user) && IsValid(reply)
    ensures var b, batch := EncAll(c, [user, reply]) + BLANK_LINE, [user, reply];
            && EndsBlank(b) && Trusted(c, b, 0).messages == batch && !EndsBlank(Saved(c, b, batch))
  {
    hide *;
    LineAndBlank(c, [user, reply]);
    FilterAll([user, reply], IsValid);
    SavedBehindBlank(c, EncAll(c, [user, reply]), user, reply);
  }

  lemma LineAndBlank(c: Codec, ms: seq<Message>)
    requires Lawful(c)
    ensures var b := EncAll(c, ms) + BLANK_LINE;
            EndsBlank(b) && Trusted(c, b, 0).messages == Filter(ms, IsValid)
    ensures WholeLines(EncAll(c, ms))
  {
    LawfulRejectsBlank(c);
    hide Lawful, Trusted, EncAll, Filter, NextNewline, IsBlank;
    var x := EncAll(c, ms);
    EncAllWholeLines(c, ms);
    BlankBehind(c, x);
    BlankLineAt(c, x, []);
    TrustedAppended(c, [], ms);
    TrustedAtEnd(c, []);
    assert x + BLANK_LINE + [] == x + BLANK_LINE;
    assert [] + x == x && [] + Filter(ms, IsValid) == Filter(ms, IsValid);
  }

  lemma SavedBehindBlank(c: Codec, x: Bytes, user: Message, reply: Message)
    requires Lawful(c) && WholeLines(x)
    ensures !EndsBlank(Saved(c, x + BLANK_LINE, [user, reply]))
  {
    var b := x + BLANK_LINE;
    BlankBehind(c, x);
    CleanEndOfWholeLines(c, b);
    EncAllAppend(c, [user], [reply]);
    assert [user] + [reply] == [user, reply];
    EncAllWholeLines(c, [user]);
    AppendedAtLineStart(b, EncAll(c, [user]));
    NotBlankAtEnd(c, b + EncAll(c, [user]), reply);
    hide Lawful, EncAll, CleanEndOf, EndsBlank;
    Assoc(b, EncAll(c, [user]), EncAll(c, [reply]));
    assert b[..|b|] + [] == b;
  }
}
