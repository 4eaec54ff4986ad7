/** The corruption guard on any journal, corrupt and torn ones included: exactly
    when a load deletes it, and what that can take along. */
module Corruption {
  import opened Basics
  import opened Lines
  import opened Messages
  import opened ToolCallRepair
  import opened Turns
  import opened Codec
  import opened BackwardScan
  import opened JournalScan
  import opened BackwardReader
  import opened ForwardReader
  import opened Session
  import opened Anchors
  import opened SavedJournal
  import opened ScanFailures

  /** The mode's anchor is absent, at the head, or rejected. */
  predicate ReadsFromHead(env: Env, w: World, s: Strategy) {
    if s.Full? then FullOffset(w) == 0 || ReadAnchored(env, JournalBytes(w), FullOffset(w), true).None?
    else
      var x := ContextOffset(w);
      var isRestart := w.session.Some? && w.session.value.fullRestartOffset == Some(x);
      x == 0 || ReadAnchored(env, JournalBytes(w), x, isRestart).None?
  }

  /** What a mode reads from the head: backwards up to an untrusted line, or
      forwards over it. */
  function HeadReading(env: Env, b: Bytes, s: Strategy): seq<Message>
    requires env.blockSize > 0
  {
    if s.Full? then Repair(BlockwiseTail(env.codec, b, 0, env.blockSize).messages)
    else Repair(MessagesOf(Forward(env.codec, b, 0)))
  }

  /** A load deletes a journal, whatever is in it, exactly when it reads it from
      its head, finds messages but no assistant's among them, and: in full mode,
      no line behind the block at the head stopped the scan; in sliding mode, the
      window does not slide. */
  lemma LoadDeletesAnyIff(env: Env, w: World, s: Strategy)
    requires ValidEnv(env) && w.session.Some? && w.journal.Some?
    ensures var b := JournalBytes(w);
            var ms := HeadReading(env, b, s);
            Load(env, w, s).0.journal.None? <==>
              && ReadsFromHead(env, w, s) && ms != [] && !HasAssistant(ms)
              && (if s.Full? then HeadIsClear(env.codec, b, env.blockSize) else !Slides(ms, s, env.weigh))
  {
    if s.Full? {
      FullDeletesIff(env, w);
    } else {
      SlidingDeletesIff(env, w, s);
    }
  }

  lemma FullDeletesIff(env: Env, w: World)
    requires ValidEnv(env) && w.session.Some? && w.journal.Some?
    ensures var b := JournalBytes(w);
            var ms := HeadReading(env, b, Full);
            Load(env, w, Full).0.journal.None? <==>
              && ReadsFromHead(env, w, Full) && ms != [] && !HasAssistant(ms)
              && HeadIsClear(env.codec, b, env.blockSize)
  {
    ReachesHeadIff(env.codec, JournalBytes(w), env.blockSize);
    AnchoredIsNotHead(env, JournalBytes(w), FullOffset(w), true);
    hide BlockwiseTail, HeadIsClear, ReachesHead, ReadAnchored, Forward, HasAssistant, Repair;
  }

  lemma AnchoredIsNotHead(env: Env, b: Bytes, off: nat, isRestart: bool)
    ensures ReadAnchored(env, b, off, isRestart).Some? ==>
              ReadAnchored(env, b, off, isRestart).value == ReadFromValue(env, b, off)
    ensures off > 0 ==> !ReadFromValue(env, b, off).reachedHead
    ensures off == 0 ==> ReadAnchored(env, b, off, isRestart).Some?
  {
  }

  lemma SlidingDeletesIff(env: Env, w: World, s: Strategy)
    requires ValidEnv(env) && w.session.Some? && w.journal.Some? && s.Sliding?
    ensures var ms := HeadReading(env, JournalBytes(w), s);
            Load(env, w, s).0.journal.None? <==>
              ReadsFromHead(env, w, s) && ms != [] && !HasAssistant(ms) && !Slides(ms, s, env.weigh)
  {
    var b, x := JournalBytes(w), ContextOffset(w);
    WindowFrom(env, w, s);
    AlignedFromHead(env, b);
    AnchoredIsNotHead(env, b, x, w.session.value.fullRestartOffset == Some(x));
    var (w1, slice) := WindowSlice(env, w);
    SlidKeepsTail(env, w1, slice, s);
    if ReadsFromHead(env, w, s) {
      SlideIff(env, w1, slice, s);
    }
    hide ReadAnchored, ReadFromValue, HasAssistant, Slides, Slide, WindowSlice, ReadsFromHead, Forward;
  }

  lemma WindowFrom(env: Env, w: World, s: Strategy)
    requires s.Sliding? && w.session.Some?
    ensures var x := ContextOffset(w);
            && WindowSlice(env, w).0.journal == w.journal
            && WindowSlice(env, w).1
               == ReadFromValue(env, JournalBytes(w), if ReadsFromHead(env, w, s) then 0 else x)
            && (!ReadsFromHead(env, w, s) ==> x > 0)
  {
    var b, x := JournalBytes(w), ContextOffset(w);
    AnchoredIsNotHead(env, b, x, w.session.value.fullRestartOffset == Some(x));
    hide ReadAnchored, ReadFromValue;
  }

  lemma AlignedFromHead(env: Env, b: Bytes)
    ensures var slice := ReadFromValue(env, b, 0);
            |slice.offsets| == |slice.messages| && slice.reachedHead
            && slice.messages == Repair(MessagesOf(Forward(env.codec, b, 0)))
  {
    RepairedIsKept(Forward(env.codec, b, 0));
    hide Forward, KeptFrom, Repair, Select, KeepFlags;
  }

  // ----- what the guard can take along -----

  /** An answered turn, a corrupt line, and a turn cancelled before any answer. */
  function CorruptJournal(c: Codec, user: Message, reply: Message, g: Bytes): Bytes {
    EncAll(c, [user, reply]) + (g + [NL]) + EncAll(c, [user])
  }

  /** In one block the backward scan reads the cancelled turn, stops at the corrupt
      line, and has reached the head. */
  lemma CorruptScan(c: Codec, user: Message, reply: Message, g: Bytes, size: nat)
    requires Lawful(c) && IsValid(user) && NoNewline(g) && Classify(c, g) == Corrupt
    requires size >= |CorruptJournal(c, user, reply, g)|
    ensures size > 0
    ensures BlockwiseTail(c, CorruptJournal(c, user, reply, g), 0, size).messages == [user]
    ensures HeadIsClear(c, CorruptJournal(c, user, reply, g), size)
  {
    var x := EncAll(c, [user, reply]);
    var y := x + (g + [NL]);
    var b := y + EncAll(c, [user]);
    assert |b| > 0;
    FilterAll([user], IsValid);
    EncAllWholeLines(c, [user, reply]);
    WrittenNewline(x, g, EncAll(c, [user]));
    WrittenLine(x, g, EncAll(c, [user]));
    CorruptStart(x, g);
    StartsBehind(x, (g + [NL]) + EncAll(c, [user]));
    Assoc(x, g + [NL], EncAll(c, [user]));
    hide Lawful, EncAll, Filter, IsValid, Classify, NextNewline;
    WrittenFrom(c, y, [user], size);
    BlockwiseStep(c, b, |x|, |x| + |g|, size);
    OlderLinesInFront(c, b, 0, |x|, size);
    LawfulRejectsBlank(c);
    WholeFileIsClear(c, b, size);
  }

  lemma CorruptStart(x: Bytes, g: Bytes)
    ensures WholeLines(x + (g + [NL])) && |x + (g + [NL])| == |x| + |g| + 1
  {
  }

  lemma WholeFileIsClear(c: Codec, b: Bytes, size: nat)
    requires RejectsBlank(c) && size >= |b| && size > 0
    ensures HeadIsClear(c, b, size)
  {
    assert HeadBlockEnd(|b|, size) == |b|;
    NextNewlineIs(b, |b|, |b|);
    assert b[|b|..] == [];
  }

  /** The forward reader skips the corrupt line. */
  lemma CorruptForward(c: Codec, user: Message, reply: Message, g: Bytes)
    requires Lawful(c) && IsValid(user) && IsValid(reply) && NoNewline(g) && Classify(c, g) == Corrupt
    ensures MessagesOf(Forward(c, CorruptJournal(c, user, reply, g), 0)) == [user, reply, user]
  {
    var x, more := EncAll(c, [user, reply]), EncAll(c, [user]);
    assert CorruptJournal(c, user, reply, g) == x + (g + [NL]) + more;
    hide *;
    FilterAll([user, reply], IsValid);
    FilterAll([user], IsValid);
    EncAllWholeLines(c, [user, reply]);
    Assoc(x, g + [NL], more);
    ForwardAppend(c, x, (g + [NL]) + more, 0);
    ReadsAlone(c, [user, reply]);
    ReadsBehind(c, x + (g + [NL]), [user]);
    SkipsCorrupt(c, x, g, more);
    MessagesOfAppend(Forward(c, x, 0), Forward(c, x + (g + [NL]) + more, |x|));
    assert [user, reply] + [user] == [user, reply, user];
  }

  lemma ReadsBehind(c: Codec, pre: Bytes, ms: seq<Message>)
    requires Lawful(c)
    ensures MessagesOf(Forward(c, pre + EncAll(c, ms), |pre|)) == Filter(ms, IsValid)
  {
    hide *;
    ForwardReadsWritten(c, pre, ms);
    EntriesMessages(c, ms, |pre|);
  }

  lemma ReadsAlone(c: Codec, ms: seq<Message>)
    requires Lawful(c)
    ensures MessagesOf(Forward(c, EncAll(c, ms), 0)) == Filter(ms, IsValid)
  {
    hide *;
    var none: Bytes := [];
    ReadsBehind(c, none, ms);
    assert none + EncAll(c, ms) == EncAll(c, ms);
  }

  lemma SkipsCorrupt(c: Codec, x: Bytes, g: Bytes, more: Bytes)
    requires NoNewline(g) && Classify(c, g) == Corrupt
    ensures var y := x + (g + [NL]); Forward(c, y + more, |x|) == Forward(c, y + more, |y|)
  {
    hide *;
    var y := x + (g + [NL]);
    var b := y + more;
    WrittenNewline(x, g, more);
    WrittenLine(x, g, more);
    ForwardStep(c, b, |x|, |x| + |g|);
    CorruptIsSkipped(c, g, |x|);
    assert [] + Forward(c, b, |y|) == Forward(c, b, |y|);
  }

  lemma CorruptIsSkipped(c: Codec, g: Bytes, o: nat)
    requires Classify(c, g) == Corrupt
    ensures LineEntry(c, g, o) == []
  {
  }

  /** A full load of that journal in one block deletes it, the answered turn
      included; a sliding load returns all three messages and keeps it. */
  lemma GuardTakesAnsweredTurn(env: Env, w: World, user: Message, reply: Message, g: Bytes, s: Strategy)
    requires ValidEnv(env) && Lawful(env.codec) && NoNewline(g) && Classify(env.codec, g) == Corrupt
    requires OpensTurn(user) && reply.role == Assistant && KeepsTurnAlive(reply) && Calls(reply) == []
    requires w.journal.Some? && w.session == Some(Anchors(None, None)) && s.Sliding? && MaxWindow(s) > 2
    requires JournalBytes(w) == CorruptJournal(env.codec, user, reply, g) && env.blockSize >= |JournalBytes(w)|
    ensures Load(env, w, Full).0.journal.None?
    ensures Load(env, w, s) == (w, [user, reply, user])
  {
    AliveIsValid(user, reply, reply);
    CorruptScan(env.codec, user, reply, g, env.blockSize);
    CorruptForward(env.codec, user, reply, g);
    LoneUserReads(user);
    AnsweredThenCancelled(user, reply);
    LoadDeletesAnyIff(env, w, Full);
    AlignedFromHead(env, JournalBytes(w));
    hide Lawful, CorruptJournal, BlockwiseTail, Forward, HeadIsClear, RepairFrom, OpensTurn, KeepsTurnAlive, Calls,
      Classify,
      CountOpeners, ReadFromValue, WindowStart, OpenerIndices, Weight;
    assert HasAssistant([user, reply, user]) by { assert [user, reply, user][1].role == Assistant; }
  }

  lemma LoneUserReads(user: Message)
    requires OpensTurn(user)
    ensures Repair([user]) == [user] && !HasAssistant([user])
  {
    var rest: seq<Message> := [];
    assert [user][1..] == rest && user.role == User && !Drops([user], false);
    hide OpensTurn, Dangling;
    assert RepairFrom(rest, false) == [];
  }

  lemma AnsweredThenCancelled(user: Message, reply: Message)
    requires OpensTurn(user) && reply.role == Assistant && Calls(reply) == []
    ensures Repair([user, reply, user]) == [user, reply, user] && CountOpeners([user, reply, user]) == 2
  {
    var all := [user, reply, user];
    var rest: seq<Message> := [];
    assert all[1..] == [reply, user] && all[1..][1..] == [user] && [user][1..] == rest;
    assert user.role == User && !OpensTurn(reply);
    assert !Drops(all, false) && !Drops([reply, user], false) && !Drops([user], false);
    hide OpensTurn, Dangling, Calls;
    assert RepairFrom(rest, false) == [];
    assert RepairFrom([user], false) == [user];
    assert RepairFrom([reply, user], false) == [reply, user];
    assert CountOpeners(rest) == 0 && CountOpeners([user]) == 1 && CountOpeners([reply, user]) == 1;
  }
}
