/** A save that dies right after a restart: exactly when the restart's anchor is
    lost, and what the next full load then returns. */
module RestartCrash {
  import opened Basics
  import opened Lines
  import opened Messages
  import opened ToolCallRepair
  import opened Codec
  import opened BackwardScan
  import opened BackwardReader
  import opened ForwardReader
  import opened Writer
  import opened Session
  import opened Anchors
  import opened AnchorRuns
  import opened SavedJournal
  import opened RestartRuns

  /** The bytes that reached the file after the clean end make it move: the
      newline of a recovered line without a whole first line behind it, or the
      whole first line without its newline. */
  predicate MovesCleanEnd(c: Codec, b: Bytes, first: Message, written: nat) {
    if CleanEndOf(c, b).prefix == [] then written == |c.enc(first)|
    else 1 <= written <= 1 + |c.enc(first)|
  }

  /** Part of the first line, the whole of it at most, on top of whole lines. */
  lemma PartOfFirstLine(c: Codec, x: Bytes, first: Message, j: nat)
    requires Lawful(c) && WholeLines(x) && x != [] && IsValid(first) && j <= |c.enc(first)|
    ensures var b := x + c.enc(first)[..j];
            && Forward(c, b, |x|) == []
            && CleanEndOf(c, b).offset == if j == |c.enc(first)| then |b| else |x|
  {
    var frag := c.enc(first)[..j];
    var b := x + frag;
    assert c.enc(first)[..|c.enc(first)|] == c.enc(first);
    assert NoNewline(frag);
    TornLineStart(x, frag);
    NextNewlineIs(b, |x|, |b|);
    ForwardEnds(c, b, |x|);
    if j == 0 {
      assert b == x;
      CleanEndOfWholeLines(c, b);
    } else {
      CleanEndOfTorn(c, x, frag);
      assert j < |c.enc(first)| ==> c.dec(frag) == None;
      assert j == |c.enc(first)| ==> Classify(c, frag) == Keep(first);
    }
  }

  /** The first line with its newline: the first message read behind `x`. */
  lemma WholeFirstLine(c: Codec, x: Bytes, first: Message, more: Bytes)
    requires Lawful(c) && first.role == User
    ensures var ms := MessagesOf(Forward(c, x + (c.enc(first) + [NL]) + more, |x|));
            ms != [] && ms[0] == first && Repair(ms) != [] && Repair(ms)[0] == first
  {
    assert IsValid(first);
    hide Forward, Lawful, IsValid;
    ForwardReadsOneWritten(c, x, first, more);
    var es := Forward(c, x + (c.enc(first) + [NL]) + more, |x|);
    assert es[0] == Entry(first, |x|);
    var ms := MessagesOf(es);
    assert !Drops(ms, false);
  }

  /** Where the anchor was put reads like the line behind it. */
  lemma ReadsBehindPrefix(c: Codec, b: Bytes, more: Bytes)
    ensures var base, off := Base(c, b), CleanEndOf(c, b).offset;
            Forward(c, base + more, off) == Forward(c, base + more, |base|)
  {
    hide Forward, CleanEndOf;
    BaseEdge(c, b);
    var base, off := Base(c, b), CleanEndOf(c, b).offset;
    if |base| > off {
      assert (base + more)[off] == base[off];
      EmptyLineFirst(c, base + more, off);
    }
  }

  lemma FirstLineOf(c: Codec, batch: seq<Message>, j: nat) returns (more: Bytes)
    requires batch != [] && j <= |EncAll(c, batch)|
    ensures j <= |c.enc(batch[0])| ==> EncAll(c, batch)[..j] == c.enc(batch[0])[..j]
    ensures j > |c.enc(batch[0])| ==> EncAll(c, batch)[..j] == c.enc(batch[0]) + [NL] + more
  {
    var line, rest := c.enc(batch[0]) + [NL], EncAll(c, batch[1..]);
    TakeAppend(line, rest, j);
    more := [];
    if j <= |c.enc(batch[0])| {
      assert line[..j] == c.enc(batch[0])[..j];
    } else {
      more := rest[..j - |line|];
      if j == |line| { assert line[..j] == line && line + more == line; }
    }
  }

  /** After a restart with something in front of the anchor, a save of a turn that
      dies after `written` bytes makes the anchor unreadable exactly when it
      moved the clean end. */
  lemma AnchorLostIff(env: Env, b: Bytes, batch: seq<Message>, written: nat)
    requires Lawful(env.codec) && GoodTurn(batch) && CleanEndOf(env.codec, b).offset > 0
    ensures ReadAnchored(env, TornSave(env.codec, b, batch, written), CleanEndOf(env.codec, b).offset, true).None?
       <==> MovesCleanEnd(env.codec, b, batch[0], written)
  {
    var c := env.codec;
    OpenerIsUser(batch[0]);
    CleanEndShape(c, b);
    if written < |CleanEndOf(c, b).prefix| {
      NothingWritten(env, b, batch);
    } else {
      var j := Min(written - |CleanEndOf(c, b).prefix|, |EncAll(c, batch)|);
      FirstLineLength(c, batch);
      TornBehindBase(c, b, batch, written);
      BaseIsWholeLines(c, b);
      var more := FirstLineOf(c, batch, j);
      ReadsBehindPrefix(c, b, EncAll(c, batch)[..j]);
      if j <= |c.enc(batch[0])| {
        PartOfFirstLine(c, Base(c, b), batch[0], j);
        hide Forward, CleanEndOf, EncAll, Lawful, Base, OpensTurn;
        EmptyAnchoredRead(env, TornSave(c, b, batch, written), CleanEndOf(c, b).offset);
      } else {
        WholeFirstLine(c, Base(c, b), batch[0], more);
        hide Forward, CleanEndOf, EncAll, Lawful, Base, OpensTurn, OpensRestartBoundary, RepairFrom, KeepFlags;
        Assoc(Base(c, b), c.enc(batch[0]) + [NL], more);
      }
    }
  }

  lemma FirstLineLength(c: Codec, batch: seq<Message>)
    requires batch != []
    ensures |EncAll(c, batch)| > |c.enc(batch[0])|
  {
  }

  lemma EmptyAnchoredRead(env: Env, file: Bytes, off: nat)
    requires 0 < off <= |file| && Forward(env.codec, file, off) == []
    ensures ReadAnchored(env, file, off, true).None? <==> CleanEndOf(env.codec, file).offset != off
  {
    hide CleanEndOf;
    EmptySlice(env, file, off);
  }

  /** Nothing of the newline got there: the file is as the restart found it. */
  lemma NothingWritten(env: Env, b: Bytes, batch: seq<Message>)
    requires batch != [] && CleanEndOf(env.codec, b).prefix != []
    ensures ReadAnchored(env, TornSave(env.codec, b, batch, 0), CleanEndOf(env.codec, b).offset, true).Some?
    ensures !MovesCleanEnd(env.codec, b, batch[0], 0)
  {
    CleanEndShape(env.codec, b);
    assert TornSave(env.codec, b, batch, 0) == b;
    FreshBoundaryIsTrusted(env, b);
  }

  /** Then the next full load clears the anchor and reads the whole journal again. */
  lemma LostAnchorReadsAll(env: Env, w: World, batch: seq<Message>, written: nat, mtime: nat)
    requires Lawful(env.codec) && env.blockSize > 0 && GoodTurn(batch) && w.journal.Some?
    requires CleanEndOf(env.codec, JournalBytes(w)).offset > 0
    requires MovesCleanEnd(env.codec, JournalBytes(w), batch[0], written)
    ensures var after := FailedSave(env, Restart(env, w), batch, written, mtime);
            FullSlice(env, after) == (SetFull(after, None), ReadWholeValue(env, JournalBytes(after)))
  {
    hide Lawful, ReadWholeValue, ReadAnchored, TornSave, CleanEndOf, GoodTurn, MovesCleanEnd;
    RestartAnchorsAtCleanEnd(env, w);
    AnchorLostIff(env, JournalBytes(w), batch, written);
  }

  /** On a journal of completed saves: a save that lost nothing but the newline
      of its first line brings every turn from before the restart back. */
  lemma CrashBringsTurnsBack(env: Env, w: World, all: seq<Message>, batch: seq<Message>, mtime: nat)
    requires Lawful(env.codec) && env.blockSize > 0 && Inv(env, w, all) && all != []
    requires GoodTurn(batch) && HasAssistant(ReadBack(all))
    ensures var after := FailedSave(env, Restart(env, w), batch, |env.codec.enc(batch[0])|, mtime);
            && Load(env, after, Full).1 == ReadBack(all + [batch[0]])
            && (OpensTurn(batch[0]) ==> Load(env, after, Full).1 == ReadBack(all) + ReadBack([batch[0]]))
  {
    var c := env.codec;
    var written := |c.enc(batch[0])|;
    EncAllWholeLines(c, all);
    CleanEndOfWholeLines(c, EncAll(c, all));
    JournalIsLong(c, all);
    LostAnchorReadsAll(env, w, batch, written, mtime);
    TornFirstLine(c, all, batch);
    WholeScanWithTorn(c, all, batch[0], env.blockSize);
    AnsweredStays(all, [batch[0]]);
    OpenerKeepsDangling(all, batch[0]);
    if OpensTurn(batch[0]) { ReadBackAppend(all, [batch[0]]); }
    hide Lawful, EncAll, CleanEndOf, BlockwiseTail, HasAssistant, Inv, GoodTurn, ReachesHead, Repair, Filter, OpensTurn;
    assert JournalBytes(w) == EncAll(c, all) by { JournalIsHeld(env, w, all); }
  }

  /** A message that may open a boundary answers no call. */
  lemma {:induction false} OpenerKeepsDangling(all: seq<Message>, first: Message)
    requires OpensRestartBoundary(first)
    ensures KeepsDangling(all, [first])
  {
    assert forall id :: !Answers(first, id);
    hide OpensRestartBoundary, Answers;
    if all == [] {
    } else {
      OpenerKeepsDangling(all[1..], first);
      DanglingAppend(all[0], all[1..], [first]);
    }
  }

  lemma JournalIsHeld(env: Env, w: World, all: seq<Message>)
    requires Inv(env, w, all)
    ensures JournalBytes(w) == EncAll(env.codec, all) && (all != [] ==> w.journal.Some?)
  {
  }

  lemma JournalIsLong(c: Codec, all: seq<Message>)
    requires all != []
    ensures |EncAll(c, all)| > 0
  {
  }

  lemma TornFirstLine(c: Codec, all: seq<Message>, batch: seq<Message>)
    requires batch != []
    ensures TornSave(c, EncAll(c, all), batch, |c.enc(batch[0])|) == EncAll(c, all) + c.enc(batch[0])
  {
    EncAllWholeLines(c, all);
    CleanEndOfWholeLines(c, EncAll(c, all));
    hide CleanEndOf;
    var b, line := EncAll(c, all), c.enc(batch[0]);
    FirstLineLength(c, batch);
    var more := FirstLineOf(c, batch, |line|);
    assert [] + EncAll(c, batch) == EncAll(c, batch) && b[..|b|] == b && line[..|line|] == line;
  }

  lemma WholeScanWithTorn(c: Codec, all: seq<Message>, m: Message, size: nat)
    requires Lawful(c) && size > 0 && IsValid(m)
    ensures BlockwiseTail(c, EncAll(c, all) + c.enc(m), 0, size) == Scan(Filter(all + [m], IsValid), false)
    ensures ReachesHead(c, EncAll(c, all) + c.enc(m), size)
  {
    LawfulRejectsBlank(c);
    var x, frag := EncAll(c, all), c.enc(m);
    var b := x + frag;
    EncAllWholeLines(c, all);
    TrustedOfWritten(c, [], all);
    assert [] + x == x;
    TrustedTorn(c, x, frag);
    TornLineStart(x, frag);
    assert b[|x|..] == frag;
    assert Classify(c, frag) == Keep(m) && c.dec(frag) == Some(m);
    FilterAppend(all, [m], IsValid);
    FilterOne(m, IsValid);
    hide BlockwiseTail, Trusted, EncAll, NoBlankLine, Filter, Classify, Lawful, IsValid;
    BlockwiseIsTrusted(c, b, 0, size);
    StartState(c, b, size);
    UnstoppedReachesHead(c, b, size, |b|, None, []);
  }
}
