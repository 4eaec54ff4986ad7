/** Completed saves, loads and restarts: the persisted anchors stay trustworthy,
    and exactly which load deletes the journal. */
module Anchors {
  import opened Basics
  import opened Lines
  import opened Messages
  import opened ToolCallRepair
  import opened Turns
  import opened Codec
  import opened BackwardScan
  import opened BackwardReader
  import opened ForwardReader
  import opened Writer
  import opened Session

  datatype Step =
    | SaveTurn(batch: seq<Message>, mtime: nat)
    | LoadPrior(strategy: Strategy)
    | RestartContext
    | SaveTokens

  function Do(env: Env, w: World, step: Step): World
    requires env.blockSize > 0
  {
    match step
    case SaveTurn(batch, mtime) => Save(env, w, batch, mtime)
    case LoadPrior(s) => Load(env, w, s).0
    case RestartContext => Restart(env, w)
    case SaveTokens => PersistTokens(w)
  }

  const EMPTY: World := World(None, None, None)

  function RunSteps(env: Env, steps: seq<Step>): World
    requires env.blockSize > 0
  {
    if steps == [] then EMPTY
    else Do(env, RunSteps(env, steps[..|steps| - 1]), steps[|steps| - 1])
  }

  /** What the reader makes of saved turns. */
  function ReadBack(batch: seq<Message>): seq<Message> {
    Repair(Filter(batch, IsValid))
  }

  /** A turn as the agent saves it: it opens with the user's message, whose text
      may be empty. It may be cut off anywhere behind it, dangling calls included. */
  ghost predicate GoodTurn(batch: seq<Message>) {
    batch != [] && OpensRestartBoundary(batch[0])
  }

  function StoredOrZero(o: Option<nat>): nat {
    match o case Some(off) => off case None => 0
  }

  function ContextOffset(w: World): nat {
    if w.session.None? then 0 else StoredOrZero(w.session.value.contextOffset)
  }

  function FullOffset(w: World): nat {
    if w.session.None? then 0 else StoredOrZero(w.session.value.fullRestartOffset)
  }

  /** The slide is due and there is an opener to slide to. */
  predicate Slides(prior: seq<Message>, s: Strategy, weigh: Message -> nat)
    requires s.Sliding?
  {
    WantsSlide(prior, s, weigh) && CountOpeners(prior) > Floor(s)
  }

  /** A load that finds the journal of the turns `all` from its head on, without
      a slide, and no assistant message in it. */
  predicate Deletes(env: Env, w: World, all: seq<Message>, s: Strategy) {
    && w.session.Some? && all != [] && !HasAssistant(ReadBack(all))
    && (if s.Full? then FullOffset(w) == 0
        else ContextOffset(w) == 0 && !Slides(ReadBack(all), s, env.weigh))
  }

  // ----- the invariant -----

  /** `off` is where message `k` of `all` starts, or the end of the journal. */
  ghost predicate AnchorAt(c: Codec, all: seq<Message>, off: nat, k: nat) {
    k <= |all| && off == |EncAll(c, all[..k])|
  }

  ghost predicate RestartAnchor(c: Codec, all: seq<Message>, off: nat) {
    exists k: nat :: AnchorAt(c, all, off, k)
      && (k == |all| || OpensRestartBoundary(all[k]))
  }

  ghost predicate SlideAnchor(c: Codec, all: seq<Message>, off: nat) {
    exists k: nat :: AnchorAt(c, all, off, k) && k < |all| && OpensTurn(all[k])
  }

  ghost predicate GoodAnchors(c: Codec, all: seq<Message>, a: Anchors) {
    && (a.fullRestartOffset.Some? ==> RestartAnchor(c, all, a.fullRestartOffset.value))
    && (StoredOrZero(a.contextOffset) > 0 && a.contextOffset != a.fullRestartOffset ==>
          SlideAnchor(c, all, a.contextOffset.value))
  }

  /** The journal is the lines of `all`, which starts with an opener, and the
      anchors are where openers start or at its end, the restart's not behind
      the window's. */
  ghost predicate Inv(env: Env, w: World, all: seq<Message>) {
    && (w.journal.None? <==> all == [])
    && JournalBytes(w) == EncAll(env.codec, all)
    && (all != [] ==> GoodTurn(all))
    && FullOffset(w) <= ContextOffset(w)
    && (w.session.Some? ==> GoodAnchors(env.codec, all, w.session.value))
  }

  // ----- positions in the journal -----

  lemma SplitJournal(c: Codec, all: seq<Message>, k: nat)
    requires k <= |all|
    ensures EncAll(c, all) == EncAll(c, all[..k]) + EncAll(c, all[k..])
  {
    EncAllAppend(c, all[..k], all[k..]);
    assert all[..k] + all[k..] == all;
  }

  lemma ForwardFromAnchor(c: Codec, all: seq<Message>, off: nat, k: nat)
    requires Lawful(c) && AnchorAt(c, all, off, k)
    ensures off <= |EncAll(c, all)| && Forward(c, EncAll(c, all), off) == Entries(c, all[k..], off)
    ensures MessagesOf(Forward(c, EncAll(c, all), off)) == Filter(all[k..], IsValid)
  {
    hide Forward, Lawful, EncAll;
    SplitJournal(c, all, k);
    ForwardReadsWritten(c, EncAll(c, all[..k]), all[k..]);
    EntriesMessages(c, all[k..], off);
  }

  lemma AnchorInside(c: Codec, all: seq<Message>, off: nat, k: nat)
    requires Lawful(c) && AnchorAt(c, all, off, k)
    ensures k < |all| <==> off < |EncAll(c, all)|
    ensures AtLineStart(EncAll(c, all), off)
  {
    SplitJournal(c, all, k);
    EncAllWholeLines(c, all[..k]);
    if k < |all| {
      assert all[k..][0] == all[k];
    } else {
      assert all[..k] == all;
    }
  }

  /** The first message behind an anchor survives every repair. */
  lemma OpenerStaysFirst(ms: seq<Message>)
    requires ms != [] && ms[0].role == User
    ensures Filter(ms, IsValid) != [] && Filter(ms, IsValid)[0] == ms[0]
    ensures ReadBack(ms) != [] && ReadBack(ms)[0] == ms[0]
  {
    var fs := Filter(ms, IsValid);
    assert fs == [ms[0]] + Filter(ms[1..], IsValid);
    assert !Drops(fs, false);
  }

  /** A stored anchor is never rejected. */
  lemma AnchorIsTrusted(env: Env, all: seq<Message>, off: nat, k: nat, isRestart: bool)
    requires Lawful(env.codec) && AnchorAt(env.codec, all, off, k)
    requires if k == |all| then isRestart || off == 0 else OpensBoundary(all[k], isRestart)
    ensures ReadAnchored(env, EncAll(env.codec, all), off, isRestart)
         == Some(ReadFromValue(env, EncAll(env.codec, all), off))
  {
    hide Lawful, EncAll, Forward, KeepFlags, IsValid;
    var c := env.codec;
    ForwardFromAnchor(c, all, off, k);
    AnchorInside(c, all, off, k);
    if k == |all| {
      assert all[k..] == [];
      EncAllWholeLines(c, all);
      CleanEndOfWholeLines(c, EncAll(c, all));
    } else {
      assert all[k..][0] == all[k];
      OpenerStaysFirst(all[k..]);
    }
  }

  /** Both anchors name a position of the journal. */
  lemma AnchorPositions(env: Env, w: World, all: seq<Message>) returns (kc: nat, kf: nat)
    requires Inv(env, w, all)
    ensures AnchorAt(env.codec, all, ContextOffset(w), kc) && AnchorAt(env.codec, all, FullOffset(w), kf)
    ensures kc == |all| || kc == 0 || OpensTurn(all[kc]) || OpensRestartBoundary(all[kc])
    ensures kf == |all| || kf == 0 || OpensRestartBoundary(all[kf])
  {
    hide OpensTurn, OpensRestartBoundary;
    assert all[..0] == [];
    assert AnchorAt(env.codec, all, 0, 0);
    kc, kf := 0, 0;
    if w.session.Some? {
      var a := w.session.value;
      if a.fullRestartOffset.Some? {
        kf :| AnchorAt(env.codec, all, a.fullRestartOffset.value, kf)
          && (kf == |all| || OpensRestartBoundary(all[kf]));
      }
      if ContextOffset(w) > 0 {
        if a.contextOffset == a.fullRestartOffset {
          kc := kf;
        } else {
          kc :| AnchorAt(env.codec, all, a.contextOffset.value, kc) && kc < |all| && OpensTurn(all[kc]);
        }
      }
    }
  }

  /** In every such state both loads read from exactly the stored anchors: no
      anchor is rejected or cleared. */
  lemma AnchorsNeverRejected(env: Env, w: World, all: seq<Message>)
    requires Lawful(env.codec) && env.blockSize > 0 && Inv(env, w, all)
    ensures WindowSlice(env, w) == (w, ReadFromValue(env, JournalBytes(w), ContextOffset(w)))
    ensures FullSlice(env, w)
         == (w, if FullOffset(w) == 0 then ReadWholeValue(env, JournalBytes(w))
                else ReadFromValue(env, JournalBytes(w), FullOffset(w)))
  {
    hide Lawful, ReadAnchored, ReadFromValue, ReadWholeValue, OpensTurn, OpensRestartBoundary, HasAssistant;
    HeadIsTrusted(env, JournalBytes(w));
    if w.session.Some? {
      var a := w.session.value;
      if a.fullRestartOffset.Some? {
        var off := a.fullRestartOffset.value;
        var k: nat :| AnchorAt(env.codec, all, off, k)
          && (k == |all| || OpensRestartBoundary(all[k]));
        AnchorIsTrusted(env, all, off, k, true);
      }
      if ContextOffset(w) > 0 && a.contextOffset != a.fullRestartOffset {
        var off := a.contextOffset.value;
        var k: nat :| AnchorAt(env.codec, all, off, k) && k < |all| && OpensTurn(all[k]);
        AnchorIsTrusted(env, all, off, k, false);
      }
    }
  }

  lemma HeadIsTrusted(env: Env, b: Bytes)
    ensures forall isRestart: bool :: ReadAnchored(env, b, 0, isRestart) == Some(ReadFromValue(env, b, 0))
  {
  }

  // ----- the whole journal, read backwards -----

  /** What was written is what the backward scan gives, for every block size. */
  lemma ScanReadsWritten(c: Codec, all: seq<Message>, size: nat)
    requires Lawful(c) && size > 0
    ensures BlockwiseTail(c, EncAll(c, all), 0, size) == Scan(Filter(all, IsValid), false)
    ensures ReachesHead(c, EncAll(c, all), size)
  {
    LawfulRejectsBlank(c);
    hide BlockwiseTail, Forward, Lawful, Trusted;
    var b := EncAll(c, all);
    EncAllWholeLines(c, all);
    WholeLinesIff(b);
    assert TornTail(b) == [];
    assert [] + b == b && TornMessages(c, []) == [];
    WrittenIsClean(c, [], all);
    BlockwiseIsTrusted(c, b, 0, size);
    ReadersAgree(c, b, 0);
    ForwardReadsWritten(c, [], all);
    EntriesMessages(c, all, 0);
    assert Filter(all, IsValid) + [] == Filter(all, IsValid);
    StartState(c, b, size);
    UnstoppedReachesHead(c, b, size, |b|, None, []);
  }

  lemma LawfulRejectsBlank(c: Codec)
    requires Lawful(c)
    ensures RejectsBlank(c)
  {
  }

  /** Written lines are neither blank nor corrupt. */
  lemma {:induction false} WrittenIsClean(c: Codec, pre: Bytes, ms: seq<Message>)
    requires Lawful(c)
    ensures NoBlankLine(pre + EncAll(c, ms), |pre|) && Uncorrupted(c, pre + EncAll(c, ms), |pre|)
    decreases |ms|
  {
    hide Lawful, NoBlankLine, Uncorrupted;
    if ms == [] {
      NothingIsClean(c, pre + []);
    } else {
      var line, rest := c.enc(ms[0]) + [NL], EncAll(c, ms[1..]);
      WrittenIsClean(c, pre + line, ms[1..]);
      Assoc(pre, line, rest);
      OneWrittenIsClean(c, pre, ms[0], rest);
    }
  }

  lemma NothingIsClean(c: Codec, b: Bytes)
    ensures NoBlankLine(b, |b|) && Uncorrupted(c, b, |b|)
  {
  }

  lemma OneWrittenIsClean(c: Codec, pre: Bytes, m: Message, rest: Bytes)
    requires Lawful(c)
    requires var next := pre + (c.enc(m) + [NL]);
             NoBlankLine(next + rest, |next|) && Uncorrupted(c, next + rest, |next|)
    ensures var b := pre + (c.enc(m) + [NL]) + rest;
            NoBlankLine(b, |pre|) && Uncorrupted(c, b, |pre|)
  {
    hide Lawful, Classify, NoBlankLine, Uncorrupted, NextNewline;
    var line := c.enc(m);
    LineIsNotBlank(c, m);
    WrittenIsKept(c, m);
    WrittenNewline(pre, line, rest);
    CleanStep(c, pre + (line + [NL]) + rest, |pre|, line);
    WrittenLine(pre, line, rest);
  }

  lemma LineIsNotBlank(c: Codec, m: Message)
    requires Lawful(c)
    ensures !IsBlank(c.enc(m))
  {
  }

  lemma CleanStep(c: Codec, b: Bytes, o: nat, line: Bytes)
    requires o + |line| < |b| && NextNewline(b, o) == o + |line|
    requires !IsBlank(line) && Classify(c, line) != Corrupt
    requires NoBlankLine(b, o + |line| + 1) && Uncorrupted(c, b, o + |line| + 1)
    ensures b[o..o + |line|] == line ==> NoBlankLine(b, o) && Uncorrupted(c, b, o)
  {
    hide IsBlank, Classify;
  }

  // ----- which load deletes the journal -----

  /** An unanchored read of either mode gives the saved turns read back, and
      covers the head. */
  lemma WholeReads(env: Env, w: World, all: seq<Message>)
    requires Lawful(env.codec) && env.blockSize > 0 && Inv(env, w, all)
    ensures ReadFromValue(env, JournalBytes(w), 0).messages == ReadBack(all)
    ensures |ReadFromValue(env, JournalBytes(w), 0).offsets| == |ReadBack(all)|
    ensures ReadWholeValue(env, JournalBytes(w)).messages == ReadBack(all)
    ensures ReadWholeValue(env, JournalBytes(w)).reachedHead
    ensures all != [] ==> ReadBack(all) != []
  {
    assert all[..0] == [] && all[0..] == all && EncAll(env.codec, []) == [];
    if all != [] {
      OpenerStaysFirst(all);
    }
    hide Lawful, Forward, BlockwiseTail, EncAll, KeptFrom;
    ForwardFromAnchor(env.codec, all, 0, 0);
    ScanReadsWritten(env.codec, all, env.blockSize);
    RepairedIsKept(Forward(env.codec, JournalBytes(w), 0));
  }

  /** When a slice slides. */
  lemma SlideIff(env: Env, w: World, slice: PriorSlice, s: Strategy)
    requires s.Sliding? && |slice.offsets| == |slice.messages|
    ensures Slides(slice.messages, s, env.weigh) ==>
              WindowStart(slice.messages, slice.offsets, s.window).Some? && !Slide(env, w, slice, s).1.reachedHead
    ensures !Slides(slice.messages, s, env.weigh) ==> Slide(env, w, slice, s) == (w, slice)
    ensures Slide(env, w, slice, s).0.journal == w.journal
  {
    hide WantsSlide, OpenerIndices, OpensTurn;
  }

  lemma SlidKeepsTail(env: Env, w: World, slice: PriorSlice, s: Strategy)
    requires s.Sliding?
    ensures Slide(env, w, slice, s).1.reachedHead ==> slice.reachedHead
    ensures Slide(env, w, slice, s).0.journal == w.journal
  {
  }

  /** Every load, in every such state and with every setting: it deletes the
      journal exactly when `Deletes` says so, and otherwise returns what its
      anchor, moved by a slide at most, has behind it. */
  lemma LoadDeletesIff(env: Env, w: World, all: seq<Message>, s: Strategy)
    requires Lawful(env.codec) && env.blockSize > 0 && Inv(env, w, all)
    ensures w.journal.Some? && Load(env, w, s).0.journal.None? <==> Deletes(env, w, all, s)
    ensures Deletes(env, w, all, s) ==> Load(env, w, s) == (w.(journal := None, count := None), [])
    ensures !Deletes(env, w, all, s) && w.session.Some? && w.journal.Some? ==>
              var (w', slice) := if s.Full? then FullSlice(env, w) else Slide(env, w, WindowSlice(env, w).1, s);
              Load(env, w, s) == (w', slice.messages)
  {
    if w.session.Some? && w.journal.Some? {
      AnchorsNeverRejected(env, w, all);
      WholeReads(env, w, all);
      hide Lawful, ReadFromValue, ReadWholeValue, FullSlice, WindowSlice, Slide, Slides, HasAssistant,
        JournalBytes, Inv, ReadBack;
      ReachedHeadMeansZero(env, JournalBytes(w), ContextOffset(w));
      ReachedHeadMeansZero(env, JournalBytes(w), FullOffset(w));
      if s.Sliding? {
        var slice := WindowSlice(env, w).1;
        SlidKeepsTail(env, w, slice, s);
        if ContextOffset(w) == 0 {
          SlideIff(env, w, slice, s);
        }
      }
    }
  }

  lemma ReachedHeadMeansZero(env: Env, b: Bytes, off: nat)
    ensures ReadFromValue(env, b, off).reachedHead <==> off == 0
  {
  }

  // ----- the invariant is kept -----

  lemma AnchorSurvivesSave(c: Codec, all: seq<Message>, batch: seq<Message>, off: nat, k: nat)
    requires AnchorAt(c, all, off, k)
    ensures AnchorAt(c, all + batch, off, k)
  {
    assert (all + batch)[..k] == all[..k];
  }

  lemma GoodAnchorsSurviveSave(c: Codec, all: seq<Message>, batch: seq<Message>, a: Anchors)
    requires GoodAnchors(c, all, a) && GoodTurn(batch)
    ensures GoodAnchors(c, all + batch, a)
  {
    hide OpensTurn, OpensRestartBoundary, EncAll;
    if a.fullRestartOffset.Some? {
      var off := a.fullRestartOffset.value;
      var k: nat :| AnchorAt(c, all, off, k) && (k == |all| || OpensRestartBoundary(all[k]));
      AnchorSurvivesSave(c, all, batch, off, k);
      assert (all + batch)[k] == if k == |all| then batch[0] else all[k];
    }
    if StoredOrZero(a.contextOffset) > 0 && a.contextOffset != a.fullRestartOffset {
      var off := a.contextOffset.value;
      var k: nat :| AnchorAt(c, all, off, k) && k < |all| && OpensTurn(all[k]);
      AnchorSurvivesSave(c, all, batch, off, k);
      assert (all + batch)[k] == all[k];
    }
  }

  /** A turn that opens with text and answers no call that dangles in front of it
      is read back on its own, behind what was there. */
  lemma ReadBackAppend(xs: seq<Message>, batch: seq<Message>)
    requires batch != [] && OpensTurn(batch[0]) && KeepsDangling(xs, batch)
    ensures ReadBack(xs + batch) == ReadBack(xs) + ReadBack(batch)
  {
    FilterAppend(xs, batch, IsValid);
    OpenerStaysFirst(batch);
    hide IsValid, KeepsDangling, OpensTurn;
    var fs, added := Filter(xs, IsValid), Filter(batch, IsValid);
    KeepsDanglingFiltered(xs, batch);
    KeepsDanglingFiltered(fs, batch);
    RepairAppend(fs, added, false);
  }

  /** Turns of valid messages whose calls are all answered come back word for word. */
  lemma CleanTurnsReadBackExactly(ms: seq<Message>)
    requires NoDangling(ms) && forall m :: m in ms ==> IsValid(m)
    ensures ReadBack(ms) == ms
  {
    hide IsValid, RepairFrom, NoDangling;
    FilterAll(ms, IsValid);
    RepairIsIdentityIff(ms);
  }

  lemma InvSave(env: Env, w: World, all: seq<Message>, batch: seq<Message>, mtime: nat)
    requires Lawful(env.codec) && Inv(env, w, all) && GoodTurn(batch)
    ensures Inv(env, Save(env, w, batch, mtime), all + batch)
    ensures JournalBytes(Save(env, w, batch, mtime)) == EncAll(env.codec, all) + EncAll(env.codec, batch)
  {
    hide Lawful, EncAll, CleanEndOf, OpensTurn, OpensRestartBoundary, GoodAnchors, NoteAppend;
    EncAllWholeLines(env.codec, all);
    CleanEndOfWholeLines(env.codec, EncAll(env.codec, all));
    EncAllAppend(env.codec, all, batch);
    var b := EncAll(env.codec, all);
    assert b[..|b|] + [] == b;
    if w.session.Some? {
      GoodAnchorsSurviveSave(env.codec, all, batch, w.session.value);
    }
  }

  lemma InvRestart(env: Env, w: World, all: seq<Message>)
    requires Lawful(env.codec) && Inv(env, w, all)
    ensures Inv(env, Restart(env, w), all)
    ensures !(w.session.None? && w.journal.None?) ==>
              ContextOffset(Restart(env, w)) == FullOffset(Restart(env, w)) == |JournalBytes(w)|
  {
    hide Lawful, EncAll, CleanEndOf, OpensTurn, OpensRestartBoundary;
    EncAllWholeLines(env.codec, all);
    CleanEndOfWholeLines(env.codec, EncAll(env.codec, all));
    assert all[..|all|] == all;
    assert AnchorAt(env.codec, all, |EncAll(env.codec, all)|, |all|);
  }

  /** The slide moves the context anchor to the line of a turn opener, forward. */
  lemma SlideTarget(env: Env, all: seq<Message>, off: nat, k: nat, keep: nat) returns (j: nat)
    requires Lawful(env.codec) && AnchorAt(env.codec, all, off, k)
    requires var slice := ReadFromValue(env, EncAll(env.codec, all), off);
             WindowStart(slice.messages, slice.offsets, keep).Some?
    ensures var slice := ReadFromValue(env, EncAll(env.codec, all), off);
            var (index, offset) := WindowStart(slice.messages, slice.offsets, keep).value;
            && AnchorAt(env.codec, all, offset, j) && k <= j < |all| && OpensTurn(all[j]) && off <= offset
            && index < |KeptEntries(Forward(env.codec, EncAll(env.codec, all), off))|
            && KeptEntries(Forward(env.codec, EncAll(env.codec, all), off))[index] == Entry(all[j], offset)
  {
    hide Lawful, EncAll, Forward, KeptFrom, OpensTurn, OpenerIndices;
    var c := env.codec;
    ForwardFromAnchor(c, all, off, k);
    var es := Entries(c, all[k..], off);
    RepairedIsKept(es);
    var slice := ReadFromValue(env, EncAll(c, all), off);
    var (index, offset) := WindowStart(slice.messages, slice.offsets, keep).value;
    WindowStartIsOpener(slice.messages, slice.offsets, keep);
    var p := KeptFromOpener(es, false, index);
    var i := EntryIsWritten(c, all[k..], off, p);
    j := k + i;
    EncAllAppend(c, all[..k], all[k..][..i]);
    assert all[..j] == all[..k] + all[k..][..i];
  }

  lemma WindowStartIsOpener(messages: seq<Message>, offsets: seq<nat>, keep: nat)
    requires WindowStart(messages, offsets, keep).Some?
    ensures var (index, offset) := WindowStart(messages, offsets, keep).value;
            OpensTurn(messages[index]) && offset == offsets[index]
  {
    IndicesAreOpeners(messages, 0);
  }

  lemma {:induction false} IndicesAreOpeners(ms: seq<Message>, base: nat)
    ensures forall k :: 0 <= k < |OpenerIndices(ms, base)| ==> OpensTurn(ms[OpenerIndices(ms, base)[k] - base])
  {
    hide OpensTurn;
    if ms == [] {
    } else {
      IndicesAreOpeners(ms[1..], base + 1);
      var rest := OpenerIndices(ms[1..], base + 1);
      forall k | 0 <= k < |rest| ensures OpensTurn(ms[rest[k] - base]) {
        assert ms[rest[k] - base] == ms[1..][rest[k] - (base + 1)];
      }
    }
  }

  lemma IsSlideAnchor(c: Codec, all: seq<Message>, off: nat, k: nat)
    requires AnchorAt(c, all, off, k) && k < |all| && OpensTurn(all[k])
    ensures SlideAnchor(c, all, off)
  {
  }

  /** A load keeps the invariant for the turns that are left, none when it
      deleted the journal: except that a full load that deletes it leaves a
      window anchor that had slid pointing past the end. */
  lemma InvLoad(env: Env, w: World, all: seq<Message>, s: Strategy)
    requires Lawful(env.codec) && env.blockSize > 0 && Inv(env, w, all)
    ensures !Deletes(env, w, all, s) ==> Inv(env, Load(env, w, s).0, all)
    ensures Deletes(env, w, all, s) ==> (Inv(env, Load(env, w, s).0, []) <==> ContextOffset(w) == 0)
    ensures ContextOffset(w) <= ContextOffset(Load(env, w, s).0) && FullOffset(w) == FullOffset(Load(env, w, s).0)
  {
    LoadDeletesIff(env, w, all, s);
    if Deletes(env, w, all, s) {
      InvDeleted(env, w, all, s);
    } else if w.session.Some? && w.journal.Some? {
      AnchorsNeverRejected(env, w, all);
      if s.Sliding? { InvSlide(env, w, all, s); }
    }
  }

  lemma InvDeleted(env: Env, w: World, all: seq<Message>, s: Strategy)
    requires Inv(env, w, all) && Deletes(env, w, all, s)
    ensures Inv(env, w.(journal := None, count := None), []) <==> ContextOffset(w) == 0
  {
    hide HasAssistant, ReadBack, Slides, OpensTurn, OpensRestartBoundary;
    var none: seq<Message> := [];
    var w', c := w.(journal := None, count := None), env.codec;
    assert none[..0] == none && EncAll(c, none) == [];
    if ContextOffset(w) == 0 {
      assert AnchorAt(c, none, 0, 0);
      assert RestartAnchor(c, none, 0);
    }
  }

  lemma InvSlide(env: Env, w: World, all: seq<Message>, s: Strategy)
    requires Lawful(env.codec) && Inv(env, w, all) && s.Sliding? && w.session.Some? && w.journal.Some?
    ensures var w' := Slide(env, w, ReadFromValue(env, JournalBytes(w), ContextOffset(w)), s).0;
            Inv(env, w', all) && ContextOffset(w) <= ContextOffset(w') && FullOffset(w) == FullOffset(w')
  {
    hide Lawful, EncAll, ReadFromValue, WindowStart, WantsSlide, OpensTurn, OpensRestartBoundary, SlideAnchor,
      RestartAnchor, AnchorAt;
    var slice := ReadFromValue(env, EncAll(env.codec, all), ContextOffset(w));
    if WindowStart(slice.messages, slice.offsets, s.window).Some? {
      var kc, kf := AnchorPositions(env, w, all);
      var j := SlideTarget(env, all, ContextOffset(w), kc, s.window);
      IsSlideAnchor(env.codec, all, WindowStart(slice.messages, slice.offsets, s.window).value.1, j);
    }
  }
}
