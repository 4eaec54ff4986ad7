/** `/context restart` on any journal, torn or corrupt, in both modes. */
module RestartRuns {
  import opened Basics
  import opened Lines
  import opened Messages
  import opened ToolCallRepair
  import opened Turns
  import opened Codec
  import opened BackwardScan
  import opened BackwardReader
  import opened ForwardReader
  import opened Writer
  import opened Session
  import opened Anchors
  import opened SavedJournal
  import opened WindowRuns

  // ----- right after the restart -----

  /** Nothing readable lies behind the clean end. */
  lemma NothingBehindCleanEnd(c: Codec, b: Bytes)
    ensures CleanEndOf(c, b).offset > 0 ==> Forward(c, b, CleanEndOf(c, b).offset) == []
    ensures CleanEndOf(c, b).offset == 0 ==> LineStart(b, |b|) == 0 && Forward(c, b, 0) == []
  {
    var cut := LineStart(b, |b|);
    NextNewlineIs(b, cut, |b|);
    ForwardEnds(c, b, cut);
  }

  lemma RestartAnchorsAtCleanEnd(env: Env, w: World)
    requires w.journal.Some?
    ensures var off := CleanEndOf(env.codec, JournalBytes(w)).offset;
            Restart(env, w) == w.(session := Some(Anchors(Some(off), Some(off))))
  {
  }

  lemma EmptySlice(env: Env, b: Bytes, off: nat)
    requires Forward(env.codec, b, off) == []
    ensures ReadFromValue(env, b, off) == PriorSlice([], [], off == 0)
  {
  }

  /** The boundary just written is trusted although nothing lies behind it. */
  lemma FreshBoundaryIsTrusted(env: Env, b: Bytes)
    ensures var off := CleanEndOf(env.codec, b).offset;
            ReadAnchored(env, b, off, true) == Some(PriorSlice([], [], off == 0))
  {
    hide Forward, CleanEndOf;
    NothingBehindCleanEnd(env.codec, b);
    EmptySlice(env, b, CleanEndOf(env.codec, b).offset);
  }

  lemma EmptyWindowStays(env: Env, w: World, s: Strategy)
    requires s.Sliding?
    ensures Slide(env, w, PriorSlice([], [], true), s) == (w, PriorSlice([], [], true))
    ensures Slide(env, w, PriorSlice([], [], false), s) == (w, PriorSlice([], [], false))
  {
  }

  /** The next sliding load is empty and changes nothing, on every journal. */
  lemma RestartEmptiesWindow(env: Env, w: World, s: Strategy)
    requires env.blockSize > 0 && w.journal.Some? && s.Sliding?
    ensures Load(env, Restart(env, w), s) == (Restart(env, w), [])
  {
    hide ReadAnchored, CleanEndOf, Slide, HasAssistant;
    RestartAnchorsAtCleanEnd(env, w);
    FreshBoundaryIsTrusted(env, JournalBytes(w));
    EmptyWindowStays(env, Restart(env, w), s);
  }

  /** The journal is one unterminated line that reads as a message and is not
      a dangling call: all the full load can still see after a restart. */
  ghost predicate LoneMessage(c: Codec, b: Bytes) {
    !EmptyOrHasNewline(b) && Classify(c, b).Keep? && !Dangling(Classify(c, b).message, [])
  }

  lemma LoneLineScan(env: Env, b: Bytes)
    requires ValidEnv(env) && LineStart(b, |b|) == 0
    ensures ReadWholeValue(env, b).messages == Repair(TornMessages(env.codec, b))
    ensures Classify(env.codec, b).Keep? ==> ReadWholeValue(env, b).reachedHead
  {
    NextNewlineIs(b, 0, |b|);
    assert b[0..] == b;
    StartState(env.codec, b, env.blockSize);
    if Classify(env.codec, b).Keep? {
      UnstoppedReachesHead(env.codec, b, env.blockSize, |b|, None, []);
    }
  }

  lemma RepairOne(m: Message)
    ensures Repair([m]) == if Dangling(m, []) then [] else [m]
  {
    var rest: seq<Message> := [];
    assert [m][1..] == rest && [m][0] == m;
    assert Drops([m], false) == Dangling(m, rest);
    assert RepairFrom(rest, Drops([m], false)) == [];
  }

  /** The next full load is empty and leaves the journal alone exactly when the
      journal is not a lone unterminated message. Otherwise it returns that
      message, or deletes the journal when no assistant wrote it. */
  lemma RestartEmptiesFullIff(env: Env, w: World)
    requires ValidEnv(env) && w.journal.Some?
    ensures Load(env, Restart(env, w), Full) == (Restart(env, w), []) <==> !LoneMessage(env.codec, JournalBytes(w))
    ensures LoneMessage(env.codec, JournalBytes(w)) ==>
              var m := Classify(env.codec, JournalBytes(w)).message;
              if m.role == Assistant then Load(env, Restart(env, w), Full).1 == [m]
              else Load(env, Restart(env, w), Full).0.journal == None
  {
    var b, c := JournalBytes(w), env.codec;
    RestartAnchorsAtCleanEnd(env, w);
    FreshBoundaryIsTrusted(env, b);
    NothingBehindCleanEnd(c, b);
    NoNewlineStartsAtZero(b);
    var off := CleanEndOf(c, b).offset;
    if off == 0 {
      LoneLineScan(env, b);
      ClassifyEmpty(c, b);
      if Classify(c, b).Keep? {
        RepairOne(Classify(c, b).message);
      }
    }
    hide Forward, BlockwiseTail, CleanEndOf, Repair, Classify, ReadAnchored, Dangling, ReadWholeValue;
    assert off > 0 ==> EmptyOrHasNewline(b);
  }

  lemma ClassifyEmpty(c: Codec, b: Bytes)
    ensures b == [] ==> Classify(c, b) == Empty
  {
  }

  /** On every journal that is empty or has a newline, whatever is torn or
      corrupt in it, a restart empties both modes and keeps every byte. */
  lemma RestartEmptiesBoth(env: Env, w: World, s: Strategy)
    requires ValidEnv(env) && w.journal.Some? && EmptyOrHasNewline(JournalBytes(w))
    ensures Load(env, Restart(env, w), s) == (Restart(env, w), [])
    ensures Restart(env, w).journal == w.journal
  {
    hide Load, Forward, BlockwiseTail, Classify, Dangling;
    RestartAnchorsAtCleanEnd(env, w);
    if s.Sliding? { RestartEmptiesWindow(env, w, s); } else { RestartEmptiesFullIff(env, w); }
  }

  /** A journal that holds nothing but one user message whose newline was lost:
      restarting and loading in full mode deletes it. */
  lemma RestartCanLoseJournal(env: Env, w: World, m: Message)
    requires ValidEnv(env) && Lawful(env.codec) && m.role == User && JournalBytes(w) == env.codec.enc(m)
    ensures w.journal.Some? && Load(env, Restart(env, w), Full).0.journal == None
  {
    assert !EmptyOrHasNewline(env.codec.enc(m));
    assert IsValid(m) && Classify(env.codec, env.codec.enc(m)) == Keep(m);
    assert !Dangling(m, []);
    RestartEmptiesFullIff(env, w);
  }

  // ----- after further turns -----

  /** Completed saves, one after another; `stamp` gives the file's times. */
  function SaveAll(env: Env, w: World, turns: seq<seq<Message>>, stamp: nat -> nat): World {
    if turns == [] then w
    else
      var n := |turns| - 1;
      Save(env, SaveAll(env, w, turns[..n], stamp), turns[n], stamp(n))
  }

  /** The messages of the turns, in order. */
  function Told(turns: seq<seq<Message>>): seq<Message> {
    if turns == [] then [] else Told(turns[..|turns| - 1]) + turns[|turns| - 1]
  }

  ghost predicate LegalTurns(turns: seq<seq<Message>>) {
    turns == [] ||
    (var before, last := turns[..|turns| - 1], turns[|turns| - 1];
     LegalTurns(before) && GoodTurn(last))
  }

  lemma {:induction false} SaveAllAppends(env: Env, w: World, turns: seq<seq<Message>>, stamp: nat -> nat)
    requires turns != []
    ensures JournalBytes(SaveAll(env, w, turns, stamp))
         == Base(env.codec, JournalBytes(w)) + EncAll(env.codec, Told(turns))
    ensures SaveAll(env, w, turns, stamp).session == w.session && SaveAll(env, w, turns, stamp).journal.Some?
  {
    var before, last := turns[..|turns| - 1], turns[|turns| - 1];
    BaseIsWholeLines(env.codec, JournalBytes(w));
    hide CleanEndOf, EncAll, Base, NoteAppend;
    if before == [] {
      assert [] + last == last;
      assert Told(before) == [];
    } else {
      SaveAllAppends(env, w, before, stamp);
      SaveBehindLines(env.codec, Base(env.codec, JournalBytes(w)), Told(before), last);
    }
  }

  lemma {:induction false} ToldIsGood(turns: seq<seq<Message>>)
    requires LegalTurns(turns) && turns != []
    ensures GoodTurn(Told(turns))
  {
    hide OpensRestartBoundary;
    var before, last := turns[..|turns| - 1], turns[|turns| - 1];
    if before == [] {
      assert Told(before) == [] && [] + last == last;
    } else {
      ToldIsGood(before);
    }
  }

  /** Behind the restart anchor lie exactly the new turns, even when the save
      first had to terminate a recovered line there. */
  lemma NewTurnsBehindAnchor(c: Codec, b: Bytes, ms: seq<Message>)
    requires Lawful(c)
    ensures MessagesOf(Forward(c, Base(c, b) + EncAll(c, ms), CleanEndOf(c, b).offset)) == Filter(ms, IsValid)
  {
    hide Forward, Lawful, CleanEndOf, Base, EncAll, Entries, IsValid;
    var base, off := Base(c, b), CleanEndOf(c, b).offset;
    ForwardReadsWritten(c, base, ms);
    EntriesMessages(c, ms, |base|);
    BaseEdge(c, b);
    if |base| > off {
      assert (base + EncAll(c, ms))[off] == base[off];
      EmptyLineFirst(c, base + EncAll(c, ms), off);
    }
  }

  lemma BaseEdge(c: Codec, b: Bytes)
    ensures var base, off := Base(c, b), CleanEndOf(c, b).offset;
            |base| == off || (|base| == off + 1 && base[off] == NL)
  {
  }

  lemma EmptyLineFirst(c: Codec, b: Bytes, off: nat)
    requires off < |b| && b[off] == NL
    ensures Forward(c, b, off) == Forward(c, b, off + 1)
  {
    assert b[off..off] == [];
    ForwardStep(c, b, off, off);
  }

  lemma AppendedIsLonger(c: Codec, b: Bytes, ms: seq<Message>)
    requires ms != []
    ensures |Base(c, b) + EncAll(c, ms)| > CleanEndOf(c, b).offset
  {
  }

  /** The boundary is trusted again once turns lie behind it. */
  lemma AnchoredReadOfNewTurns(env: Env, w: World, turns: seq<seq<Message>>, stamp: nat -> nat)
    requires Lawful(env.codec) && LegalTurns(turns) && turns != []
    ensures var b' := JournalBytes(SaveAll(env, w, turns, stamp));
            var off := CleanEndOf(env.codec, JournalBytes(w)).offset;
            && ReadFromValue(env, b', off).messages == ReadBack(Told(turns))
            && ReadAnchored(env, b', off, true) == Some(ReadFromValue(env, b', off))
  {
    var b := JournalBytes(w);
    hide Lawful, Forward, CleanEndOf, EncAll, Base, OpensRestartBoundary, OpensTurn, RepairFrom, KeepFlags,
      SaveAll, Told;
    SaveAllAppends(env, w, turns, stamp);
    ToldIsGood(turns);
    NewTurnsBehindAnchor(env.codec, b, Told(turns));
    OpenerIsUser(Told(turns)[0]);
    OpenerStaysFirst(Told(turns));
    AppendedIsLonger(env.codec, b, Told(turns));
  }

  lemma OpenerIsUser(m: Message)
    requires OpensRestartBoundary(m)
    ensures m.role == User
  {
  }

  /** When the anchor is the head, the whole-journal scan sees the same turns. */
  lemma WholeReadAtZero(env: Env, w: World, turns: seq<seq<Message>>, stamp: nat -> nat)
    requires Lawful(env.codec) && env.blockSize > 0 && turns != []
    requires CleanEndOf(env.codec, JournalBytes(w)).offset == 0
    ensures ReadWholeValue(env, JournalBytes(SaveAll(env, w, turns, stamp)))
         == PriorSlice(ReadBack(Told(turns)), [], true)
  {
    SaveAllAppends(env, w, turns, stamp);
    assert Base(env.codec, JournalBytes(w)) == [];
    assert [] + EncAll(env.codec, Told(turns)) == EncAll(env.codec, Told(turns));
    hide Lawful, BlockwiseTail, EncAll, CleanEndOf;
    ScanReadsWritten(env.codec, Told(turns), env.blockSize);
  }

  /** A load that starts at the head, keeps all of it and finds no assistant. */
  predicate LosesTurns(env: Env, off: nat, prior: seq<Message>, s: Strategy) {
    off == 0 && !HasAssistant(prior) && (s.Sliding? ==> !Slides(prior, s, env.weigh))
  }

  /** A load from anchors that hold. */
  lemma LoadFromAnchor(env: Env, w: World, off: nat, prior: seq<Message>, s: Strategy)
    requires env.blockSize > 0 && w.journal.Some? && w.session == Some(Anchors(Some(off), Some(off)))
    requires ReadAnchored(env, JournalBytes(w), off, true) == Some(ReadFromValue(env, JournalBytes(w), off))
    requires ReadFromValue(env, JournalBytes(w), off).messages == prior != []
    requires off == 0 ==> ReadWholeValue(env, JournalBytes(w)) == PriorSlice(prior, [], true)
    ensures Load(env, w, s).0.journal.None? <==> LosesTurns(env, off, prior, s)
    ensures Load(env, w, s).1
         == if LosesTurns(env, off, prior, s) then [] else if s.Full? then prior else Trim(prior, s, env.weigh)
  {
    ReachedHeadMeansZero(env, JournalBytes(w), off);
    if s.Sliding? {
      SlideIsTrim(env, w, off, s);
      TrimHasEnd(prior, s, env.weigh);
    }
    hide ReadAnchored, ReadFromValue, ReadWholeValue, HasAssistant, Slide, WindowEntries, Trim, Slides;
  }

  lemma TrimHasEnd(prior: seq<Message>, s: Strategy, weigh: Message -> nat)
    requires s.Sliding? && prior != []
    ensures Trim(prior, s, weigh) == prior || Slides(prior, s, weigh)
    ensures Trim(prior, s, weigh) != []
  {
    TrimLaws(prior, s, weigh);
  }

  lemma SlideIsTrim(env: Env, w: World, off: nat, s: Strategy)
    requires s.Sliding? && ContextOffset(w) == off
    ensures var slice := ReadFromValue(env, JournalBytes(w), off);
            var (w', kept) := Slide(env, w, slice, s);
            && w'.journal == w.journal
            && kept.messages == Trim(slice.messages, s, env.weigh)
            && (if Slides(slice.messages, s, env.weigh) then !kept.reachedHead else kept == slice)
  {
    hide ReadFromValue, Slide, WantsSlide, WindowEntries, CountOpeners;
    SlideOfWindow(env, w, s);
  }

  /** After a restart on any journal and any further completed turns, both modes
      see exactly those turns: nothing from before the restart, nothing lost. The
      one exception is a restart anchor at the head with no answer behind it:
      there the load takes the turns for corruption and deletes them. */
  lemma RestartThenTurns(env: Env, w: World, turns: seq<seq<Message>>, stamp: nat -> nat, s: Strategy)
    requires Lawful(env.codec) && env.blockSize > 0 && w.journal.Some? && LegalTurns(turns) && turns != []
    ensures var after, prior := SaveAll(env, Restart(env, w), turns, stamp), ReadBack(Told(turns));
            var lost := LosesTurns(env, CleanEndOf(env.codec, JournalBytes(w)).offset, prior, s);
            && (Load(env, after, s).0.journal.None? <==> lost)
            && Load(env, after, s).1 == if lost then [] else if s.Full? then prior else Trim(prior, s, env.weigh)
  {
    hide Lawful, CleanEndOf, ReadFromValue, ReadWholeValue, ReadAnchored, ReadBack, Trim, SaveAll, Told, Load,
      LegalTurns, Base, LosesTurns, OpensTurn, OpensRestartBoundary;
    var w1 := Restart(env, w);
    RestartAnchorsAtCleanEnd(env, w);
    SaveAllAppends(env, w1, turns, stamp);
    AnchoredReadOfNewTurns(env, w1, turns, stamp);
    ToldIsGood(turns);
    OpenerIsUser(Told(turns)[0]);
    OpenerStaysFirst(Told(turns));
    var off := CleanEndOf(env.codec, JournalBytes(w)).offset;
    if off == 0 {
      WholeReadAtZero(env, w1, turns, stamp);
    }
    LoadFromAnchor(env, SaveAll(env, w1, turns, stamp), off, ReadBack(Told(turns)), s);
  }
}
