/** What holds after every run of completed saves, loads and restarts from an
    empty topic. */
module AnchorRuns {
  import opened Basics
  import opened Lines
  import opened Messages
  import opened ToolCallRepair
  import opened Turns
  import opened Codec
  import opened Writer
  import opened Session
  import opened Anchors

  /** What the journal holds after one more step. */
  function HeldAfter(env: Env, w: World, held: seq<Message>, step: Step): seq<Message> {
    match step
    case SaveTurn(batch, _) => held + batch
    case LoadPrior(s) => if Deletes(env, w, held, s) then [] else held
    case _ => held
  }

  /** The saved turns that no load has deleted. */
  function Held(env: Env, steps: seq<Step>): seq<Message>
    requires env.blockSize > 0
  {
    if steps == [] then []
    else
      var before := steps[..|steps| - 1];
      HeldAfter(env, RunSteps(env, before), Held(env, before), steps[|steps| - 1])
  }

  /** A load that deletes the journal although the window had slid in it: its
      anchor then points into a journal that is gone. */
  predicate LeavesStaleAnchor(env: Env, w: World, held: seq<Message>, s: Strategy) {
    Deletes(env, w, held, s) && ContextOffset(w) > 0
  }

  ghost predicate LegalStep(env: Env, w: World, held: seq<Message>, step: Step) {
    match step
    case SaveTurn(batch, _) => GoodTurn(batch)
    case LoadPrior(s) => !LeavesStaleAnchor(env, w, held, s)
    case _ => true
  }

  /** Every saved turn opens with a user message, and no load leaves a stale anchor. */
  ghost predicate LegalRun(env: Env, steps: seq<Step>)
    requires env.blockSize > 0
  {
    steps == [] ||
    (var before := steps[..|steps| - 1];
     LegalRun(env, before) && LegalStep(env, RunSteps(env, before), Held(env, before), steps[|steps| - 1]))
  }

  lemma InvStep(env: Env, w: World, all: seq<Message>, step: Step)
    requires Lawful(env.codec) && env.blockSize > 0 && Inv(env, w, all) && LegalStep(env, w, all, step)
    ensures Inv(env, Do(env, w, step), HeldAfter(env, w, all, step))
    ensures ContextOffset(w) <= ContextOffset(Do(env, w, step))
    ensures FullOffset(w) <= FullOffset(Do(env, w, step))
  {
    hide Lawful, GoodTurn, Inv, Save, Load, Restart, Deletes;
    match step
    case SaveTurn(batch, mtime) =>
      InvSave(env, w, all, batch, mtime);
      SaveKeepsAnchors(env, w, batch, mtime);
    case LoadPrior(s) => InvLoad(env, w, all, s);
    case RestartContext =>
      InvRestart(env, w, all);
      AnchorsInJournal(env, w, all);
      RestartOfNothing(env, w);
    case SaveTokens => InvTokens(env, w, all);
  }

  lemma SaveKeepsAnchors(env: Env, w: World, batch: seq<Message>, mtime: nat)
    ensures Save(env, w, batch, mtime).session == w.session
  {
  }

  lemma RestartOfNothing(env: Env, w: World)
    ensures w.session.None? && w.journal.None? ==> Restart(env, w) == w
  {
  }

  lemma InvTokens(env: Env, w: World, all: seq<Message>)
    requires Inv(env, w, all)
    ensures Inv(env, PersistTokens(w), all)
    ensures ContextOffset(PersistTokens(w)) == ContextOffset(w) && FullOffset(PersistTokens(w)) == FullOffset(w)
  {
    hide GoodAnchors, GoodTurn;
    assert GoodAnchors(env.codec, all, Anchors(None, None)) by { EmptyAnchorsAreGood(env.codec, all); }
  }

  lemma EmptyAnchorsAreGood(c: Codec, all: seq<Message>)
    ensures GoodAnchors(c, all, Anchors(None, None))
  {
  }

  lemma AnchorsInJournal(env: Env, w: World, all: seq<Message>)
    requires Lawful(env.codec) && Inv(env, w, all)
    ensures ContextOffset(w) <= |JournalBytes(w)| && AtLineStart(JournalBytes(w), ContextOffset(w))
    ensures FullOffset(w) <= |JournalBytes(w)| && AtLineStart(JournalBytes(w), FullOffset(w))
  {
    hide Lawful, GoodAnchors, EncAll;
    var kc, kf := AnchorPositions(env, w, all);
    AnchorInside(env.codec, all, ContextOffset(w), kc);
    AnchorInside(env.codec, all, FullOffset(w), kf);
  }

  lemma {:induction false} RunInvariant(env: Env, steps: seq<Step>)
    requires Lawful(env.codec) && env.blockSize > 0 && LegalRun(env, steps)
    ensures Inv(env, RunSteps(env, steps), Held(env, steps))
  {
    if steps == [] {
      StartInv(env);
    } else {
      hide Inv, Do, Lawful, LegalStep, HeldAfter;
      var before := steps[..|steps| - 1];
      RunInvariant(env, before);
      InvStep(env, RunSteps(env, before), Held(env, before), steps[|steps| - 1]);
    }
  }

  lemma StartInv(env: Env)
    ensures Inv(env, EMPTY, [])
  {
  }

  /** After every legal run the journal is exactly the saved turns it still
      holds, every anchor is a line start or the clean end, the loads read from
      exactly the stored anchors (none is rejected or cleared), and the next
      load deletes the journal exactly when it finds no assistant from the head on. */
  lemma AnchorsStayTrustworthy(env: Env, steps: seq<Step>, s: Strategy)
    requires Lawful(env.codec) && env.blockSize > 0 && LegalRun(env, steps)
    ensures var w, held := RunSteps(env, steps), Held(env, steps);
            && JournalBytes(w) == EncAll(env.codec, held)
            && WindowSlice(env, w) == (w, ReadFromValue(env, JournalBytes(w), ContextOffset(w)))
            && FullSlice(env, w) == (w, if FullOffset(w) == 0 then ReadWholeValue(env, JournalBytes(w))
                                        else ReadFromValue(env, JournalBytes(w), FullOffset(w)))
            && AtLineStart(JournalBytes(w), ContextOffset(w)) && AtLineStart(JournalBytes(w), FullOffset(w))
            && (w.journal.Some? && Load(env, w, s).0.journal.None? <==> Deletes(env, w, held, s))
  {
    hide Lawful, Load, WindowSlice, FullSlice, ReadFromValue, ReadWholeValue, RunSteps, LegalRun, Deletes, Held;
    RunInvariant(env, steps);
    var w, held := RunSteps(env, steps), Held(env, steps);
    assert JournalBytes(w) == EncAll(env.codec, held);
    AnchorsNeverRejected(env, w, held);
    LoadDeletesIff(env, w, held, s);
    AnchorsInJournal(env, w, held);
  }

  /** Over any continuation of a legal run neither anchor ever moves back. */
  lemma {:induction false} AnchorsNeverDecrease(env: Env, steps: seq<Step>, n: nat)
    requires Lawful(env.codec) && env.blockSize > 0 && LegalRun(env, steps) && n <= |steps|
    ensures ContextOffset(RunSteps(env, steps[..n])) <= ContextOffset(RunSteps(env, steps))
    ensures FullOffset(RunSteps(env, steps[..n])) <= FullOffset(RunSteps(env, steps))
  {
    if n == |steps| {
      assert steps[..n] == steps;
    } else {
      hide Inv, Do, Lawful, LegalStep, HeldAfter;
      var before := steps[..|steps| - 1];
      AnchorsNeverDecrease(env, before, n);
      assert before[..n] == steps[..n];
      RunInvariant(env, before);
      InvStep(env, RunSteps(env, before), Held(env, before), steps[|steps| - 1]);
    }
  }

  // ----- runs that keep the journal -----

  function Written(steps: seq<Step>): seq<Message> {
    if steps == [] then []
    else
      var last := steps[|steps| - 1];
      Written(steps[..|steps| - 1]) + if last.SaveTurn? then last.batch else []
  }

  /** Saved turns that open with a user message, the first of them read back with
      an assistant message; any loads and restarts. */
  ghost predicate AnsweredRun(steps: seq<Step>) {
    steps == [] ||
    (var before, last := steps[..|steps| - 1], steps[|steps| - 1];
     && AnsweredRun(before)
     && (last.SaveTurn? ==>
           && GoodTurn(last.batch)
           && (Written(before) == [] ==> HasAssistant(ReadBack(last.batch)))))
  }

  lemma AnsweredStays(all: seq<Message>, batch: seq<Message>)
    requires if all == [] then HasAssistant(ReadBack(batch)) else HasAssistant(ReadBack(all))
    ensures HasAssistant(ReadBack(all + batch))
  {
    if all == [] {
      assert all + batch == batch;
    } else {
      FilterAppend(all, batch, IsValid);
      KeptStaysKept(Filter(all, IsValid), Filter(batch, IsValid), false, false);
      hide RepairFrom, IsValid, Filter;
      var k :| 0 <= k < |ReadBack(all)| && ReadBack(all)[k].role == Assistant;
      assert ReadBack(all)[k] in ReadBack(all + batch);
    }
  }

  /** When the first turn of a topic got an answer, no load ever deletes the
      journal: it holds everything that was saved. */
  lemma {:induction false} AnsweredRunsKeepAll(env: Env, steps: seq<Step>)
    requires Lawful(env.codec) && env.blockSize > 0 && AnsweredRun(steps)
    ensures LegalRun(env, steps) && Held(env, steps) == Written(steps)
    ensures Written(steps) != [] ==> HasAssistant(ReadBack(Written(steps)))
    ensures forall s: Strategy :: Load(env, RunSteps(env, steps), s).0.journal == RunSteps(env, steps).journal
  {
    hide ReadBack, OpensRestartBoundary, HasAssistant, Lawful, Load, RunSteps, Inv, FullOffset, ContextOffset, Slides;
    if steps == [] {
    } else {
      var before, last := steps[..|steps| - 1], steps[|steps| - 1];
      AnsweredRunsKeepAll(env, before);
      if last.SaveTurn? {
        AnsweredStays(Written(before), last.batch);
      } else {
        assert Written(before) + [] == Written(before);
      }
    }
    RunInvariant(env, steps);
    forall s: Strategy ensures Load(env, RunSteps(env, steps), s).0.journal == RunSteps(env, steps).journal {
      NothingDeleted(env, steps, s);
    }
  }

  lemma NothingDeleted(env: Env, steps: seq<Step>, s: Strategy)
    requires Lawful(env.codec) && env.blockSize > 0 && Inv(env, RunSteps(env, steps), Held(env, steps))
    requires Held(env, steps) != [] ==> HasAssistant(ReadBack(Held(env, steps)))
    ensures Load(env, RunSteps(env, steps), s).0.journal == RunSteps(env, steps).journal
  {
    LoadDeletesIff(env, RunSteps(env, steps), Held(env, steps), s);
    hide ReadBack, HasAssistant, Lawful, RunSteps, Inv, FullSlice, WindowSlice, Slide, Held;
    LoadMayOnlyDelete(env, RunSteps(env, steps), s);
  }

  lemma LoadMayOnlyDelete(env: Env, w: World, s: Strategy)
    requires env.blockSize > 0
    ensures Load(env, w, s).0.journal == w.journal || Load(env, w, s).0.journal.None?
  {
    hide ReadAnchored, ReadFromValue, ReadWholeValue, WindowStart, WantsSlide, HasAssistant;
  }

  // ----- runs that lose it -----

  /** A first turn that reads back without an assistant is lost by the next load,
      in either mode. */
  lemma UnansweredFirstTurnIsLost(env: Env, batch: seq<Message>, mtime: nat, s: Strategy)
    requires Lawful(env.codec) && env.blockSize > 0 && GoodTurn(batch) && !HasAssistant(ReadBack(batch))
    requires s.Sliding? ==> !Slides(ReadBack(batch), s, env.weigh)
    ensures var w := RunSteps(env, [SaveTokens, SaveTurn(batch, mtime)]);
            w.journal.Some? && Load(env, w, s).0.journal == None
  {
    var steps := [SaveTokens, SaveTurn(batch, mtime)];
    assert steps[..1] == [SaveTokens] && steps[..1][..0] == [];
    TwoSteps(env, batch, mtime);
    hide Load, Lawful, HasAssistant, ReadBack, GoodTurn, Slides;
    LoadDeletesIff(env, RunSteps(env, steps), batch, s);
  }

  lemma TwoSteps(env: Env, batch: seq<Message>, mtime: nat)
    requires Lawful(env.codec) && env.blockSize > 0 && GoodTurn(batch)
    ensures var w := RunSteps(env, [SaveTokens, SaveTurn(batch, mtime)]);
            && Inv(env, w, batch) && w.journal.Some?
            && w.session == Some(Anchors(None, None)) && FullOffset(w) == ContextOffset(w) == 0
  {
    var one, two := [SaveTokens], [SaveTokens, SaveTurn(batch, mtime)];
    assert one[..0] == [] && two[..1] == one;
    assert RunSteps(env, []) == EMPTY;
    assert RunSteps(env, one) == PersistTokens(EMPTY);
    assert RunSteps(env, two) == Save(env, RunSteps(env, one), batch, mtime);
    hide RunSteps, Lawful, GoodTurn, CleanEndOf, EncAll;
    StartInv(env);
    InvTokens(env, EMPTY, []);
    InvSave(env, PersistTokens(EMPTY), [], batch, mtime);
    SaveKeepsAnchors(env, PersistTokens(EMPTY), batch, mtime);
    assert [] + batch == batch;
  }

  /** A first turn cancelled before any answer is one user message: the next
      load, whatever its settings, deletes it. */
  lemma CancelledFirstTurnIsLost(env: Env, user: Message, mtime: nat, s: Strategy)
    requires Lawful(env.codec) && env.blockSize > 0 && OpensTurn(user) && OpensRestartBoundary(user)
    ensures var w := RunSteps(env, [SaveTokens, SaveTurn([user], mtime)]);
            w.journal.Some? && Load(env, w, s).0.journal == None
  {
    LoneUserReadsBack(user);
    hide Load, Lawful, RunSteps, ReadBack;
    UnansweredFirstTurnIsLost(env, [user], mtime, s);
  }

  lemma LoneUserReadsBack(user: Message)
    requires OpensTurn(user)
    ensures ReadBack([user]) == [user] && !HasAssistant([user]) && CountOpeners([user]) <= 1
  {
    var rest: seq<Message> := [];
    assert [user][1..] == rest && [user][0] == user;
    assert user.role == User && !Drops([user], false);
    hide OpensTurn, Dangling;
    FilterOne(user, IsValid);
    assert RepairFrom(rest, false) == [];
    assert RepairFrom([user], false) == [user] + RepairFrom(rest, false);
    assert CountOpeners(rest) == 0;
  }

  /** After such a deletion under a window that had slid, the window's anchor no
      longer names a place in the journal, and a sliding load that finds a
      shorter new journal rejects and clears it. */
  lemma StaleAnchorIsRejected(env: Env, w: World, held: seq<Message>, s: Strategy, batch: seq<Message>, mtime: nat)
    requires Lawful(env.codec) && env.blockSize > 0 && Inv(env, w, held) && LeavesStaleAnchor(env, w, held, s)
    requires batch != [] && |EncAll(env.codec, batch)| <= ContextOffset(w)
    ensures var gone := Load(env, w, s).0;
            var again := Save(env, gone, batch, mtime);
            && ContextOffset(gone) > |JournalBytes(gone)| == 0
            && ContextOffset(again) > 0 && ContextOffset(WindowSlice(env, again).0) == 0
  {
    LoadDeletesIff(env, w, held, s);
    hide Lawful, ReadFromValue, HasAssistant, ReadBack, EncAll, GoodTurn, OpensTurn, OpensRestartBoundary, Slides, Load;
    var gone := w.(journal := None, count := None);
    CleanEndOfWholeLines(env.codec, []);
    var none: Bytes := [];
    assert none[..0] + none + EncAll(env.codec, batch) == EncAll(env.codec, batch);
    assert FullOffset(w) == 0;
  }
}
