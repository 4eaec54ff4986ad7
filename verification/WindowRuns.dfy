/** What the model sees: a machine over message lists that every run of the
    byte-level topic refines, and the laws of its sliding window. */
module WindowRuns {
  import opened Basics
  import opened Messages
  import opened ToolCallRepair
  import opened Turns
  import opened Depth
  import opened Codec
  import opened BackwardScan
  import opened ForwardReader
  import opened Session
  import opened Anchors
  import opened AnchorRuns
  import opened Writer

  // ----- the abstract window -----

  /** A load on message lists: the prior as it is, or its last `Floor` turns. */
  function Trim(prior: seq<Message>, s: Strategy, weigh: Message -> nat): seq<Message>
    requires s.Sliding?
  {
    if Slides(prior, s, weigh) then prior[OpenersStart(prior, Floor(s))..] else prior
  }

  /** What each mode would return next, whether the two files exist, and whether
      each mode reads from the journal's head. */
  datatype View = View(
    hasSession: bool, hasJournal: bool,
    window: seq<Message>, full: seq<Message>,
    windowAtHead: bool, fullAtHead: bool)

  /** The corruption guard fires. */
  predicate Guarded(v: View, s: Strategy, weigh: Message -> nat) {
    && v.hasSession && v.hasJournal
    && (if s.Full? then v.fullAtHead && v.full != [] && !HasAssistant(v.full)
        else v.windowAtHead && v.window != [] && !HasAssistant(v.window) && !Slides(v.window, s, weigh))
  }

  /** The prior a load returns. */
  function Prior(v: View, s: Strategy, weigh: Message -> nat): seq<Message> {
    if !v.hasSession || !v.hasJournal || Guarded(v, s, weigh) then []
    else if s.Full? then v.full
    else Trim(v.window, s, weigh)
  }

  function Look(v: View, step: Step, weigh: Message -> nat): View {
    match step
    case SaveTurn(batch, _) =>
      v.(hasJournal := true, window := v.window + ReadBack(batch), full := v.full + ReadBack(batch))
    case LoadPrior(s) =>
      if Guarded(v, s, weigh) then v.(hasJournal := false, window := [], full := [])
      else if v.hasSession && v.hasJournal && s.Sliding? then
        v.(window := Trim(v.window, s, weigh), windowAtHead := v.windowAtHead && !Slides(v.window, s, weigh))
      else v
    case RestartContext =>
      if v.hasSession || v.hasJournal then View(true, v.hasJournal, [], [], !v.hasJournal, !v.hasJournal) else v
    case SaveTokens => v.(hasSession := true)
  }

  function LookRun(steps: seq<Step>, weigh: Message -> nat): View {
    if steps == [] then View(false, false, [], [], true, true)
    else Look(LookRun(steps[..|steps| - 1], weigh), steps[|steps| - 1], weigh)
  }

  // ----- the view of a concrete topic -----

  function WindowEntries(env: Env, w: World): seq<Entry> {
    KeptEntries(Forward(env.codec, JournalBytes(w), ContextOffset(w)))
  }

  function FullEntries(env: Env, w: World): seq<Entry> {
    KeptEntries(Forward(env.codec, JournalBytes(w), FullOffset(w)))
  }

  function ViewOf(env: Env, w: World): View {
    View(w.session.Some?, w.journal.Some?, MessagesOf(WindowEntries(env, w)), MessagesOf(FullEntries(env, w)),
         ContextOffset(w) == 0, FullOffset(w) == 0)
  }

  /** Both lists are the read-back of the turns from the anchor on. */
  lemma ViewContents(env: Env, w: World, all: seq<Message>) returns (kc: nat, kf: nat)
    requires Lawful(env.codec) && Inv(env, w, all)
    ensures AnchorAt(env.codec, all, ContextOffset(w), kc) && AnchorAt(env.codec, all, FullOffset(w), kf)
    ensures ViewOf(env, w).window == ReadBack(all[kc..]) && ViewOf(env, w).full == ReadBack(all[kf..])
  {
    hide Lawful, GoodAnchors, GoodTurn, EncAll, Forward, KeptFrom;
    kc, kf := AnchorPositions(env, w, all);
    ForwardFromAnchor(env.codec, all, ContextOffset(w), kc);
    ForwardFromAnchor(env.codec, all, FullOffset(w), kf);
    RepairedIsKept(Forward(env.codec, JournalBytes(w), ContextOffset(w)));
    RepairedIsKept(Forward(env.codec, JournalBytes(w), FullOffset(w)));
  }

  /** A saved turn that opens with text and answers no dangling call: it neither
      revives a turn in front of it nor falls with one. */
  ghost predicate OwnTurn(held: seq<Message>, batch: seq<Message>) {
    GoodTurn(batch) && OpensTurn(batch[0]) && KeepsDangling(held, batch)
  }

  ghost predicate OrderlyStep(env: Env, w: World, held: seq<Message>, step: Step) {
    LegalStep(env, w, held, step) && (step.SaveTurn? ==> OwnTurn(held, step.batch))
  }

  /** A legal run in which every saved turn stands on its own. */
  ghost predicate OrderlyRun(env: Env, steps: seq<Step>)
    requires env.blockSize > 0
  {
    steps == [] ||
    (var before := steps[..|steps| - 1];
     && OrderlyRun(env, before)
     && OrderlyStep(env, RunSteps(env, before), Held(env, before), steps[|steps| - 1]))
  }

  lemma {:induction false} OrderlyIsLegal(env: Env, steps: seq<Step>)
    requires env.blockSize > 0 && OrderlyRun(env, steps)
    ensures LegalRun(env, steps)
  {
    hide LegalStep, OwnTurn;
    if steps == [] {
    } else {
      OrderlyIsLegal(env, steps[..|steps| - 1]);
    }
  }

  /** A saved turn is appended to both lists, unchanged in front. */
  lemma ViewSave(env: Env, w: World, all: seq<Message>, batch: seq<Message>, mtime: nat)
    requires Lawful(env.codec) && Inv(env, w, all) && OwnTurn(all, batch)
    ensures ViewOf(env, Save(env, w, batch, mtime)) == Look(ViewOf(env, w), SaveTurn(batch, mtime), env.weigh)
  {
    hide Lawful, OpensTurn, OpensRestartBoundary, KeepsDangling, Inv, ReadBack, WindowEntries, FullEntries, EncAll;
    var kc, kf := ViewContents(env, w, all);
    InvSave(env, w, all, batch, mtime);
    var w' := Save(env, w, batch, mtime);
    SaveKeepsAnchors(env, w, batch, mtime);
    AnchorSurvivesSave(env.codec, all, batch, ContextOffset(w), kc);
    AnchorSurvivesSave(env.codec, all, batch, FullOffset(w), kf);
    ReadBackGrows(env, w', all, batch, kc, kf);
  }

  lemma ReadBackGrows(env: Env, w: World, all: seq<Message>, batch: seq<Message>, kc: nat, kf: nat)
    requires Lawful(env.codec) && Inv(env, w, all + batch) && OwnTurn(all, batch)
    requires kc <= |all| && kf <= |all|
    requires AnchorAt(env.codec, all + batch, ContextOffset(w), kc)
    requires AnchorAt(env.codec, all + batch, FullOffset(w), kf)
    ensures ViewOf(env, w).window == ReadBack(all[kc..]) + ReadBack(batch)
    ensures ViewOf(env, w).full == ReadBack(all[kf..]) + ReadBack(batch)
  {
    hide Lawful, OpensTurn, OpensRestartBoundary, EncAll, Forward, KeptFrom, KeepsDangling, ReadBack, GoodAnchors;
    ForwardFromAnchor(env.codec, all + batch, ContextOffset(w), kc);
    ForwardFromAnchor(env.codec, all + batch, FullOffset(w), kf);
    RepairedIsKept(Forward(env.codec, JournalBytes(w), ContextOffset(w)));
    RepairedIsKept(Forward(env.codec, JournalBytes(w), FullOffset(w)));
    KeepsDanglingSuffix(all, kc, batch);
    KeepsDanglingSuffix(all, kf, batch);
    ReadBackAppend(all[kc..], batch);
    ReadBackAppend(all[kf..], batch);
    assert (all + batch)[kc..] == all[kc..] + batch && (all + batch)[kf..] == all[kf..] + batch;
    ReadBackIs((all + batch)[kc..]);
    ReadBackIs((all + batch)[kf..]);
  }

  lemma ReadBackIs(ms: seq<Message>)
    ensures ReadBack(ms) == Repair(Filter(ms, IsValid))
  {
  }

  /** After a restart both lists are empty. */
  lemma ViewRestart(env: Env, w: World, all: seq<Message>)
    requires Lawful(env.codec) && Inv(env, w, all)
    ensures ViewOf(env, Restart(env, w)) == Look(ViewOf(env, w), RestartContext, env.weigh)
  {
    hide Lawful, GoodAnchors, GoodTurn, EncAll, CleanEndOf;
    InvRestart(env, w, all);
    JournalIsEmptyIff(env.codec, all);
  }

  lemma JournalIsEmptyIff(c: Codec, all: seq<Message>)
    requires Lawful(c)
    ensures |EncAll(c, all)| == 0 <==> all == []
  {
  }

  // ----- the slide -----

  /** The opener the code finds by index is the one the list view cuts at. */
  lemma {:induction false} OpenerIndexIsStart(ms: seq<Message>, base: nat, k: nat)
    requires 0 < k <= CountOpeners(ms)
    ensures OpenerIndices(ms, base)[CountOpeners(ms) - k] == base + OpenersStart(ms, k)
  {
    hide OpensTurn;
    if CountOpeners(ms[1..]) >= k {
      OpenerIndexIsStart(ms[1..], base + 1, k);
    }
  }

  /** The opener `Floor` turns from the end, when there are more turns than that. */
  function SlideTo(ms: seq<Message>, s: Strategy): Option<nat>
    requires s.Sliding?
  {
    if CountOpeners(ms) <= Floor(s) then None else Some(OpenersStart(ms, Floor(s)))
  }

  lemma WindowStartIsOpenersStart(ms: seq<Message>, offsets: seq<nat>, s: Strategy)
    requires s.Sliding? && |ms| == |offsets|
    ensures SlideTo(ms, s).None? <==> WindowStart(ms, offsets, s.window).None?
    ensures SlideTo(ms, s).Some? ==>
              && SlideTo(ms, s).value < |ms|
              && WindowStart(ms, offsets, s.window) == Some((SlideTo(ms, s).value, offsets[SlideTo(ms, s).value]))
  {
    hide OpensTurn, OpenersStart, OpenerIndices;
    if CountOpeners(ms) > Floor(s) {
      OpenerIndexIsStart(ms, 0, Floor(s));
      assert ms != [];
    }
  }

  lemma MessagesOfSuffix(es: seq<Entry>, i: nat)
    requires i <= |es|
    ensures MessagesOf(es)[i..] == MessagesOf(es[i..])
  {
  }

  /** Where the window's anchor would move, the journal reads as the window's suffix. */
  lemma SlideKeepsSuffix(env: Env, w: World, all: seq<Message>, s: Strategy, index: nat)
    requires Lawful(env.codec) && Inv(env, w, all) && s.Sliding?
    requires SlideTo(MessagesOf(WindowEntries(env, w)), s) == Some(index)
    ensures index < |WindowEntries(env, w)|
    ensures KeptEntries(Forward(env.codec, JournalBytes(w), WindowEntries(env, w)[index].offset))
         == WindowEntries(env, w)[index..]
  {
    hide Lawful, Inv, Forward, KeptFrom, OpensTurn, WindowStart;
    var es := WindowEntries(env, w);
    OpenersStartKeeps(MessagesOf(es), Floor(s));
    ContextInJournal(env, w, all);
    AnchorMoveIsStable(env.codec, JournalBytes(w), ContextOffset(w), index);
  }

  lemma ContextInJournal(env: Env, w: World, all: seq<Message>)
    requires Lawful(env.codec) && Inv(env, w, all)
    ensures ContextOffset(w) <= |JournalBytes(w)|
  {
    AnchorsInJournal(env, w, all);
  }

  /** The slide, told in window entries. */
  lemma SlideOfWindow(env: Env, w: World, s: Strategy)
    requires s.Sliding?
    ensures var slice := ReadFromValue(env, JournalBytes(w), ContextOffset(w));
            var es := WindowEntries(env, w);
            && slice.messages == MessagesOf(es)
            && Slide(env, w, slice, s)
               == if !WantsSlide(MessagesOf(es), s, env.weigh) || SlideTo(MessagesOf(es), s).None? then (w, slice)
                  else
                    var index := SlideTo(MessagesOf(es), s).value;
                    (SetContext(w, Some(OffsetsOf(es)[index])),
                     PriorSlice(MessagesOf(es)[index..], OffsetsOf(es)[index..], false))
  {
    hide Forward, KeptFrom, OpensTurn, WantsSlide, WindowStart, Repair, Select, CountOpeners, SlideTo, OpenersStart;
    var es := WindowEntries(env, w);
    RepairedIsKept(Forward(env.codec, JournalBytes(w), ContextOffset(w)));
    WindowStartIsOpenersStart(MessagesOf(es), OffsetsOf(es), s);
  }

  /** The guard, told on the lists, is what deletes the journal. */
  lemma GuardIsDeletes(env: Env, w: World, all: seq<Message>, s: Strategy)
    requires Lawful(env.codec) && env.blockSize > 0 && Inv(env, w, all)
    ensures Guarded(ViewOf(env, w), s, env.weigh) <==> Deletes(env, w, all, s)
  {
    hide Lawful, Forward, KeptFrom, Slides, HasAssistant, ReadBack, GoodTurn, GoodAnchors, EncAll, ReadWholeValue,
      Repair;
    WholeReads(env, w, all);
    RepairedIsKept(Forward(env.codec, JournalBytes(w), 0));
  }

  /** A load that deletes the journal leaves both lists empty. */
  lemma ViewDeleted(env: Env, w: World, all: seq<Message>, s: Strategy)
    requires Lawful(env.codec) && env.blockSize > 0 && Inv(env, w, all) && Deletes(env, w, all, s)
    ensures Load(env, w, s).1 == []
    ensures ViewOf(env, Load(env, w, s).0) == Look(ViewOf(env, w), LoadPrior(s), env.weigh)
  {
    LoadDeletesIff(env, w, all, s);
    GuardIsDeletes(env, w, all, s);
    hide Lawful, Inv, Deletes, Guarded, Load;
    var gone := w.(journal := None, count := None);
    assert JournalBytes(gone) == [];
    NothingToRead(env.codec, ContextOffset(gone));
    NothingToRead(env.codec, FullOffset(gone));
  }

  lemma NothingToRead(c: Codec, o: nat)
    ensures Forward(c, [], o) == [] && MessagesOf(KeptEntries(Forward(c, [], o))) == []
  {
  }

  /** A slide moves the anchor forward. */
  lemma SlideAdvances(env: Env, w: World, all: seq<Message>, s: Strategy)
    requires Lawful(env.codec) && Inv(env, w, all) && s.Sliding? && w.session.Some? && w.journal.Some?
    requires Slides(ViewOf(env, w).window, s, env.weigh)
    ensures var es, index := WindowEntries(env, w), OpenersStart(ViewOf(env, w).window, Floor(s));
            index < |es| && es[index].offset > ContextOffset(w)
  {
    hide Lawful, Inv, WindowEntries, WantsSlide, OpenersStart, CountOpeners, Forward, KeptFrom;
    var es, ms := WindowEntries(env, w), ViewOf(env, w).window;
    var index := OpenersStart(ms, Floor(s));
    SlidesToIndex(ms, s, env.weigh);
    SlideKeepsSuffix(env, w, all, s, index);
    SlidePastFirst(ms, Floor(s));
    SlideNotBack(env, w, all, s);
    OffsetDiffers(env, w, index);
  }

  lemma OffsetDiffers(env: Env, w: World, index: nat)
    requires 0 < index < |WindowEntries(env, w)|
    requires KeptEntries(Forward(env.codec, JournalBytes(w), WindowEntries(env, w)[index].offset))
          == WindowEntries(env, w)[index..]
    ensures WindowEntries(env, w)[index].offset != ContextOffset(w)
  {
    hide Forward, KeptEntries;
    assert |WindowEntries(env, w)[index..]| < |WindowEntries(env, w)|;
  }

  lemma SlideNotBack(env: Env, w: World, all: seq<Message>, s: Strategy)
    requires Lawful(env.codec) && Inv(env, w, all) && s.Sliding? && w.session.Some? && w.journal.Some?
    requires var ms := MessagesOf(WindowEntries(env, w));
             Slides(ms, s, env.weigh) && OpenersStart(ms, Floor(s)) < |ms|
    ensures var es := WindowEntries(env, w);
            es[OpenersStart(MessagesOf(es), Floor(s))].offset >= ContextOffset(w)
  {
    InvSlide(env, w, all, s);
    SlideOfWindow(env, w, s);
    SlidesToIndex(MessagesOf(WindowEntries(env, w)), s, env.weigh);
    hide Lawful, Inv, WindowEntries, Slide, ReadFromValue, OpenersStart, SlideTo, CountOpeners, WantsSlide;
    var es := WindowEntries(env, w);
    var index := OpenersStart(MessagesOf(es), Floor(s));
    assert OffsetsOf(es)[index] == es[index].offset;
  }

  lemma SlidePastFirst(ms: seq<Message>, k: nat)
    requires 0 < k < CountOpeners(ms)
    ensures OpenersStart(ms, k) > 0
  {
    OpenersStartKeeps(ms, k);
    assert ms[0..] == ms;
  }

  /** A sliding load that keeps the journal, told in window entries. */
  lemma LoadSlides(env: Env, w: World, all: seq<Message>, s: Strategy)
    requires Lawful(env.codec) && env.blockSize > 0 && Inv(env, w, all) && s.Sliding?
    requires w.session.Some? && w.journal.Some? && !Deletes(env, w, all, s)
    ensures var es := WindowEntries(env, w);
            var ms, index := MessagesOf(es), OpenersStart(MessagesOf(es), Floor(s));
            if Slides(ms, s, env.weigh)
            then index < |es| && Load(env, w, s) == (SetContext(w, Some(es[index].offset)), ms[index..])
            else Load(env, w, s) == (w, ms)
  {
    AnchorsNeverRejected(env, w, all);
    LoadDeletesIff(env, w, all, s);
    SlideOfWindow(env, w, s);
    hide Lawful, Inv, Forward, KeptFrom, OpensTurn, WantsSlide, Slide, ReadFromValue, WindowSlice, Deletes, Load,
      OpenersStart;
    var es := WindowEntries(env, w);
    if Slides(MessagesOf(es), s, env.weigh) {
      SlideKeepsSuffix(env, w, all, s, SlideTo(MessagesOf(es), s).value);
    }
  }

  /** A sliding load that keeps the journal returns the trimmed window, and what
      it left behind its anchor is exactly what it returned. */
  lemma ViewSlide(env: Env, w: World, all: seq<Message>, s: Strategy)
    requires Lawful(env.codec) && env.blockSize > 0 && Inv(env, w, all) && s.Sliding?
    requires w.session.Some? && w.journal.Some? && !Deletes(env, w, all, s)
    ensures Load(env, w, s).1 == Trim(ViewOf(env, w).window, s, env.weigh)
    ensures ViewOf(env, Load(env, w, s).0) == Look(ViewOf(env, w), LoadPrior(s), env.weigh)
  {
    GuardIsDeletes(env, w, all, s);
    LoadSlides(env, w, all, s);
    var es := WindowEntries(env, w);
    var ms, index := MessagesOf(es), OpenersStart(MessagesOf(es), Floor(s));
    if Slides(ms, s, env.weigh) {
      SlidesToIndex(ms, s, env.weigh);
      SlideKeepsSuffix(env, w, all, s, index);
      MessagesOfSuffix(es, index);
      SlideAdvances(env, w, all, s);
    }
    hide Lawful, Inv, Forward, KeptFrom, Slides, Deletes, Guarded, Load, OpenersStart;
  }

  lemma SlidesToIndex(ms: seq<Message>, s: Strategy, weigh: Message -> nat)
    requires s.Sliding? && Slides(ms, s, weigh)
    ensures SlideTo(ms, s) == Some(OpenersStart(ms, Floor(s)))
  {
  }

  lemma ViewFull(env: Env, w: World, all: seq<Message>)
    requires Lawful(env.codec) && env.blockSize > 0 && Inv(env, w, all)
    requires w.session.Some? && w.journal.Some? && !Deletes(env, w, all, Full)
    ensures Load(env, w, Full) == (w, ViewOf(env, w).full)
    ensures !Guarded(ViewOf(env, w), Full, env.weigh)
  {
    AnchorsNeverRejected(env, w, all);
    LoadDeletesIff(env, w, all, Full);
    GuardIsDeletes(env, w, all, Full);
    WholeReads(env, w, all);
    hide Lawful, Inv, Forward, KeptFrom, BlockwiseTail, ReadBack, Deletes, Guarded, Load, ReadWholeValue;
    RepairedIsKept(Forward(env.codec, JournalBytes(w), FullOffset(w)));
  }

  lemma ViewStep(env: Env, w: World, all: seq<Message>, step: Step)
    requires Lawful(env.codec) && env.blockSize > 0 && Inv(env, w, all) && OrderlyStep(env, w, all, step)
    ensures ViewOf(env, Do(env, w, step)) == Look(ViewOf(env, w), step, env.weigh)
  {
    hide Lawful, OwnTurn, Inv, Save, Load, Restart, WindowEntries, FullEntries, ReadBack, Deletes, Guarded, Trim;
    match step
    case SaveTurn(batch, mtime) => ViewSave(env, w, all, batch, mtime);
    case LoadPrior(s) => ViewLoad(env, w, all, s);
    case RestartContext => ViewRestart(env, w, all);
    case SaveTokens => ViewTokens(env, w);
  }

  lemma ViewLoad(env: Env, w: World, all: seq<Message>, s: Strategy)
    requires Lawful(env.codec) && env.blockSize > 0 && Inv(env, w, all)
    ensures Load(env, w, s).1 == Prior(ViewOf(env, w), s, env.weigh)
    ensures ViewOf(env, Load(env, w, s).0) == Look(ViewOf(env, w), LoadPrior(s), env.weigh)
  {
    hide Lawful, Inv, Load, WindowEntries, FullEntries, Deletes, Guarded, Trim;
    GuardIsDeletes(env, w, all, s);
    if w.session.None? || w.journal.None? {
      LoadOfNothing(env, w, s);
      NotGuarded(ViewOf(env, w), s, env.weigh);
    } else if Deletes(env, w, all, s) {
      ViewDeleted(env, w, all, s);
    } else if s.Full? {
      ViewFull(env, w, all);
    } else {
      ViewSlide(env, w, all, s);
    }
  }

  lemma NotGuarded(v: View, s: Strategy, weigh: Message -> nat)
    requires !v.hasSession || !v.hasJournal
    ensures !Guarded(v, s, weigh)
  {
  }

  lemma LoadOfNothing(env: Env, w: World, s: Strategy)
    requires env.blockSize > 0 && (w.session.None? || w.journal.None?)
    ensures Load(env, w, s) == (w, [])
  {
  }

  lemma ViewTokens(env: Env, w: World)
    ensures ViewOf(env, PersistTokens(w)) == Look(ViewOf(env, w), SaveTokens, env.weigh)
  {
  }

  /** Every orderly run of the byte-level topic is a run of the list machine. */
  lemma {:induction false} RunRefinesView(env: Env, steps: seq<Step>)
    requires Lawful(env.codec) && env.blockSize > 0 && OrderlyRun(env, steps)
    ensures ViewOf(env, RunSteps(env, steps)) == LookRun(steps, env.weigh)
  {
    if steps == [] {
      NothingToRead(env.codec, 0);
    } else {
      hide Do, Lawful, ViewOf, Inv, OrderlyStep, HeldAfter, Look;
      var before := steps[..|steps| - 1];
      OrderlyIsLegal(env, before);
      RunRefinesView(env, before);
      RunInvariant(env, before);
      ViewStep(env, RunSteps(env, before), Held(env, before), steps[|steps| - 1]);
    }
  }

  /** And every load in it returns exactly what the list machine returns. */
  lemma LoadRefinesPrior(env: Env, steps: seq<Step>, s: Strategy)
    requires Lawful(env.codec) && env.blockSize > 0 && OrderlyRun(env, steps)
    ensures Load(env, RunSteps(env, steps), s).1 == Prior(LookRun(steps, env.weigh), s, env.weigh)
  {
    hide Lawful, Inv, LookRun, Prior, RunSteps, LegalRun, OrderlyRun, Load, ViewOf, Held;
    OrderlyIsLegal(env, steps);
    RunRefinesView(env, steps);
    RunInvariant(env, steps);
    ViewLoad(env, RunSteps(env, steps), Held(env, steps), s);
  }

  // ----- the laws of the window -----

  lemma {:induction false} OpenersStartKeeps(ms: seq<Message>, k: nat)
    requires 0 < k <= CountOpeners(ms)
    ensures OpenersStart(ms, k) < |ms| && OpensTurn(ms[OpenersStart(ms, k)])
    ensures CountOpeners(ms[OpenersStart(ms, k)..]) == k
  {
    hide OpensTurn;
    if CountOpeners(ms[1..]) >= k {
      OpenersStartKeeps(ms[1..], k);
      assert ms[1..][OpenersStart(ms[1..], k)..] == ms[OpenersStart(ms, k)..];
    } else {
      assert ms[0..] == ms;
    }
  }

  /** A load either leaves the window frozen or cuts it to a suffix that starts
      at an opener and holds exactly `window` of them, one at least; it never
      returns more openers than that and the extension. It cuts above the bound,
      and at the bound when a budget is set and exceeded. */
  lemma TrimLaws(prior: seq<Message>, s: Strategy, weigh: Message -> nat)
    requires s.Sliding?
    ensures var kept := Trim(prior, s, weigh);
            && CountOpeners(kept) <= MaxWindow(s) == Max(1, s.window) + s.extend
            && (kept == prior || CutTo(kept, prior, Max(1, s.window)))
    ensures var turns, bound := CountOpeners(prior), Max(1, s.window) + s.extend;
            Trim(prior, s, weigh) != prior <==>
              && turns > Max(1, s.window)
              && (turns > bound
                  || (turns == bound && s.budget.Some? && 0 < s.budget.value < Weight(prior, weigh)))
    ensures Trim(prior, s, weigh) != prior <==> Slides(prior, s, weigh)
  {
    hide OpensTurn, Weight, OpenersStart;
    if CountOpeners(prior) > Floor(s) {
      OpenersStartKeeps(prior, Floor(s));
      var kept := prior[OpenersStart(prior, Floor(s))..];
      assert kept[0] == prior[OpenersStart(prior, Floor(s))];
    }
  }

  /** `kept` is a strictly shorter end of `prior` that starts at an opener and
      holds exactly `turns` of them. */
  ghost predicate CutTo(kept: seq<Message>, prior: seq<Message>, turns: nat) {
    && kept != [] && OpensTurn(kept[0]) && CountOpeners(kept) == turns
    && |kept| < |prior| && kept == prior[|prior| - |kept|..]
  }

  /** Any further steps, from any view. */
  function Follow(v: View, steps: seq<Step>, weigh: Message -> nat): View {
    if steps == [] then v
    else Look(Follow(v, steps[..|steps| - 1], weigh), steps[|steps| - 1], weigh)
  }

  /** How many turns the steps save. */
  function OpenersSaved(steps: seq<Step>): nat {
    if steps == [] then 0
    else
      var last := steps[|steps| - 1];
      OpenersSaved(steps[..|steps| - 1]) + if last.SaveTurn? then CountOpeners(last.batch) else 0
  }

  /** Reading a turn back keeps its openers. */
  lemma ReadBackKeepsOpeners(batch: seq<Message>)
    ensures CountOpeners(ReadBack(batch)) == CountOpeners(batch)
  {
    hide OpensTurn, RepairFrom;
    RepairKeepsOpeners(Filter(batch, IsValid), false);
    OpenersAreFiltered(Filter(batch, IsValid));
    OpenersAreFiltered(ReadBack(batch));
    CountsIgnoreInvalid(batch);
  }

  lemma LookGrowsBySaves(v: View, step: Step, weigh: Message -> nat)
    ensures CountOpeners(Look(v, step, weigh).window)
         <= CountOpeners(v.window) + if step.SaveTurn? then CountOpeners(step.batch) else 0
  {
    hide OpensTurn, ReadBack, Trim, CountOpeners;
    CountNothing();
    match step
    case SaveTurn(batch, _) =>
      CountOpenersAppend(v.window, ReadBack(batch));
      ReadBackKeepsOpeners(batch);
    case LoadPrior(s) => if s.Sliding? { TrimDropsOpeners(v.window, s, weigh); }
    case _ =>
  }

  lemma CountNothing()
    ensures CountOpeners([]) == 0
  {
  }

  lemma TrimDropsOpeners(prior: seq<Message>, s: Strategy, weigh: Message -> nat)
    requires s.Sliding?
    ensures CountOpeners(Trim(prior, s, weigh)) <= CountOpeners(prior)
  {
    hide OpensTurn, WantsSlide;
    CountOpenersSuffix(prior, OpenersStart(prior, Floor(s)));
  }

  /** The window grows by no more turns than are saved, whatever is loaded or
      restarted in between. */
  lemma {:induction false} WindowGrowsBySaves(v: View, steps: seq<Step>, weigh: Message -> nat)
    ensures CountOpeners(Follow(v, steps, weigh).window) <= CountOpeners(v.window) + OpenersSaved(steps)
  {
    hide OpensTurn, Look, CountOpeners;
    if steps == [] {
    } else {
      var before := steps[..|steps| - 1];
      WindowGrowsBySaves(v, before, weigh);
      LookGrowsBySaves(Follow(v, before, weigh), steps[|steps| - 1], weigh);
    }
  }

  /** Once a load has slid, at least `max(1, MaxWindow - Floor)` new turns are
      saved before a load slides again: over any steps in between, with any
      settings, and however far the turns exceed the token budget. */
  lemma SlidesAreSpaced(v: View, prior: seq<Message>, steps: seq<Step>, s: Strategy, weigh: Message -> nat)
    requires s.Sliding?
    requires Trim(prior, s, weigh) != prior && v.window == Trim(prior, s, weigh)
    requires var window := Follow(v, steps, weigh).window; Trim(window, s, weigh) != window
    ensures OpenersSaved(steps) >= Max(1, MaxWindow(s) - Floor(s))
  {
    hide OpensTurn, Trim, Follow, Weight, CountOpeners;
    TrimLaws(prior, s, weigh);
    WindowGrowsBySaves(v, steps, weigh);
    TrimLaws(Follow(v, steps, weigh).window, s, weigh);
  }

  // ----- the laws, told of the topic itself -----

  /** The load moves the window's anchor. */
  predicate MovesWindow(env: Env, w: World, s: Strategy)
    requires env.blockSize > 0
  {
    ContextOffset(Load(env, w, s).0) > ContextOffset(w)
  }

  lemma MovesWindowIff(env: Env, w: World, all: seq<Message>, s: Strategy)
    requires Lawful(env.codec) && env.blockSize > 0 && Inv(env, w, all)
    ensures MovesWindow(env, w, s) <==>
              && w.session.Some? && w.journal.Some? && s.Sliding?
              && Trim(ViewOf(env, w).window, s, env.weigh) != ViewOf(env, w).window
  {
    if s.Sliding? { TrimLaws(ViewOf(env, w).window, s, env.weigh); }
    GuardIsDeletes(env, w, all, s);
    LoadDeletesIff(env, w, all, s);
    if w.session.None? || w.journal.None? {
      LoadOfNothing(env, w, s);
    } else if !Deletes(env, w, all, s) {
      if s.Full? {
        ViewFull(env, w, all);
      } else {
        LoadSlides(env, w, all, s);
        if Slides(ViewOf(env, w).window, s, env.weigh) { SlideAdvances(env, w, all, s); }
      }
    }
    hide Lawful, Inv, WindowEntries, FullEntries, Slides, Load, Deletes, HasAssistant, OpenersStart, Slide;
  }

  lemma {:induction false} OrderlyPrefix(env: Env, steps: seq<Step>, n: nat)
    requires env.blockSize > 0 && OrderlyRun(env, steps) && n <= |steps|
    ensures OrderlyRun(env, steps[..n])
  {
    hide OrderlyStep;
    if n < |steps| {
      var before := steps[..|steps| - 1];
      OrderlyPrefix(env, before, n);
      assert before[..n] == steps[..n];
    } else {
      assert steps[..n] == steps;
    }
  }

  lemma {:induction false} LookFollows(steps: seq<Step>, more: seq<Step>, weigh: Message -> nat)
    ensures LookRun(steps + more, weigh) == Follow(LookRun(steps, weigh), more, weigh)
  {
    hide Look;
    if more == [] {
      assert steps + more == steps;
    } else {
      var n := |more| - 1;
      LookFollows(steps, more[..n], weigh);
      assert (steps + more)[..|steps + more| - 1] == steps + more[..n];
      assert (steps + more)[|steps + more| - 1] == more[n];
    }
  }

  /** In every run, between two loads that slide the window with the same
      settings at least `max(1, MaxWindow - Floor)` new openers are saved,
      whatever else happens in between. */
  lemma RunSlidesAreSpaced(env: Env, steps: seq<Step>, more: seq<Step>, s: Strategy)
    requires Lawful(env.codec) && env.blockSize > 0 && s.Sliding?
    requires OrderlyRun(env, steps + [LoadPrior(s)] + more)
    requires MovesWindow(env, RunSteps(env, steps), s)
    requires MovesWindow(env, RunSteps(env, steps + [LoadPrior(s)] + more), s)
    ensures OpenersSaved(more) >= Max(1, MaxWindow(s) - Floor(s))
  {
    hide Lawful, Inv, RunSteps, OrderlyRun, MovesWindow, Held, Follow, LookRun;
    var run := steps + [LoadPrior(s)] + more;
    OrderlyPrefix(env, run, |steps|);
    assert run[..|steps|] == steps;
    SlideShows(env, steps, s);
    SlideShows(env, run, s);
    LookFollows(steps + [LoadPrior(s)], more, env.weigh);
    var v := LookRun(steps, env.weigh);
    var slid := LookRun(steps + [LoadPrior(s)], env.weigh);
    LookOnce(steps, LoadPrior(s), env.weigh);
    TrimLaws(v.window, s, env.weigh);
    TrimLaws(Follow(slid, more, env.weigh).window, s, env.weigh);
    hide Slides, Trim, CutTo, CountOpeners;
    SlidesAreSpaced(slid, v.window, more, s, env.weigh);
  }

  lemma LookOnce(steps: seq<Step>, step: Step, weigh: Message -> nat)
    ensures LookRun(steps + [step], weigh) == Look(LookRun(steps, weigh), step, weigh)
  {
    assert (steps + [step])[..|steps|] == steps;
  }

  lemma SlideShows(env: Env, steps: seq<Step>, s: Strategy)
    requires Lawful(env.codec) && env.blockSize > 0 && OrderlyRun(env, steps) && s.Sliding?
    requires MovesWindow(env, RunSteps(env, steps), s)
    ensures var v := LookRun(steps, env.weigh); v.hasSession && v.hasJournal && Slides(v.window, s, env.weigh)
  {
    hide Lawful, Inv, RunSteps, LegalRun, OrderlyRun, MovesWindow, Held, LookRun, Slides;
    OrderlyIsLegal(env, steps);
    RunInvariant(env, steps);
    RunRefinesView(env, steps);
    MovesWindowIff(env, RunSteps(env, steps), Held(env, steps), s);
  }

  /** In every run: after a load and a saved turn, the next load returns the
      earlier prior and the turn behind it unchanged, or cuts that to exactly its
      window of turns, or finds no assistant in it and deletes the journal. It
      never returns more than `MaxWindow` openers. */
  lemma NextLoadFrozenOrCut(env: Env, steps: seq<Step>, s: Strategy, batch: seq<Message>, mtime: nat, next: Strategy)
    requires Lawful(env.codec) && env.blockSize > 0 && s.Sliding? && next.Sliding?
    requires OrderlyRun(env, steps + [LoadPrior(s)] + [SaveTurn(batch, mtime)]) && RunSteps(env, steps).session.Some?
    ensures var prior := Load(env, RunSteps(env, steps), s).1;
            var now := RunSteps(env, steps + [LoadPrior(s)] + [SaveTurn(batch, mtime)]);
            var after := Load(env, now, next).1;
            && CountOpeners(after) <= MaxWindow(next)
            && (after == prior + ReadBack(batch)
                || CutTo(after, prior + ReadBack(batch), Floor(next))
                || (after == [] && Load(env, now, next).0.journal.None?))
  {
    hide Lawful, Inv, RunSteps, LegalRun, OrderlyRun, Held, Follow, LookRun, Load, ReadBack, Deletes;
    var loaded := steps + [LoadPrior(s)];
    var run := loaded + [SaveTurn(batch, mtime)];
    OrderlyPrefix(env, run, |steps|);
    assert run[..|steps|] == steps;
    LoadRefinesPrior(env, steps, s);
    LoadRefinesPrior(env, run, next);
    LookOnce(steps, LoadPrior(s), env.weigh);
    LookOnce(loaded, SaveTurn(batch, mtime), env.weigh);
    var v := LookRun(steps, env.weigh);
    ViewIsPlain(env, steps);
    WindowIsPrior(v, s, env.weigh);
    TrimLaws(LookRun(run, env.weigh).window, next, env.weigh);
    OrderlyIsLegal(env, run);
    RunInvariant(env, run);
    RunRefinesView(env, run);
    GuardIsDeletes(env, RunSteps(env, run), Held(env, run), next);
    LoadDeletesIff(env, RunSteps(env, run), Held(env, run), next);
    CountNothing();
    hide Guarded, Trim, CutTo, CountOpeners, Slides, ViewOf, Slide, WindowSlice, FullSlice;
  }

  lemma ViewIsPlain(env: Env, steps: seq<Step>)
    requires Lawful(env.codec) && env.blockSize > 0 && OrderlyRun(env, steps)
    ensures var v := LookRun(steps, env.weigh);
            && v.hasSession == RunSteps(env, steps).session.Some?
            && (!v.hasJournal ==> v.window == [])
  {
    hide Lawful, Inv, RunSteps, OrderlyRun, Held, LookRun;
    RunRefinesView(env, steps);
    var w := RunSteps(env, steps);
    if w.journal.None? { NothingToRead(env.codec, ContextOffset(w)); }
  }

  lemma WindowIsPrior(v: View, s: Strategy, weigh: Message -> nat)
    requires s.Sliding? && v.hasSession && (!v.hasJournal ==> v.window == [])
    ensures Look(v, LoadPrior(s), weigh).window == Prior(v, s, weigh) && Look(v, LoadPrior(s), weigh).hasSession
  {
    hide Slides, Trim;
  }
}
