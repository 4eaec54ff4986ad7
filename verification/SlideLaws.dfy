/** When a sliding load cuts its window, told in turns and tokens, on any journal
    and with any anchor: corrupt, torn and stale ones included. */
module SlideLaws {
  import opened Basics
  import opened Messages
  import opened Turns
  import opened ForwardReader
  import opened Session
  import opened Anchors
  import opened WindowRuns

  // ----- what the budget is compared with -----

  /** One message weighs what the estimate says of it. */
  lemma WeightOfOne(m: Message, weigh: Message -> nat)
    ensures Weight([m], weigh) == weigh(m)
  {
    assert [m][1..] == [];
  }

  /** And several weigh the sum. */
  lemma {:induction false} WeightAdds(xs: seq<Message>, ys: seq<Message>, weigh: Message -> nat)
    ensures Weight(xs + ys, weigh) == Weight(xs, weigh) + Weight(ys, weigh)
  {
    if xs == [] {
      assert xs + ys == ys;
    } else {
      assert (xs + ys)[0] == xs[0] && (xs + ys)[1..] == xs[1..] + ys;
      WeightAdds(xs[1..], ys, weigh);
    }
  }

  // ----- one load -----

  /** The window a sliding load starts from. */
  function WindowOf(env: Env, w: World): seq<Message> {
    WindowSlice(env, w).1.messages
  }

  lemma WindowIsRead(env: Env, w: World)
    requires w.session.Some?
    ensures var (w1, slice) := WindowSlice(env, w);
            && w1.journal == w.journal && w1.count == w.count && w1.session.Some?
            && slice == ReadFromValue(env, JournalBytes(w1), ContextOffset(w1))
  {
    hide ReadFromValue, Forward;
  }

  /** The load returned an end of the window with exactly `turns` openers, and the
      anchor it stored reads back exactly that. */
  ghost predicate CutWindow(env: Env, w: World, s: Strategy, turns: nat)
    requires env.blockSize > 0
  {
    var (after, prior) := Load(env, w, s);
    && CutTo(prior, WindowOf(env, w), turns)
    && after.journal == w.journal && after.session.Some? && after.session.value.contextOffset.Some?
    && ReadFromValue(env, JournalBytes(w), after.session.value.contextOffset.value).messages == prior
  }

  /** The load returned the window as it is and stored no other anchor, or found
      nothing but a head without an assistant in it and deleted the journal. */
  ghost predicate KeptWindow(env: Env, w: World, s: Strategy)
    requires env.blockSize > 0
  {
    var (after, prior) := Load(env, w, s);
    && after.session == WindowSlice(env, w).0.session
    && ((prior == WindowOf(env, w) && after.journal == w.journal)
        || (prior == [] && after.journal.None? && !HasAssistant(WindowOf(env, w))))
  }

  lemma NothingBehindEnd(env: Env, w: World)
    requires WindowEntries(env, w) != []
    ensures ContextOffset(w) <= |JournalBytes(w)|
  {
  }

  lemma CutReadsBack(env: Env, w: World, s: Strategy)
    requires s.Sliding?
    requires var ms := MessagesOf(WindowEntries(env, w)); CountOpeners(ms) > Floor(s)
    ensures var es := WindowEntries(env, w);
            var ms := MessagesOf(es);
            var index := OpenersStart(ms, Floor(s));
            && index < |es| && CutTo(ms[index..], ms, Floor(s))
            && ReadFromValue(env, JournalBytes(w), es[index].offset).messages == ms[index..]
  {
    hide OpensTurn, Forward, KeptFrom, OpenersStart, CountOpeners;
    var es := WindowEntries(env, w);
    var ms := MessagesOf(es);
    var index := OpenersStart(ms, Floor(s));
    OpenersStartKeeps(ms, Floor(s));
    NotWhole(ms, index, Floor(s));
    NothingBehindEnd(env, w);
    AnchorMoveIsStable(env.codec, JournalBytes(w), ContextOffset(w), index);
    RepairedIsKept(Forward(env.codec, JournalBytes(w), es[index].offset));
    MessagesOfSuffix(es, index);
  }

  lemma NotWhole(ms: seq<Message>, index: nat, k: nat)
    requires index < |ms| && CountOpeners(ms[index..]) == k < CountOpeners(ms)
    ensures index > 0 && ms[index..] == ms[|ms| - |ms[index..]|..] && ms[index..][0] == ms[index]
  {
    assert ms[0..] == ms;
  }

  lemma LoadCutsIff(env: Env, w: World, s: Strategy)
    requires env.blockSize > 0 && w.session.Some? && w.journal.Some? && s.Sliding?
    ensures if Slides(WindowOf(env, w), s, env.weigh) then CutWindow(env, w, s, Floor(s)) else KeptWindow(env, w, s)
  {
    WindowIsRead(env, w);
    var w1 := WindowSlice(env, w).0;
    RepairedIsKept(Forward(env.codec, JournalBytes(w1), ContextOffset(w1)));
    SlideOfWindow(env, w1, s);
    hide WindowSlice, Slide, Forward, KeptFrom, WantsSlide, CountOpeners, OpenersStart, CutTo, HasAssistant;
    if Slides(WindowOf(env, w), s, env.weigh) { CutReadsBack(env, w1, s); }
  }

  /** A window that reached its bound over the token budget is cut to `window`
      turns, whatever its weight afterwards. */
  lemma OverBudgetCuts(env: Env, w: World, s: Strategy)
    requires env.blockSize > 0 && w.session.Some? && w.journal.Some? && s.Sliding?
    requires s.budget.Some? && 0 < s.budget.value < Weight(WindowOf(env, w), env.weigh)
    requires CountOpeners(WindowOf(env, w)) >= Max(1, s.window) + s.extend
    requires CountOpeners(WindowOf(env, w)) > Max(1, s.window)
    ensures CutWindow(env, w, s, Max(1, s.window))
  {
    hide WindowOf, CutWindow, KeptWindow, CountOpeners, Weight;
    LoadCutsIff(env, w, s);
  }

  /** A window above its bound is cut whatever it weighs. */
  lemma OverBoundCuts(env: Env, w: World, s: Strategy)
    requires env.blockSize > 0 && w.session.Some? && w.journal.Some? && s.Sliding?
    requires CountOpeners(WindowOf(env, w)) > Max(1, s.window) + s.extend
    ensures CutWindow(env, w, s, Max(1, s.window))
  {
    hide WindowOf, CutWindow, KeptWindow, CountOpeners, Weight;
    LoadCutsIff(env, w, s);
  }

  /** Within its bound the window is left alone: always below the bound, at the
      bound unless it is over a budget that is set, and when there is no opener
      to cut at. */
  lemma OtherwiseKept(env: Env, w: World, s: Strategy)
    requires env.blockSize > 0 && w.session.Some? && w.journal.Some? && s.Sliding?
    requires
      var turns, bound := CountOpeners(WindowOf(env, w)), Max(1, s.window) + s.extend;
      || turns < bound
      || turns <= Max(1, s.window)
      || (turns == bound
          && (s.budget.None? || s.budget.value == 0 || Weight(WindowOf(env, w), env.weigh) <= s.budget.value))
    ensures KeptWindow(env, w, s)
  {
    hide WindowOf, CutWindow, KeptWindow, CountOpeners, Weight;
    LoadCutsIff(env, w, s);
  }
}
