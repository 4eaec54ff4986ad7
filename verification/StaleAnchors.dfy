/** The window's anchor after a load has deleted the journal under it: a run that
    gets there, exactly when a later load accepts it, and what it then hides. */
module StaleAnchors {
  import opened Basics
  import opened Lines
  import opened Messages
  import opened ToolCallRepair
  import opened Turns
  import opened Codec
  import opened ForwardReader
  import opened Writer
  import opened Session
  import opened Anchors
  import opened AnchorRuns
  import opened WindowRuns
  import opened SavedJournal
  import opened RestartRuns

  // ----- reading from anywhere -----

  /** The first message of `all` whose line starts at or behind `x`. */
  function FirstFrom(c: Codec, all: seq<Message>, x: nat): (k: nat)
    ensures k <= |all| && (x > 0 && all != [] ==> k > 0)
  {
    if x == 0 || all == [] then 0
    else 1 + FirstFrom(c, all[1..], SatSub(x, |c.enc(all[0])| + 1))
  }

  /** Reading from inside a line skips the rest of it. */
  lemma RestOfLineIsSkipped(c: Codec, pre: Bytes, m: Message, rest: Bytes, x: nat)
    requires Lawful(c) && SuffixFree(c) && 0 < x <= |c.enc(m)|
    ensures var next := pre + (c.enc(m) + [NL]);
            Forward(c, next + rest, |pre| + x) == Forward(c, next + rest, |next|)
  {
    hide *;
    var next := pre + (c.enc(m) + [NL]);
    var b := next + rest;
    WrittenIsKept(c, m);
    LineBehind(pre, c.enc(m), rest, x);
    ForwardStep(c, b, |pre| + x, |pre| + |c.enc(m)|);
    NothingInRest(c, m, x, |pre| + x);
    assert [] + Forward(c, b, |next|) == Forward(c, b, |next|);
  }

  lemma LineBehind(pre: Bytes, line: Bytes, rest: Bytes, x: nat)
    requires NoNewline(line) && x <= |line|
    ensures var b := pre + (line + [NL]) + rest;
            && NextNewline(b, |pre| + x) == |pre| + |line|
            && b[|pre| + x..|pre| + |line|] == line[x..]
  {
    hide *;
    WrittenNewline(pre, line, rest);
    SearchFromWithin(pre + (line + [NL]) + rest, |pre|, |pre| + x, |pre| + |line|);
    WindowBehind(pre, line, rest, x);
  }

  lemma WindowBehind(pre: Bytes, line: Bytes, rest: Bytes, x: nat)
    requires x <= |line|
    ensures (pre + (line + [NL]) + rest)[|pre| + x..|pre| + |line|] == line[x..]
  {
    hide *;
    MiddleWindow(pre, line + [NL], rest, x, |line|);
    assert (line + [NL])[x..|line|] == line[x..];
  }

  lemma SearchFromWithin(b: Bytes, o: nat, p: nat, i: nat)
    requires o <= p <= i <= |b| && NextNewline(b, o) == i
    ensures NextNewline(b, p) == i
  {
    NextNewlineIs(b, p, i);
  }

  lemma NothingInRest(c: Codec, m: Message, x: nat, o: nat)
    requires Lawful(c) && SuffixFree(c) && 0 < x <= |c.enc(m)|
    ensures LineEntry(c, c.enc(m)[x..], o) == []
  {
    if x == |c.enc(m)| {
      assert c.enc(m)[x..] == [];
    } else {
      assert c.dec(c.enc(m)[x..]) == None;
    }
  }

  /** A journal of completed saves read from any position: the messages whose
      lines start there or behind it. */
  lemma {:induction false} ForwardFromAnywhere(c: Codec, pre: Bytes, all: seq<Message>, x: nat)
    requires Lawful(c) && SuffixFree(c) && x <= |EncAll(c, all)|
    ensures MessagesOf(Forward(c, pre + EncAll(c, all), |pre| + x))
         == Filter(all[FirstFrom(c, all, x)..], IsValid)
    decreases |all|
  {
    hide Forward, Lawful, SuffixFree, Filter, Entries;
    if x == 0 || all == [] {
      assert all[0..] == all;
      ForwardReadsWritten(c, pre, all);
      EntriesMessages(c, all, |pre|);
    } else {
      var line, rest := c.enc(all[0]) + [NL], EncAll(c, all[1..]);
      var next := pre + line;
      Assoc(pre, line, rest);
      assert all[1..][FirstFrom(c, all[1..], SatSub(x, |line|))..] == all[FirstFrom(c, all, x)..];
      if x >= |line| {
        ForwardFromAnywhere(c, next, all[1..], x - |line|);
      } else {
        RestOfLineIsSkipped(c, pre, all[0], rest, x);
        ForwardFromAnywhere(c, next, all[1..], 0);
      }
    }
  }

  // ----- when a stale anchor is accepted -----

  /** The first message a reader keeps from `x` on opens a turn. */
  ghost predicate OpensAt(c: Codec, all: seq<Message>, x: nat) {
    var prior := ReadBack(all[FirstFrom(c, all, x)..]);
    prior != [] && OpensTurn(prior[0])
  }

  /** A window anchor at any offset but the head's, on any journal of completed
      saves: it is accepted exactly when it lies in front of the end and the next
      kept message opens a turn. Then the window is what follows it; otherwise the
      anchor is cleared and the window is the whole journal. */
  lemma AnchorAcceptedIff(env: Env, w: World, all: seq<Message>)
    requires Lawful(env.codec) && SuffixFree(env.codec) && JournalBytes(w) == EncAll(env.codec, all)
    requires w.session.Some? && ContextOffset(w) > 0
    requires w.session.value.fullRestartOffset != w.session.value.contextOffset
    ensures var x, c := ContextOffset(w), env.codec;
            var (after, slice) := WindowSlice(env, w);
            if x < |EncAll(c, all)| && OpensAt(c, all, x)
            then after == w && slice.messages == ReadBack(all[FirstFrom(c, all, x)..]) && !slice.reachedHead
            else after == SetContext(w, None) && slice.messages == ReadBack(all)
  {
    hide Lawful, SuffixFree, EncAll, OpensAt, ReadAnchored, ReadFromValue, FirstFrom, ReadBack;
    ReadAnywhere(env, all, 0);
    assert all[FirstFrom(env.codec, all, 0)..] == all by { FirstFromHead(env.codec, all); }
    if ContextOffset(w) <= |EncAll(env.codec, all)| {
      ReadAnywhere(env, all, ContextOffset(w));
    }
    AnchoredIff(env, all, ContextOffset(w));
  }

  lemma FirstFromHead(c: Codec, all: seq<Message>)
    ensures FirstFrom(c, all, 0) == 0 && all[0..] == all
  {
  }

  lemma ReadAnywhere(env: Env, all: seq<Message>, x: nat)
    requires Lawful(env.codec) && SuffixFree(env.codec) && x <= |EncAll(env.codec, all)|
    ensures var slice := ReadFromValue(env, EncAll(env.codec, all), x);
            slice.messages == ReadBack(all[FirstFrom(env.codec, all, x)..]) && (slice.reachedHead <==> x == 0)
  {
    hide Lawful, SuffixFree, EncAll, Forward, RepairFrom, KeepFlags, FirstFrom;
    var none: Bytes := [];
    assert none + EncAll(env.codec, all) == EncAll(env.codec, all);
    ForwardFromAnywhere(env.codec, none, all, x);
  }

  /** The reader's own rule, on whole lines. */
  lemma AnchoredIff(env: Env, all: seq<Message>, x: nat)
    requires Lawful(env.codec) && SuffixFree(env.codec) && x > 0
    ensures ReadAnchored(env, EncAll(env.codec, all), x, false)
         == if x < |EncAll(env.codec, all)| && OpensAt(env.codec, all, x)
            then Some(ReadFromValue(env, EncAll(env.codec, all), x)) else None
  {
    EncAllWholeLines(env.codec, all);
    CleanEndOfWholeLines(env.codec, EncAll(env.codec, all));
    hide Lawful, SuffixFree, EncAll, CleanEndOf, ReadFromValue, FirstFrom, ReadBack, OpensTurn;
    if x <= |EncAll(env.codec, all)| {
      ReadAnywhere(env, all, x);
    }
  }

  /** So it goes after every load that left the anchor behind and any further
      completed saves. */
  lemma StaleAnchorAcceptedIff(
    env: Env, w: World, held: seq<Message>, s: Strategy, turns: seq<seq<Message>>, stamp: nat -> nat)
    requires Lawful(env.codec) && SuffixFree(env.codec) && env.blockSize > 0
    requires Inv(env, w, held) && LeavesStaleAnchor(env, w, held, s) && turns != []
    ensures var x, c, all := ContextOffset(w), env.codec, Told(turns);
            var again := SaveAll(env, Load(env, w, s).0, turns, stamp);
            var (after, slice) := WindowSlice(env, again);
            && JournalBytes(again) == EncAll(c, all) && ContextOffset(again) == x
            && (if x < |EncAll(c, all)| && OpensAt(c, all, x)
                then after == again && slice.messages == ReadBack(all[FirstFrom(c, all, x)..]) && !slice.reachedHead
                else ContextOffset(after) == 0 && slice.messages == ReadBack(all))
  {
    LoadDeletesIff(env, w, held, s);
    var gone := Load(env, w, s).0;
    SaveAllAppends(env, gone, turns, stamp);
    EmptyBase(env.codec);
    StaleIsNotRestart(env, w, held, s);
    hide Lawful, SuffixFree, EncAll, Load, SaveAll, Base, Told, Inv, LeavesStaleAnchor, OpensAt, WindowSlice, Deletes;
    assert [] + EncAll(env.codec, Told(turns)) == EncAll(env.codec, Told(turns));
    AnchorAcceptedIff(env, SaveAll(env, gone, turns, stamp), Told(turns));
  }

  lemma EmptyBase(c: Codec)
    ensures Base(c, []) == []
  {
  }

  lemma StaleIsNotRestart(env: Env, w: World, held: seq<Message>, s: Strategy)
    requires Inv(env, w, held) && LeavesStaleAnchor(env, w, held, s)
    ensures w.session.Some? && ContextOffset(w) > 0 && w.journal.Some?
    ensures w.session.value.fullRestartOffset != w.session.value.contextOffset
  {
    hide HasAssistant, ReadBack, Slides;
  }

  // ----- a run that gets there -----

  /** Two turns cancelled before any answer, and a load that slides to the second. */
  function CancelledSlide(user: Message, mtime: nat): seq<Step> {
    [SaveTokens, SaveTurn([user], mtime), SaveTurn([user], mtime), LoadPrior(Sliding(1, 0, None))]
  }

  lemma TwoUsersReadBack(user: Message)
    requires OpensTurn(user)
    ensures ReadBack([user, user]) == [user, user] && !HasAssistant([user, user]) && CountOpeners([user, user]) == 2
  {
    var rest: seq<Message> := [];
    assert [user, user][1..] == [user] && [user][1..] == rest;
    assert user.role == User && !Drops([user, user], false) && !Drops([user], false);
    hide OpensTurn, Dangling;
    FilterAll([user, user], IsValid);
    assert RepairFrom(rest, false) == [];
    assert RepairFrom([user], false) == [user];
    assert CountOpeners(rest) == 0 && CountOpeners([user]) == 1;
  }

  /** In that run a full load deletes the journal and leaves the anchor. */
  lemma CancelledSlideLeavesAnchor(env: Env, user: Message, mtime: nat)
    requires Lawful(env.codec) && env.blockSize > 0 && OpensTurn(user) && OpensRestartBoundary(user)
    ensures var w := RunSteps(env, CancelledSlide(user, mtime));
            && Inv(env, w, [user, user]) && LeavesStaleAnchor(env, w, [user, user], Full)
            && ContextOffset(w) <= |env.codec.enc(user)| + 1
  {
    var w2 := TwoCancelled(env, user, mtime);
    var s := Sliding(1, 0, None);
    TwoUsersReadBack(user);
    WindowAtHead(env, w2, [user, user]);
    MovesWindowIff(env, w2, [user, user], s);
    InvLoad(env, w2, [user, user], s);
    hide Lawful, Inv, RunSteps, EncAll, Load, ReadBack, HasAssistant, CountOpeners, OpensTurn,
      OpensRestartBoundary, ViewOf;
    assert Slides([user, user], s, env.weigh);
    var w := Load(env, w2, s).0;
    SlidLoadHasFiles(env, w2, s);
    SlideAnchorInside(env, w, user);
  }

  lemma TwoCancelled(env: Env, user: Message, mtime: nat) returns (w2: World)
    requires Lawful(env.codec) && env.blockSize > 0 && OpensTurn(user) && OpensRestartBoundary(user)
    ensures RunSteps(env, CancelledSlide(user, mtime)) == Load(env, w2, Sliding(1, 0, None)).0
    ensures Inv(env, w2, [user, user]) && w2.journal.Some? && w2.session == Some(Anchors(None, None))
  {
    var steps := CancelledSlide(user, mtime);
    var two := [SaveTokens, SaveTurn([user], mtime)];
    assert steps[..3][..2] == two;
    TwoSteps(env, [user], mtime);
    hide Lawful, Inv, Save, Load, RunSteps, OpensTurn, OpensRestartBoundary;
    var w1 := RunSteps(env, two);
    w2 := Save(env, w1, [user], mtime);
    RunLast(env, steps);
    RunLast(env, steps[..3]);
    InvSave(env, w1, [user], [user], mtime);
    assert [user] + [user] == [user, user];
    SaveMakesJournal(env, w1, [user], mtime);
    SaveKeepsAnchors(env, w1, [user], mtime);
  }

  lemma RunLast(env: Env, steps: seq<Step>)
    requires env.blockSize > 0 && steps != []
    ensures RunSteps(env, steps) == Do(env, RunSteps(env, steps[..|steps| - 1]), steps[|steps| - 1])
  {
  }

  lemma SaveMakesJournal(env: Env, w: World, batch: seq<Message>, mtime: nat)
    ensures Save(env, w, batch, mtime).journal.Some?
  {
  }

  /** Without an anchor the window is all that is held. */
  lemma WindowAtHead(env: Env, w: World, all: seq<Message>)
    requires Lawful(env.codec) && env.blockSize > 0 && Inv(env, w, all) && ContextOffset(w) == 0
    ensures ViewOf(env, w).window == ReadBack(all)
  {
    hide Lawful, Forward, KeptFrom, ReadBack, GoodTurn, GoodAnchors, EncAll, ReadWholeValue, Repair;
    WholeReads(env, w, all);
    RepairedIsKept(Forward(env.codec, JournalBytes(w), 0));
  }

  lemma SlidLoadHasFiles(env: Env, w: World, s: Strategy)
    requires env.blockSize > 0 && w.session == Some(Anchors(None, None)) && s.Sliding?
    ensures var after := Load(env, w, s).0;
            after.session.Some? && FullOffset(after) == 0 && after.session.value.fullRestartOffset.None?
  {
    hide ReadFromValue, WindowStart, WantsSlide, HasAssistant;
  }

  lemma SlideAnchorInside(env: Env, w: World, user: Message)
    requires Inv(env, w, [user, user]) && ContextOffset(w) > 0
    requires w.session.Some? && w.session.value.fullRestartOffset.None?
    ensures ContextOffset(w) <= |env.codec.enc(user)| + 1
  {
    hide EncAll, GoodTurn, OpensTurn, OpensRestartBoundary;
    var all, off := [user, user], ContextOffset(w);
    var k: nat :| AnchorAt(env.codec, all, off, k) && k < |all| && OpensTurn(all[k]);
    assert all[..0] == [] && all[..1] == [user];
    EncAllOne(env.codec, user);
    EncAllNone(env.codec);
  }

  lemma EncAllNone(c: Codec)
    ensures EncAll(c, []) == []
  {
  }

  /** And when the same two turns come again, every sliding load of the new
      journal accepts the old anchor and returns the second turn alone. */
  lemma StaleAnchorHidesTurn(env: Env, user: Message, mtime: nat, stamp: nat -> nat, s: Strategy)
    requires Lawful(env.codec) && SuffixFree(env.codec) && env.blockSize > 0 && s.Sliding?
    requires OpensTurn(user) && OpensRestartBoundary(user)
    ensures var gone := Load(env, RunSteps(env, CancelledSlide(user, mtime)), Full).0;
            var again := SaveAll(env, gone, [[user], [user]], stamp);
            && JournalBytes(again) == EncAll(env.codec, [user, user])
            && Load(env, again, s).1 == [user]
  {
    hide *;
    var w := RunSteps(env, CancelledSlide(user, mtime));
    CancelledSlideLeavesAnchor(env, user, mtime);
    StaleLoadsLast(env, w, user, stamp, s);
  }

  lemma StaleLoadsLast(env: Env, w: World, user: Message, stamp: nat -> nat, s: Strategy)
    requires Lawful(env.codec) && SuffixFree(env.codec) && env.blockSize > 0 && s.Sliding? && OpensTurn(user)
    requires Inv(env, w, [user, user]) && LeavesStaleAnchor(env, w, [user, user], Full)
    requires ContextOffset(w) <= |env.codec.enc(user)| + 1
    ensures var again := SaveAll(env, Load(env, w, Full).0, [[user], [user]], stamp);
            && JournalBytes(again) == EncAll(env.codec, [user, user])
            && Load(env, again, s).1 == [user]
  {
    var x, turns := ContextOffset(w), [[user], [user]];
    ToldTwice(user);
    TwoLines(env.codec, user);
    StaleIsNotRestart(env, w, [user, user], Full);
    FirstOfTwo(env.codec, user, x);
    LoneUserReadsBack(user);
    SaveAllAppends(env, Load(env, w, Full).0, turns, stamp);
    StaleAnchorAcceptedIff(env, w, [user, user], Full, turns, stamp);
    hide Lawful, SuffixFree, EncAll, Inv, LeavesStaleAnchor, Load, SaveAll, Told, FirstFrom, ReadBack, OpensTurn,
      HasAssistant,
      WindowSlice, CountOpeners, Base, ContextOffset;
    var again := SaveAll(env, Load(env, w, Full).0, turns, stamp);
    assert OpensAt(env.codec, [user, user], x);
    assert again.session.Some? by { OffsetNeedsSession(again); }
    LoadsOnlyUser(env, again, user, s);
  }

  lemma OffsetNeedsSession(w: World)
    ensures ContextOffset(w) > 0 ==> w.session.Some?
  {
  }

  lemma TwoLines(c: Codec, user: Message)
    ensures |EncAll(c, [user, user])| == 2 * (|c.enc(user)| + 1)
  {
    EncAllAppend(c, [user], [user]);
    EncAllOne(c, user);
    assert [user] + [user] == [user, user];
  }

  lemma ToldTwice(user: Message)
    ensures Told([[user], [user]]) == [user, user]
  {
    var turns := [[user], [user]];
    var none: seq<seq<Message>> := [];
    assert turns[..1] == [[user]] && turns[..1][..0] == none;
    assert Told(none) == [];
    assert Told([[user]]) == [] + [user];
  }

  lemma FirstOfTwo(c: Codec, user: Message, x: nat)
    requires 0 < x <= |c.enc(user)| + 1
    ensures [user, user][FirstFrom(c, [user, user], x)..] == [user]
  {
  }

  lemma LoadsOnlyUser(env: Env, w: World, user: Message, s: Strategy)
    requires env.blockSize > 0 && s.Sliding? && w.session.Some? && w.journal.Some?
    requires WindowSlice(env, w).0 == w && WindowSlice(env, w).1.messages == [user]
    requires !WindowSlice(env, w).1.reachedHead && CountOpeners([user]) <= 1
    ensures Load(env, w, s).1 == [user]
  {
    hide WindowSlice, WantsSlide, HasAssistant, OpenerIndices, CountOpeners;
  }
}
