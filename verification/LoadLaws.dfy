/** What every load and every kept count does, on any journal, with any anchor
    and any time stamps. */
module LoadLaws {
  import opened Basics
  import opened Lines
  import opened Messages
  import opened MessageContents
  import opened ToolCallRepair
  import opened Codec
  import opened BackwardScan
  import opened ForwardReader
  import opened Session
  import opened Anchors

  // ----- no empty assistant -----

  ghost predicate AllValid(ms: seq<Message>) {
    forall m :: m in ms ==> IsValid(m)
  }

  lemma {:induction false} ForwardIsValid(c: Codec, b: Bytes, o: nat)
    ensures AllValid(MessagesOf(Forward(c, b, o)))
    decreases |b| - o
  {
    hide IsValid, NextNewline;
    if o < |b| && NextNewline(b, o) < |b| {
      var i := NextNewline(b, o);
      ForwardIsValid(c, b, i + 1);
      LineIsValid(c, b[o..i], o);
      MessagesAppend(LineEntry(c, b[o..i], o), Forward(c, b, i + 1));
    }
  }

  lemma LineIsValid(c: Codec, line: Bytes, o: nat)
    ensures AllValid(MessagesOf(LineEntry(c, line, o)))
  {
  }

  lemma MessagesAppend(a: seq<Entry>, b: seq<Entry>)
    ensures MessagesOf(a + b) == MessagesOf(a) + MessagesOf(b)
  {
    assert forall k :: 0 <= k < |a + b| ==> MessagesOf(a + b)[k] == (MessagesOf(a) + MessagesOf(b))[k];
  }

  lemma {:induction false} BackwardIsValid(c: Codec, b: Bytes, o: nat, size: nat)
    requires o <= |b| && size > 0
    ensures AllValid(BlockwiseTail(c, b, o, size).messages)
    decreases |b| - o
  {
    hide IsValid, NextNewline, EndsBlock;
    var i := NextNewline(b, o);
    if i < |b| {
      BackwardIsValid(c, b, i + 1, size);
      KeptIsValid(c, b[o..i]);
    } else {
      KeptIsValid(c, b[o..]);
    }
  }

  lemma KeptIsValid(c: Codec, line: Bytes)
    ensures Classify(c, line).Keep? ==> IsValid(Classify(c, line).message)
  {
  }

  lemma {:induction false} RepairedIsValid(ms: seq<Message>, dropping: bool)
    requires AllValid(ms)
    ensures AllValid(RepairFrom(ms, dropping))
  {
    hide IsValid, Drops;
    if ms == [] {
    } else {
      assert ms[0] in ms && forall m :: m in ms[1..] ==> m in ms;
      RepairedIsValid(ms[1..], Drops(ms, dropping));
    }
  }

  lemma ReadersAreValid(env: Env, b: Bytes, offset: nat)
    ensures AllValid(ReadFromValue(env, b, offset).messages)
    ensures env.blockSize > 0 ==> AllValid(ReadWholeValue(env, b).messages)
  {
    hide AllValid, Forward, BlockwiseTail;
    ForwardIsValid(env.codec, b, offset);
    RepairedIsValid(MessagesOf(Forward(env.codec, b, offset)), false);
    if env.blockSize > 0 {
      BackwardIsValid(env.codec, b, 0, env.blockSize);
      RepairedIsValid(BlockwiseTail(env.codec, b, 0, env.blockSize).messages, false);
    }
  }

  lemma LoadIsValid(env: Env, w: World, s: Strategy)
    requires env.blockSize > 0
    ensures AllValid(Load(env, w, s).1)
  {
    hide IsValid, ReadFromValue, ReadWholeValue, WantsSlide, WindowStart, HasAssistant;
    forall offset ensures AllValid(ReadFromValue(env, JournalBytes(w), offset).messages) {
      ReadersAreValid(env, JournalBytes(w), offset);
    }
    ReadersAreValid(env, JournalBytes(w), 0);
  }

  /** No load hands the provider an assistant message without text and calls. */
  lemma NoEmptyAssistant(env: Env, w: World, s: Strategy, m: Message)
    requires env.blockSize > 0 && m in Load(env, w, s).1 && m.role == Assistant
    ensures (exists text: Bytes :: Says(m, text) && text != []) || exists call: ToolCall :: Makes(m, call)
  {
    hide IsValid, Load, Says, Makes;
    LoadIsValid(env, w, s);
    IsValidIff(m);
  }

  // ----- the other mode's anchor -----

  /** A load in one mode never touches the other mode's anchor, whatever becomes
      of its own; and no load changes the journal except by deleting it. */
  lemma LoadKeepsOtherAnchor(env: Env, w: World, s: Strategy)
    requires env.blockSize > 0 && w.session.Some?
    ensures var after := Load(env, w, s).0;
            && after.session.Some?
            && (s.Full? ==> after.session.value.contextOffset == w.session.value.contextOffset)
            && (s.Sliding? ==> after.session.value.fullRestartOffset == w.session.value.fullRestartOffset)
            && (after.journal == w.journal || after.journal.None?)
  {
    hide ReadFromValue, ReadWholeValue, ReadAnchored, WantsSlide, WindowStart, HasAssistant;
  }

  // ----- the kept count, whatever the stamps -----

  /** After a save that failed the pairs are counted afresh, even if the file kept
      its length and time stamp. */
  lemma FailedSaveRecounts(env: Env, w: World, batch: seq<Message>, written: nat, mtime: nat)
    requires env.blockSize > 0
    ensures var failed := FailedSave(env, w, batch, written, mtime);
            failed.journal.Some? && TotalPairs(env, failed).1 == Recount(env, failed.journal.value.bytes)
  {
    hide Recount;
  }

  /** After a load that deleted the journal, the next journal's pairs are counted
      afresh, whatever its length and time stamp. */
  lemma DeletedRecounts(env: Env, w: World, s: Strategy, batch: seq<Message>, mtime: nat)
    requires env.blockSize > 0 && w.journal.Some? && Load(env, w, s).0.journal.None?
    ensures var saved := Save(env, Load(env, w, s).0, batch, mtime);
            saved.journal.Some? && TotalPairs(env, saved).1 == Recount(env, saved.journal.value.bytes)
  {
    hide Recount, FullSlice, WindowSlice, Slide, HasAssistant;
    FullKeepsJournal(env, w);
    if s.Sliding? { SlidingKeepsJournal(env, w, s); }
  }

  lemma FullKeepsJournal(env: Env, w: World)
    requires env.blockSize > 0
    ensures FullSlice(env, w).0.journal == w.journal
  {
  }

  lemma SlidingKeepsJournal(env: Env, w: World, s: Strategy)
    requires s.Sliding?
    ensures var (w1, slice) := WindowSlice(env, w); Slide(env, w1, slice, s).0.journal == w.journal
  {
  }

  /** A file somebody else rewrote is counted afresh when its length or its time
      stamp differs from the counted one's: either alone is enough. */
  lemma RewrittenRecounts(env: Env, w: World, f: File)
    requires env.blockSize > 0 && w.journal.Some?
    requires |f.bytes| != |w.journal.value.bytes| || f.mtime != w.journal.value.mtime
    ensures var rewritten := TotalPairs(env, w).0.(journal := Some(f));
            TotalPairs(env, rewritten).1 == Recount(env, f.bytes)
  {
    hide Recount;
  }

  /** And a save behind such a rewrite does not extend the old count: it is dropped. */
  lemma RewrittenIsNotExtended(env: Env, w: World, f: File, batch: seq<Message>, mtime: nat)
    requires env.blockSize > 0 && w.journal.Some?
    requires |f.bytes| != |w.journal.value.bytes| || f.mtime != w.journal.value.mtime
    ensures var saved := Save(env, TotalPairs(env, w).0.(journal := Some(f)), batch, mtime);
            saved.journal.Some? && TotalPairs(env, saved).1 == Recount(env, saved.journal.value.bytes)
  {
    hide Recount;
  }
}
