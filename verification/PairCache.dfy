/** The kept pair count over runs of saves, failed writes, outside rewrites and
    queries: whenever it is served, it equals a recount of the journal. */
module PairCache {
  import opened Basics
  import opened Lines
  import opened Messages
  import opened ToolCallRepair
  import opened Turns
  import opened Codec
  import opened BackwardScan
  import opened BackwardReader
  import opened Writer
  import opened Session
  import opened Anchors
  import opened SavedJournal
  import opened PairRecount
  import CrashRuns

  // ----- runs -----

  datatype Event =
    | Saves(batch: seq<Message>, mtime: nat)
    | FailsToSave(batch: seq<Message>, written: nat, mtime: nat)
    | Rewritten(bytes: Bytes, mtime: nat)
    | Removed
    | Invalidated
    | Counted

  function Happen(env: Env, w: World, e: Event): World
    requires env.blockSize > 0
  {
    match e
    case Saves(batch, mtime) => Save(env, w, batch, mtime)
    case FailsToSave(batch, written, mtime) => FailedSave(env, w, batch, written, mtime)
    case Rewritten(bytes, mtime) => w.(journal := Some(File(bytes, mtime)))
    case Removed => w.(journal := None)
    case Invalidated => w.(count := None)
    case Counted => TotalPairs(env, w).0
  }

  function History(env: Env, events: seq<Event>): World
    requires env.blockSize > 0
  {
    if events == [] then EMPTY
    else Happen(env, History(env, events[..|events| - 1]), events[|events| - 1])
  }

  /** Length and time tell any two contents the journal ever had apart. */
  ghost predicate DistinctStamps(env: Env, events: seq<Event>)
    requires env.blockSize > 0
  {
    forall i: nat, j: nat :: i <= |events| && j <= |events| ==>
      SameStampSameBytes(History(env, events[..i]).journal, History(env, events[..j]).journal)
  }

  predicate SameStampSameBytes(f: Option<File>, g: Option<File>) {
    f.Some? && g.Some? && f.value.mtime == g.value.mtime && |f.value.bytes| == |g.value.bytes|
    ==> f.value.bytes == g.value.bytes
  }

  /** What a save asks of the journal it finds, however that came to be: the turn
      opens with text and answers no dangling call, and the old lines show as many
      pairs with blocks counted from the new end as they do now. */
  ghost predicate SaveFits(env: Env, w: World, batch: seq<Message>)
    requires env.blockSize > 0
  {
    w.journal.Some? ==>
      && batch != [] && OpensTurn(batch[0])
      && KeepsDangling(Trusted(env.codec, JournalBytes(w), 0).messages, batch)
      && PairsOf(OldReading(env, JournalBytes(w), Added(env, batch))) == Recount(env, JournalBytes(w))
  }

  ghost predicate LegalHistory(env: Env, events: seq<Event>)
    requires env.blockSize > 0
  {
    events == [] ||
    (var before, last := events[..|events| - 1], events[|events| - 1];
     LegalHistory(env, before) && (last.Saves? ==> SaveFits(env, History(env, before), last.batch)))
  }

  /** The kept count is the recount of some content the journal had. */
  ghost predicate CountOfPast(env: Env, events: seq<Event>, count: Option<PairCount>)
    requires env.blockSize > 0
  {
    count.Some? ==> exists i: nat :: i <= |events| && CountOf(env, History(env, events[..i]), count.value)
  }

  ghost predicate CountOf(env: Env, w: World, count: PairCount)
    requires env.blockSize > 0
  {
    w.journal.Some? && CountMatches(Some(count), w.journal.value) && count.totalPairs == Recount(env, JournalBytes(w))
  }

  lemma PastStays(env: Env, events: seq<Event>, e: Event, count: Option<PairCount>)
    requires env.blockSize > 0 && CountOfPast(env, events, count)
    ensures CountOfPast(env, events + [e], count)
  {
    if count.Some? {
      var i: nat :| i <= |events| && CountOf(env, History(env, events[..i]), count.value);
      assert (events + [e])[..i] == events[..i];
    }
  }

  /** A kept count that matches the file is the file's recount. */
  lemma MatchingCountIsRight(env: Env, events: seq<Event>, count: PairCount, f: File)
    requires env.blockSize > 0 && DistinctStamps(env, events) && CountOfPast(env, events, Some(count))
    requires History(env, events).journal == Some(f) && CountMatches(Some(count), f)
    ensures count.totalPairs == Recount(env, f.bytes)
  {
    hide History, Recount;
    var i: nat :| i <= |events| && CountOf(env, History(env, events[..i]), count);
    assert events[..|events|] == events;
    assert SameStampSameBytes(History(env, events[..i]).journal, History(env, events[..|events|]).journal);
  }

  lemma DistinctBefore(env: Env, events: seq<Event>)
    requires env.blockSize > 0 && events != [] && DistinctStamps(env, events)
    ensures DistinctStamps(env, events[..|events| - 1])
  {
    hide History;
    var before := events[..|events| - 1];
    forall i: nat, j: nat | i <= |before| && j <= |before|
      ensures SameStampSameBytes(History(env, before[..i]).journal, History(env, before[..j]).journal)
    {
      assert before[..i] == events[..i] && before[..j] == events[..j];
    }
  }

  lemma CountOfNow(env: Env, events: seq<Event>, count: PairCount)
    requires env.blockSize > 0 && CountOf(env, History(env, events), count)
    ensures CountOfPast(env, events, Some(count))
  {
    assert events[..|events|] == events;
  }

  lemma CountAfterSave(env: Env, events: seq<Event>, batch: seq<Message>, mtime: nat)
    requires Lawful(env.codec) && env.blockSize > 0 && DistinctStamps(env, events)
    requires CountOfPast(env, events, History(env, events).count) && SaveFits(env, History(env, events), batch)
    ensures CountOfPast(env, events + [Saves(batch, mtime)], History(env, events + [Saves(batch, mtime)]).count)
  {
    var w := History(env, events);
    var after := events + [Saves(batch, mtime)];
    assert after[..|events|] == events;
    hide Lawful, Trusted, Recount, OpensTurn, KeepsDangling, TurnCount, Repair, DistinctStamps, OldReading;
    if w.journal.None? || w.count.None? {
      PastStays(env, events, Saves(batch, mtime), w.count);
    } else if CountMatches(w.count, w.journal.value) {
      MatchingCountIsRight(env, events, w.count.value, w.journal.value);
      CountIsAdditiveIff(env, JournalBytes(w), batch);
      assert PairsOf(batch) == TurnCount(Repair(batch));
      CountOfNow(env, after, History(env, after).count.value);
    }
  }

  lemma {:induction false} CountIsAlwaysOfPast(env: Env, events: seq<Event>)
    requires Lawful(env.codec) && env.blockSize > 0 && LegalHistory(env, events) && DistinctStamps(env, events)
    ensures CountOfPast(env, events, History(env, events).count)
  {
    if events == [] {
    } else {
      var before, last := events[..|events| - 1], events[|events| - 1];
      var w := History(env, before);
      assert before + [last] == events;
      DistinctBefore(env, events);
      CountIsAlwaysOfPast(env, before);
      hide Lawful, DistinctStamps, SaveFits, Recount;
      match last
      case Saves(batch, mtime) => CountAfterSave(env, before, batch, mtime);
      case Counted =>
        PastStays(env, before, last, w.count);
        if w.journal.Some? && !CountMatches(w.count, w.journal.value) {
          CountOfNow(env, events, History(env, events).count.value);
        }
      case _ => PastStays(env, before, last, w.count);
    }
  }

  /** In every such run, every answer of `total_pairs` equals a recount of the
      journal as it is. */
  lemma TotalPairsOnAnyJournal(env: Env, events: seq<Event>)
    requires Lawful(env.codec) && env.blockSize > 0 && LegalHistory(env, events) && DistinctStamps(env, events)
    ensures var w := History(env, events);
            TotalPairs(env, w).1 == if w.journal.None? then 0 else Recount(env, JournalBytes(w))
  {
    hide Lawful, DistinctStamps, LegalHistory, Recount, History;
    var w := History(env, events);
    CountIsAlwaysOfPast(env, events);
    if w.journal.Some? && CountMatches(w.count, w.journal.value) {
      MatchingCountIsRight(env, events, w.count.value, w.journal.value);
    }
  }

  // ----- journals without blank lines -----

  /** No blank line, and a torn tail that is complete or fits a block. */
  ghost predicate CleanJournal(env: Env, b: Bytes) {
    NoBlankLine(b, 0) && TornFits(env.codec, b, env.blockSize)
  }

  /** A saved turn opens with text and answers no dangling call; a save that dies
      leaves a fragment that fits a block or is complete; and what others write
      has no blank line and no longer fragment either. */
  ghost predicate CleanEvent(env: Env, w: World, e: Event) {
    match e
    case Saves(batch, _) =>
      batch != [] && OpensTurn(batch[0]) && KeepsDangling(Trusted(env.codec, JournalBytes(w), 0).messages, batch)
    case FailsToSave(batch, written, _) =>
      TornFits(env.codec, TornSave(env.codec, JournalBytes(w), batch, written), env.blockSize)
    case Rewritten(bytes, _) => CleanJournal(env, bytes)
    case _ => true
  }

  ghost predicate CleanHistory(env: Env, events: seq<Event>)
    requires env.blockSize > 0
  {
    events == [] ||
    (var before := events[..|events| - 1];
     CleanHistory(env, before) && CleanEvent(env, History(env, before), events[|events| - 1]))
  }

  /** A completed save leaves a clean journal. */
  lemma SavedIsClean(env: Env, b: Bytes, batch: seq<Message>)
    requires Lawful(env.codec) && NoBlankLine(b, 0)
    ensures CleanJournal(env, Saved(env.codec, b, batch))
  {
    LawfulRejectsBlank(env.codec);
    hide Lawful, NoBlankLine, TornFits, Base, EncAll, Trusted;
    BaseIsWholeLines(env.codec, b);
    BaseReadsLikeJournal(env.codec, b);
    TrustedAppended(env.codec, Base(env.codec, b), batch);
    SavedTornFits(env, b, batch);
  }

  /** A save that dies leaves no blank line. */
  lemma TornHasNoBlank(c: Codec, b: Bytes, batch: seq<Message>, written: nat)
    requires Lawful(c) && NoBlankLine(b, 0)
    ensures NoBlankLine(TornSave(c, b, batch, written), 0)
  {
    LawfulRejectsBlank(c);
    CleanEndShape(c, b);
    if written < |CleanEndOf(c, b).prefix| {
      assert TornSave(c, b, batch, written) == b;
    } else {
      hide Lawful, NoBlankLine, Base, EncAll, Trusted, TornSave, CleanEndOf, WholeLines;
      TornBehindBase(c, b, batch, written);
      BaseIsWholeLines(c, b);
      BaseReadsLikeJournal(c, b);
      LinesAndPart(c, Base(c, b), batch, Min(written - |CleanEndOf(c, b).prefix|, |EncAll(c, batch)|));
    }
  }

  /** Some bytes of a batch behind whole lines. */
  lemma LinesAndPart(c: Codec, x: Bytes, batch: seq<Message>, k: nat)
    requires Lawful(c) && WholeLines(x) && NoBlankLine(x, 0) && k <= |EncAll(c, batch)|
    ensures NoBlankLine(x + EncAll(c, batch)[..k], 0)
  {
    LawfulRejectsBlank(c);
    var n, j := CrashRuns.TakeOfBatch(c, batch, k);
    var frag := if j > 0 then c.enc(batch[n])[..j] else [];
    PartHasNoNewline(c, batch, n, j);
    var lines := EncAll(c, batch[..n]);
    EncAllWholeLines(c, batch[..n]);
    AppendedAtLineStart(x, lines);
    hide Lawful, NoBlankLine, EncAll, Trusted;
    Assoc(x, lines, frag);
    TrustedAppended(c, x, batch[..n]);
    TrustedTorn(c, x + lines, frag);
  }

  lemma PartHasNoNewline(c: Codec, batch: seq<Message>, n: nat, j: nat)
    requires Lawful(c) && (j > 0 ==> n < |batch| && j <= |c.enc(batch[n])|)
    ensures NoNewline(if j > 0 then c.enc(batch[n])[..j] else [])
  {
  }

  lemma CleanStep(env: Env, w: World, e: Event)
    requires Lawful(env.codec) && env.blockSize > 0 && CleanJournal(env, JournalBytes(w)) && CleanEvent(env, w, e)
    ensures CleanJournal(env, JournalBytes(Happen(env, w, e)))
  {
    hide Lawful, NoBlankLine, TornFits, OpensTurn, KeepsDangling, Trusted, Saved, TornSave, Recount;
    EmptyIsClean(env);
    match e
    case Saves(batch, _) => SavedIsClean(env, JournalBytes(w), batch);
    case FailsToSave(batch, written, _) => TornHasNoBlank(env.codec, JournalBytes(w), batch, written);
    case _ =>
  }

  lemma EmptyIsClean(env: Env)
    ensures CleanJournal(env, [])
  {
  }

  /** Every clean history is one the count follows, and its journal stays clean. */
  lemma {:induction false} CleanIsLegal(env: Env, events: seq<Event>)
    requires Lawful(env.codec) && env.blockSize > 0 && CleanHistory(env, events)
    ensures LegalHistory(env, events) && CleanJournal(env, JournalBytes(History(env, events)))
  {
    hide Lawful, CleanEvent, CleanJournal, Happen, SaveFits;
    if events == [] {
      EmptyIsClean(env);
    } else {
      var before, last := events[..|events| - 1], events[|events| - 1];
      CleanIsLegal(env, before);
      CleanStep(env, History(env, before), last);
      if last.Saves? {
        CleanSaveFits(env, History(env, before), last.batch, last.mtime);
      }
    }
  }

  lemma CleanSaveFits(env: Env, w: World, batch: seq<Message>, mtime: nat)
    requires Lawful(env.codec) && env.blockSize > 0 && CleanJournal(env, JournalBytes(w))
    requires CleanEvent(env, w, Saves(batch, mtime))
    ensures SaveFits(env, w, batch)
  {
    hide Lawful, NoBlankLine, TornFits, OpensTurn, KeepsDangling, Trusted, OldReading, Recount, PairsOf;
    AdditiveWithoutBlanksIff(env, JournalBytes(w), batch);
  }

  /** Over every history of saves, saves that die, outside rewrites, removals and
      invalidations in which nobody writes a blank line and no fragment outgrows a
      block, every answer of `total_pairs` equals a fresh recount. */
  lemma TotalPairsIsRecount(env: Env, events: seq<Event>)
    requires Lawful(env.codec) && env.blockSize > 0 && CleanHistory(env, events) && DistinctStamps(env, events)
    ensures var w := History(env, events);
            TotalPairs(env, w).1 == if w.journal.None? then 0 else Recount(env, JournalBytes(w))
  {
    hide *;
    CleanIsLegal(env, events);
    TotalPairsOnAnyJournal(env, events);
  }
}
