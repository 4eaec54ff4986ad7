/** One topic's state directory: the journal, the two persisted anchors and the
    in-process pair count, and the operations that move them. The operations are
    given as functions on values; class `Topic` carries them out in place. */
module Session {
  import opened Basics
  import opened Messages
  import opened ToolCallRepair
  import opened Turns
  import opened Depth
  import opened Codec
  import opened BackwardScan
  import opened BackwardReader
  import opened ForwardReader
  import opened Writer

  /** The journal file: its bytes and the modification time the file system reports. */
  datatype File = File(bytes: Bytes, mtime: nat)

  /** The anchors persisted in the session file. */
  datatype Anchors = Anchors(contextOffset: Option<nat>, fullRestartOffset: Option<nat>)

  /** The kept pair count and the file it belongs to. */
  datatype PairCount = PairCount(fileLen: nat, fileMtime: nat, totalPairs: nat)

  datatype World = World(journal: Option<File>, session: Option<Anchors>, count: Option<PairCount>)

  /** The settings a load reads. `extend` is the rounded growth allowance, so
      the window may grow to `MaxWindow` openers. */
  datatype Strategy = Full | Sliding(window: nat, extend: nat, budget: Option<nat>)

  function Floor(s: Strategy): (w: nat)
    requires s.Sliding?
    ensures w >= 1
  {
    if s.window == 0 then 1 else s.window
  }

  function MaxWindow(s: Strategy): (w: nat)
    requires s.Sliding?
    ensures w >= Floor(s)
  {
    Floor(s) + s.extend
  }

  /** What does not change while a topic lives: the codec, the read block size,
      and the token estimate of a message. */
  datatype Env = Env(codec: Codec, blockSize: nat, weigh: Message -> nat)

  ghost predicate ValidEnv(env: Env) {
    env.blockSize > 0 && RejectsBlank(env.codec)
  }

  // ----- reading -----

  datatype PriorSlice = PriorSlice(messages: seq<Message>, offsets: seq<nat>, reachedHead: bool)

  function ReadFromValue(env: Env, b: Bytes, offset: nat): PriorSlice {
    var es := Forward(env.codec, b, offset);
    PriorSlice(RepairedMessages(es), RepairedOffsets(es), offset == 0)
  }

  function ReadWholeValue(env: Env, b: Bytes): PriorSlice
    requires env.blockSize > 0
  {
    PriorSlice(Repair(BlockwiseTail(env.codec, b, 0, env.blockSize).messages), [],
               ReachesHead(env.codec, b, env.blockSize))
  }

  function JournalBytes(w: World): Bytes {
    match w.journal case None => [] case Some(f) => f.bytes
  }

  predicate OpensBoundary(m: Message, isRestartBoundary: bool) {
    if isRestartBoundary then OpensRestartBoundary(m) else OpensTurn(m)
  }

  /** `read_anchored_slice`: the slice from a persisted anchor, or `None` when
      the anchor cannot be trusted. */
  function ReadAnchored(env: Env, b: Bytes, offset: nat, isRestartBoundary: bool): Option<PriorSlice> {
    var slice := ReadFromValue(env, b, offset);
    if offset == 0 then Some(slice)
    else if offset > |b| || (offset == |b| && !isRestartBoundary) then None
    else if (slice.messages != [] && OpensBoundary(slice.messages[0], isRestartBoundary))
         || (slice.messages == [] && CleanEndOf(env.codec, b).offset == offset) then Some(slice)
    else None
  }

  // ----- the slide -----

  /** The positions of the openers, `base` counted from. */
  function OpenerIndices(ms: seq<Message>, base: nat): (ix: seq<nat>)
    ensures |ix| == CountOpeners(ms)
    ensures forall k :: 0 <= k < |ix| ==> base <= ix[k] < base + |ms|
  {
    if ms == [] then []
    else (if OpensTurn(ms[0]) then [base] else []) + OpenerIndices(ms[1..], base + 1)
  }

  /** `window_start`: where the last `keep` turns begin, when there are more. */
  function WindowStart(messages: seq<Message>, offsets: seq<nat>, keep: nat): (start: Option<(nat, nat)>)
    ensures start.Some? ==> start.value.0 < |messages| && start.value.0 < |offsets|
  {
    var k := if keep == 0 then 1 else keep;
    var openers := OpenerIndices(messages, 0);
    if |openers| <= k then None
    else
      var index := openers[|openers| - k];
      if index < |offsets| then Some((index, offsets[index])) else None
  }

  function Weight(ms: seq<Message>, weigh: Message -> nat): nat {
    if ms == [] then 0 else weigh(ms[0]) + Weight(ms[1..], weigh)
  }

  predicate OverBudget(ms: seq<Message>, s: Strategy, weigh: Message -> nat)
    requires s.Sliding?
  {
    s.budget.Some? && s.budget.value > 0 && Weight(ms, weigh) > s.budget.value
  }

  /** The window outgrew its bound, or reached it over budget. */
  predicate WantsSlide(ms: seq<Message>, s: Strategy, weigh: Message -> nat)
    requires s.Sliding?
  {
    var turns := CountOpeners(ms);
    turns > MaxWindow(s) || (OverBudget(ms, s, weigh) && turns >= MaxWindow(s))
  }

  // ----- loads -----

  function SetContext(w: World, offset: Option<nat>): World {
    match w.session
    case None => w.(session := Some(Anchors(offset, None)))
    case Some(a) => w.(session := Some(a.(contextOffset := offset)))
  }

  function SetFull(w: World, offset: Option<nat>): World {
    match w.session
    case None => w.(session := Some(Anchors(None, offset)))
    case Some(a) => w.(session := Some(a.(fullRestartOffset := offset)))
  }

  predicate HasAssistant(ms: seq<Message>) {
    exists k :: 0 <= k < |ms| && ms[k].role == Assistant
  }

  /** `finish_load`: a head-covering slice without an assistant is corruption,
      and the journal goes. */
  function FinishLoad(w: World, raw: seq<Message>, reachedHead: bool): (World, seq<Message>) {
    if raw != [] && !HasAssistant(raw) && reachedHead then (w.(journal := None, count := None), [])
    else (w, raw)
  }

  /** `load_context_full`. */
  function FullSlice(env: Env, w: World): (World, PriorSlice)
    requires env.blockSize > 0
  {
    var b := JournalBytes(w);
    if w.session.None? || w.session.value.fullRestartOffset.None? || w.session.value.fullRestartOffset.value == 0 then
      (w, ReadWholeValue(env, b))
    else
      match ReadAnchored(env, b, w.session.value.fullRestartOffset.value, true)
      case Some(slice) => (w, slice)
      case None => (SetFull(w, None), ReadWholeValue(env, b))
  }

  /** The window `load_context_windowed` starts from. */
  function WindowSlice(env: Env, w: World): (World, PriorSlice) {
    var b := JournalBytes(w);
    if w.session.None? || w.session.value.contextOffset.None? then (w, ReadFromValue(env, b, 0))
    else
      var offset := w.session.value.contextOffset.value;
      match ReadAnchored(env, b, offset, w.session.value.fullRestartOffset == Some(offset))
      case Some(slice) => (w, slice)
      case None => (SetContext(w, None), ReadFromValue(env, b, 0))
  }

  /** The slide, when it is due: the anchor moves and the older turns go. */
  function Slide(env: Env, w: World, slice: PriorSlice, s: Strategy): (World, PriorSlice)
    requires s.Sliding?
  {
    if !WantsSlide(slice.messages, s, env.weigh) then (w, slice)
    else
      match WindowStart(slice.messages, slice.offsets, s.window)
      case None => (w, slice)
      case Some((index, offset)) =>
        (SetContext(w, Some(offset)), PriorSlice(slice.messages[index..], slice.offsets[index..], false))
  }

  /** `load_context`: the world afterwards and the prior it returns. */
  function Load(env: Env, w: World, s: Strategy): (World, seq<Message>)
    requires env.blockSize > 0
  {
    if w.session.None? || w.journal.None? then (w, [])
    else if s.Full? then
      var (w1, slice) := FullSlice(env, w);
      FinishLoad(w1, slice.messages, slice.reachedHead)
    else
      var (w1, slice) := WindowSlice(env, w);
      var (w2, kept) := Slide(env, w1, slice, s);
      FinishLoad(w2, kept.messages, kept.reachedHead)
  }

  // ----- writes -----

  /** `restart_context_window`: both anchors move to the clean end. */
  function Restart(env: Env, w: World): World {
    if w.session.None? && w.journal.None? then w
    else
      var offset := CleanEndOf(env.codec, JournalBytes(w)).offset;
      w.(session := Some(Anchors(Some(offset), Some(offset))))
  }

  /** `note_append`: extend the count when it was taken from the file as it was. */
  function NoteAppend(count: Option<PairCount>, batch: seq<Message>, before: (nat, nat), after: (nat, nat))
    : Option<PairCount>
  {
    if count.None? then None
    else if count.value.fileLen != before.0 || count.value.fileMtime != before.1 then None
    else Some(PairCount(after.0, after.1, count.value.totalPairs + TurnCount(Repair(batch))))
  }

  /** A completed `save_raw_context`; the file system stamps the file `mtime`. */
  function Save(env: Env, w: World, batch: seq<Message>, mtime: nat): World {
    var b := Saved(env.codec, JournalBytes(w), batch);
    var count :=
      if w.journal.None? then w.count
      else NoteAppend(w.count, batch, (|w.journal.value.bytes|, w.journal.value.mtime), (|b|, mtime));
    w.(journal := Some(File(b, mtime)), count := count)
  }

  /** A save whose write failed: whatever reached the file, the count is dropped. */
  function FailedSave(env: Env, w: World, batch: seq<Message>, written: nat, mtime: nat): World {
    w.(journal := Some(File(TornSave(env.codec, JournalBytes(w), batch, written), mtime)), count := None)
  }

  /** The session file is rewritten without moving an anchor (token counters). */
  function PersistTokens(w: World): World {
    w.(session := Some(match w.session case None => Anchors(None, None) case Some(a) => a))
  }

  /** How many pairs the journal holds when it is counted afresh. */
  function Recount(env: Env, b: Bytes): nat
    requires env.blockSize > 0
  {
    TurnCount(Repair(BlockwiseTail(env.codec, b, 0, env.blockSize).messages))
  }

  predicate CountMatches(count: Option<PairCount>, f: File) {
    count.Some? && count.value.fileLen == |f.bytes| && count.value.fileMtime == f.mtime
  }

  /** `total_pairs`: the kept count when it belongs to the file, a recount otherwise. */
  function TotalPairs(env: Env, w: World): (World, nat)
    requires env.blockSize > 0
  {
    if w.journal.None? then (w, 0)
    else if CountMatches(w.count, w.journal.value) then (w, w.count.value.totalPairs)
    else
      var f := w.journal.value;
      var total := Recount(env, f.bytes);
      (w.(count := Some(PairCount(|f.bytes|, f.mtime, total))), total)
  }

  // ----- the operations in place -----

  lemma {:induction false} OpenerIndicesSnoc(ms: seq<Message>, m: Message, base: nat)
    ensures OpenerIndices(ms + [m], base)
         == OpenerIndices(ms, base) + if OpensTurn(m) then [base + |ms|] else []
  {
    hide OpensTurn;
    if ms == [] {
      assert [] + [m] == [m] && [m][1..] == [];
    } else {
      assert (ms + [m])[0] == ms[0] && (ms + [m])[1..] == ms[1..] + [m];
      OpenerIndicesSnoc(ms[1..], m, base + 1);
    }
  }

  /** The positions of the turn openers. */
  method CollectOpeners(messages: seq<Message>) returns (openers: seq<nat>)
    ensures openers == OpenerIndices(messages, 0)
  {
    hide OpensTurn, OpenerIndices;
    openers := [];
    assert OpenerIndices([], 0) == [];
    for index := 0 to |messages|
      invariant openers == OpenerIndices(messages[..index], 0)
    {
      OpenerIndicesSnoc(messages[..index], messages[index], 0);
      assert messages[..index + 1] == messages[..index] + [messages[index]];
      if OpensTurn(messages[index]) {
        openers := openers + [index];
      }
    }
    assert messages[..|messages|] == messages;
  }

  /** `window_start` over the opener positions it collects. */
  method FindWindowStart(messages: seq<Message>, offsets: seq<nat>, keep: nat) returns (start: Option<(nat, nat)>)
    ensures start == WindowStart(messages, offsets, keep)
  {
    var openers := CollectOpeners(messages);
    var k := if keep == 0 then 1 else keep;
    if |openers| <= k {
      return None;
    }
    var index := openers[|openers| - k];
    return if index < |offsets| then Some((index, offsets[index])) else None;
  }

  method TotalWeight(messages: seq<Message>, weigh: Message -> nat) returns (total: nat)
    ensures total == Weight(messages, weigh)
  {
    total := 0;
    var i := 0;
    while i < |messages|
      invariant i <= |messages|
      invariant total + Weight(messages[i..], weigh) == Weight(messages, weigh)
    {
      SuffixStep(messages, i);
      total := total + weigh(messages[i]);
      i := i + 1;
    }
  }

  class Topic {
    const env: Env
    var journal: Option<File>
    var session: Option<Anchors>
    var count: Option<PairCount>

    ghost predicate Valid() {
      ValidEnv(env)
    }

    function Current(): World
      reads this
    {
      World(journal, session, count)
    }

    /** A topic nothing has been written to. */
    constructor (env: Env)
      requires ValidEnv(env)
      ensures Valid() && this.env == env && Current() == World(None, None, None)
    {
      this.env := env;
      journal, session, count := None, None, None;
    }

    method SaveRawContext(batch: seq<Message>, mtime: nat)
      requires Valid()
      modifies this
      ensures Current() == Save(env, old(Current()), batch, mtime)
    {
      CleanEndOfWholeLines(env.codec, []);
      hide EncAll, CleanEndOf, TurnCount, Repair;
      var before := journal;
      var b := if journal.Some? then journal.value.bytes else [];
      var point := CleanEnd(env.codec, if journal.Some? then Some(b) else None, env.blockSize);
      var buf := SerializeBatch(env.codec, batch);
      journal := Some(File(b[..point.offset] + point.prefix + buf, mtime));
      assert journal.value.bytes == Saved(env.codec, b, batch);
      if before.Some? {
        ExtendCount(batch, (|b|, before.value.mtime), (|journal.value.bytes|, mtime));
      }
    }

    method ExtendCount(batch: seq<Message>, before: (nat, nat), after: (nat, nat))
      modifies this`count
      ensures count == NoteAppend(old(count), batch, before, after)
    {
      hide TurnCount, Repair;
      if count.None? {
        return;
      }
      if count.value.fileLen != before.0 || count.value.fileMtime != before.1 {
        count := None;
        return;
      }
      var repaired, origin := RepairDanglingToolCalls(batch);
      var start, added := PairsTailStart(repaired, |repaired| + 1);
      count := Some(PairCount(after.0, after.1, count.value.totalPairs + added));
    }

    method RestartContextWindow()
      requires Valid()
      modifies this
      ensures Current() == Restart(env, old(Current()))
    {
      var point := CleanEnd(env.codec, if journal.Some? then Some(journal.value.bytes) else None, env.blockSize);
      if session.None? && journal.None? {
        return;
      }
      session := Some(Anchors(Some(point.offset), Some(point.offset)));
    }

    method ReadAnchoredSlice(offset: nat, isRestartBoundary: bool) returns (slice: Option<PriorSlice>)
      requires Valid() && journal.Some?
      ensures slice == ReadAnchored(env, journal.value.bytes, offset, isRestartBoundary)
    {
      var b := journal.value.bytes;
      if offset != 0 && (offset > |b| || (offset == |b| && !isRestartBoundary)) {
        return None;
      }
      var messages, offsets, reachedHead := ReadFrom(env.codec, b, env.blockSize, offset);
      slice := Some(PriorSlice(messages, offsets, reachedHead));
      if offset == 0 || (messages != [] && OpensBoundary(messages[0], isRestartBoundary)) {
        return;
      }
      var point := CleanEnd(env.codec, Some(b), env.blockSize);
      if messages != [] || point.offset != offset {
        slice := None;
      }
    }

    method LoadContextFull() returns (slice: PriorSlice)
      requires Valid() && journal.Some? && session.Some?
      modifies this
      ensures (Current(), slice) == FullSlice(env, old(Current()))
    {
      var b := journal.value.bytes;
      var restart := session.value.fullRestartOffset;
      if restart.Some? && restart.value != 0 {
        var anchored := ReadAnchoredSlice(restart.value, true);
        if anchored.Some? {
          return anchored.value;
        }
        session := Some(session.value.(fullRestartOffset := None));
      }
      var messages, reachedHead := ReadPrior(env.codec, b, env.blockSize, All);
      slice := PriorSlice(messages, [], reachedHead);
    }

    /** The window from the stored anchor, or from the head when it is missing or stale. */
    method ReadWindow() returns (slice: PriorSlice)
      requires Valid() && journal.Some? && session.Some?
      modifies this
      ensures (Current(), slice) == WindowSlice(env, old(Current())) && session.Some?
    {
      hide ReadAnchored, Forward;
      var stored, restartOffset := session.value.contextOffset, session.value.fullRestartOffset;
      if stored.Some? {
        var anchored := ReadAnchoredSlice(stored.value, restartOffset == stored);
        if anchored.Some? {
          return anchored.value;
        }
        session := Some(session.value.(contextOffset := None));
      }
      var messages, offsets, reachedHead := ReadFrom(env.codec, journal.value.bytes, env.blockSize, 0);
      slice := PriorSlice(messages, offsets, reachedHead);
    }

    /** The slide back to `window` turns, when the window outgrew its bound. */
    method SlideWindow(slice: PriorSlice, s: Strategy) returns (kept: PriorSlice)
      requires session.Some? && s.Sliding?
      modifies this
      ensures (Current(), kept) == Slide(env, old(Current()), slice, s)
    {
      hide Weight, CountOpeners, WindowStart, MaxWindow;
      kept := slice;
      var turns := CountOpeners(slice.messages);
      var overBudget := false;
      if s.budget.Some? && s.budget.value > 0 {
        var weight := TotalWeight(slice.messages, env.weigh);
        overBudget := weight > s.budget.value;
      }
      if turns > MaxWindow(s) || (overBudget && turns >= MaxWindow(s)) {
        var start := FindWindowStart(slice.messages, slice.offsets, s.window);
        if start.Some? {
          var (index, offset) := start.value;
          session := Some(session.value.(contextOffset := Some(offset)));
          kept := PriorSlice(slice.messages[index..], slice.offsets[index..], false);
        }
      }
    }

    method LoadContextWindowed(s: Strategy) returns (prior: seq<Message>)
      requires Valid() && journal.Some? && session.Some? && s.Sliding?
      modifies this
      ensures (Current(), prior) == Load(env, old(Current()), s)
    {
      hide WindowSlice, Slide, FinishLoad;
      var slice := ReadWindow();
      slice := SlideWindow(slice, s);
      prior := FinishLoadInPlace(slice.messages, slice.reachedHead);
    }

    method FinishLoadInPlace(raw: seq<Message>, reachedHead: bool) returns (prior: seq<Message>)
      modifies this
      ensures (Current(), prior) == FinishLoad(old(Current()), raw, reachedHead)
    {
      prior := raw;
      if raw != [] && !HasAssistant(raw) && reachedHead {
        journal, count := None, None;
        prior := [];
      }
    }

    method LoadContext(s: Strategy) returns (prior: seq<Message>)
      requires Valid()
      modifies this
      ensures (Current(), prior) == Load(env, old(Current()), s)
    {
      if session.None? || journal.None? {
        return [];
      }
      match s {
        case Full =>
          var slice := LoadContextFull();
          prior := FinishLoadInPlace(slice.messages, slice.reachedHead);
        case Sliding(_, _, _) =>
          prior := LoadContextWindowed(s);
      }
    }

    method CountPairs() returns (total: nat)
      requires Valid()
      modifies this
      ensures (Current(), total) == TotalPairs(env, old(Current()))
    {
      if journal.None? {
        return 0;
      }
      var f := journal.value;
      if CountMatches(count, f) {
        return count.value.totalPairs;
      }
      var messages := ReadAll(env.codec, f.bytes, env.blockSize);
      var start;
      start, total := PairsTailStart(messages, |messages| + 1);
      count := Some(PairCount(|f.bytes|, f.mtime, total));
    }
  }
}
