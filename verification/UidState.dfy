/** The processed UIDs of one mailbox (`StateManager`): a set in memory, an
    append-only file behind it, and compaction of both. */
module UidState {
  import opened Basics
  import opened Lines
  import opened Decimal
  import opened RecordFiles

  type Uid = x: nat | x < 0x1_0000_0000

  const COMPACTION_THRESHOLD: nat := 5000
  const COMPACTION_KEEP_BUFFER: nat := 1000

  function UidLine(u: Uid): Bytes {
    Dec(u)
  }

  function ParseUid(line: Bytes): Option<Uid> {
    match ParseBelow(Trim(line), 0x1_0000_0000)
    case Some(v) => if v < 0x1_0000_0000 then Some(v) else None
    case None => None
  }

  /** A line is a UID when it is a numeral below 2^32, blanks around it or not. */
  lemma ParseUidIff(line: Bytes, uid: Uid)
    ensures ParseUid(line) == Some(uid) <==> exists t: Bytes :: Trimmed(line, t) && Numeral(t, uid)
  {
    hide Trimmed, Numeral, Trim;
    TrimIs(line);
    forall t: Bytes ensures Trimmed(line, t) <==> t == Trim(line) {
      TrimIff(line, t);
    }
    ParseBelowIff(Trim(line), 0x1_0000_0000, uid);
  }

  /** `last` is the detection cursor, `saved` the one in the state file. */
  datatype Store = Store(last: Option<Uid>, saved: Option<Uid>, uids: set<Uid>, file: Bytes)

  datatype Op = Track(uid: Uid) | Advance(cursor: Option<Uid>) | Save | Reset | Restart

  /** UIDs below this are dropped by a compaction; 0 switches it off. */
  function Floor(last: Option<Uid>): nat {
    match last
    case Some(u) => SatSub(u, COMPACTION_KEEP_BUFFER)
    case None => 0
  }

  function FromFloor(uids: set<Uid>, floor: nat): set<Uid> {
    set u | u in uids && u >= floor
  }

  /** A compaction of `uids` and `file`; the rewritten lines come in any order. */
  ghost predicate Compacted(last: Option<Uid>, uids: set<Uid>, file: Bytes, uids': set<Uid>, file': Bytes) {
    && uids' == FromFloor(uids, Floor(last))
    && (if uids' == uids then file' == file else ListingOf(file', uids', UidLine))
  }

  ghost predicate Next(s: Store, op: Op, s': Store) {
    match op
    case Track(uid) =>
      var grown, appended := s.uids + {uid}, s.file + (UidLine(uid) + [NL]);
      && s'.last == s.last && s'.saved == s.saved
      && (if |grown| > COMPACTION_THRESHOLD then Compacted(s.last, grown, appended, s'.uids, s'.file)
          else s'.uids == grown && s'.file == appended)
    case Advance(cursor) => s' == s.(last := if cursor.Some? then cursor else s.last)
    case Save => s' == s.(saved := s.last)
    case Reset => s' == Store(None, None, {}, [])
    case Restart => s' == s.(last := s.saved, uids := Parsed(s.file, ParseUid))
  }

  // ----- in place -----

  class StateManager {
    var last: Option<Uid>
    var saved: Option<Uid>
    var processedUids: set<Uid>
    var file: Bytes

    function Value(): Store
      reads this
    {
      Store(last, saved, processedUids, file)
    }

    constructor ()
      ensures Value() == Store(None, None, {}, [])
    {
      last, saved, processedUids, file := None, None, {}, [];
    }

    method TrackUid(uid: Uid)
      modifies this
      ensures Next(old(Value()), Track(uid), Value())
    {
      processedUids := processedUids + {uid};
      file := file + (UidLine(uid) + [NL]);
      if |processedUids| > COMPACTION_THRESHOLD {
        Compact();
      }
    }

    method Compact()
      modifies this
      ensures last == old(last) && saved == old(saved)
      ensures Compacted(last, old(processedUids), old(file), processedUids, file)
    {
      if last.None? {
        assert FromFloor(processedUids, 0) == processedUids;
        return;
      }
      var floor := SatSub(last.value, COMPACTION_KEEP_BUFFER);
      if floor == 0 {
        assert FromFloor(processedUids, 0) == processedUids;
        return;
      }
      var kept := FromFloor(processedUids, floor);
      SubsetOfSameSize(kept, processedUids);
      if |kept| == |processedUids| {
        return;
      }
      processedUids := kept;
      file := Rewritten(kept, UidLine);
    }

    method UpdateSequence(uid: Option<Uid>)
      modifies this
      ensures Next(old(Value()), Advance(uid), Value())
    {
      if uid.Some? {
        last := uid;
      }
    }

    method SaveState()
      modifies this
      ensures Next(old(Value()), Save, Value())
    {
      saved := last;
    }

    method ResetState()
      modifies this
      ensures Next(old(Value()), Reset, Value())
    {
      last, saved, processedUids, file := None, None, {}, [];
    }

    /** A new process loading what the old one left. */
    method Initialize()
      modifies this
      ensures Next(old(Value()), Restart, Value())
    {
      last := saved;
      processedUids := Parsed(file, ParseUid);
    }
  }

  lemma SubsetOfSameSize(a: set<Uid>, b: set<Uid>)
    requires a <= b
    ensures |a| == |b| <==> a == b
  {
    assert b == a + (b - a);
  }

  // ----- memory and disk -----

  lemma UidLineParses(u: Uid)
    ensures NoNewline(UidLine(u)) && ParseUid(UidLine(u)) == Some(u)
  {
    ParseDec(u, 0x1_0000_0000);
    var d := Dec(u);
    assert IsDigit(d[0]) && IsDigit(d[|d| - 1]);
  }

  /** Reading the file gives the set in memory, and the next append starts a line. */
  ghost predicate Agrees(s: Store) {
    WholeLines(s.file) && Parsed(s.file, ParseUid) == s.uids
  }

  lemma TrackedLine(file: Bytes, uid: Uid)
    requires WholeLines(file)
    ensures WholeLines(file + (UidLine(uid) + [NL]))
    ensures Parsed(file + (UidLine(uid) + [NL]), ParseUid) == Parsed(file, ParseUid) + {uid}
  {
    UidLineParses(uid);
    ParsedAppend(file, UidLine(uid) + [NL], ParseUid);
    ParsedLine(UidLine(uid), ParseUid, uid);
  }

  lemma UidsReadBack(file: Bytes, uids: set<Uid>)
    requires ListingOf(file, uids, UidLine)
    ensures WholeLines(file) && Parsed(file, ParseUid) == uids
  {
    hide ListingOf;
    forall u: Uid | u in uids ensures NoNewline(UidLine(u)) && ParseUid(UidLine(u)) == Some(u) {
      UidLineParses(u);
    }
    ListingReadsBack(file, uids, UidLine, ParseUid);
  }

  lemma AgreesNext(s: Store, op: Op, s': Store)
    requires Agrees(s) && Next(s, op, s')
    ensures Agrees(s')
  {
    hide Parsed, ListingOf, UidLine;
    match op
    case Track(uid) =>
      TrackedLine(s.file, uid);
      if ListingOf(s'.file, s'.uids, UidLine) { UidsReadBack(s'.file, s'.uids); }
    case Reset => NothingRead();
    case _ =>
  }

  lemma NothingRead()
    ensures Parsed([], ParseUid) == {}
  {
    SplitEmpty();
    assert Collect([[]], ParseUid) == {};
  }

  lemma StartAgrees()
    ensures Agrees(Store(None, None, {}, []))
  {
    NothingRead();
  }

  // ----- runs -----

  ghost predicate IsRun(states: seq<Store>, ops: seq<Op>) {
    && |states| == |ops| + 1
    && states[0] == Store(None, None, {}, [])
    && forall k :: 0 <= k < |ops| ==> Next(states[k], ops[k], states[k + 1])
  }

  /** In every run, whatever is tracked, compacted, reset or restarted, the file
      parses to the set in memory. */
  lemma {:induction false} DiskMatchesMemory(states: seq<Store>, ops: seq<Op>, k: nat)
    requires IsRun(states, ops) && k < |states|
    ensures Agrees(states[k])
  {
    hide Next, Agrees;
    if k == 0 {
      StartAgrees();
    } else {
      DiskMatchesMemory(states, ops, k - 1);
      AgreesNext(states[k - 1], ops[k - 1], states[k]);
    }
  }

  /** A step that makes `uid` forgotten on purpose: a reset, or a track that
      filled the set past its threshold while the cursor was more than 1000
      UIDs ahead. */
  predicate MayForget(s: Store, op: Op, uid: Uid) {
    || op.Reset?
    || (op.Track? && |s.uids + {op.uid}| > 5000 && s.last.Some? && uid + 1000 < s.last.value)
  }

  lemma ForgetStep(s: Store, op: Op, s': Store, uid: Uid)
    requires Agrees(s) && Next(s, op, s') && (uid in s.uids || op == Track(uid))
    ensures uid !in s'.uids <==> MayForget(s, op, uid)
  {
    hide Parsed, ListingOf, UidLine;
  }

  /** A UID processed once stays known: it is missing later only if some step in
      between was allowed to drop it. A restart never is. */
  lemma {:induction false} ForgottenOnlyByCompaction(states: seq<Store>, ops: seq<Op>, i: nat, j: nat, uid: Uid)
    requires IsRun(states, ops) && i < j < |states|
    requires uid in states[i].uids || ops[i] == Track(uid)
    requires uid !in states[j].uids
    ensures exists m :: i <= m < j && MayForget(states[m], ops[m], uid)
    decreases j - i
  {
    hide Next, Agrees, MayForget;
    DiskMatchesMemory(states, ops, i);
    ForgetStep(states[i], ops[i], states[i + 1], uid);
    if uid in states[i + 1].uids {
      ForgottenOnlyByCompaction(states, ops, i + 1, j, uid);
    }
  }

  // ----- the cursor -----

  /** The cursor last moved to is the cursor, until it moves on, a reset or a
      restart: updates without a UID, tracking and compaction leave it. */
  lemma {:induction false} CursorStays(states: seq<Store>, ops: seq<Op>, i: nat, j: nat, uid: Uid)
    requires IsRun(states, ops) && i < j < |states| && ops[i] == Advance(Some(uid))
    requires forall k :: i < k < j ==> ops[k].Track? || ops[k].Save? || ops[k] == Advance(None)
    ensures states[j].last == Some(uid)
  {
    hide Compacted;
    assert Next(states[j - 1], ops[j - 1], states[j]);
    if j > i + 1 { CursorStays(states, ops, i, j - 1, uid); }
  }

  /** A restart goes on from the cursor as it was last saved, whatever moved it
      since; from none when nothing was saved behind the last reset. */
  lemma {:induction false} RestartResumes(states: seq<Store>, ops: seq<Op>, i: nat, j: nat)
    requires IsRun(states, ops) && i < j < |ops| && (ops[i].Save? || ops[i].Reset?) && ops[j].Restart?
    requires forall k :: i < k < j ==> !ops[k].Save? && !ops[k].Reset?
    ensures states[j + 1].last == if ops[i].Save? then states[i].last else None
  {
    hide Compacted, Parsed;
    SavedStays(states, ops, i, j);
    assert Next(states[j], ops[j], states[j + 1]);
  }

  lemma {:induction false} SavedStays(states: seq<Store>, ops: seq<Op>, i: nat, j: nat)
    requires IsRun(states, ops) && i < j < |states| && (ops[i].Save? || ops[i].Reset?)
    requires forall k :: i < k < j ==> !ops[k].Save? && !ops[k].Reset?
    ensures states[j].saved == if ops[i].Save? then states[i].last else None
  {
    hide Compacted, Parsed;
    assert Next(states[j - 1], ops[j - 1], states[j]);
    if j > i + 1 { SavedStays(states, ops, i, j - 1); }
  }
}
