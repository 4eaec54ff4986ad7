/** Chat row ids across restarts: a counter in memory, seeded from the newest
    log file, and rows written out of order and possibly torn. */
module ChatSeq {
  import opened Basics
  import opened Lines
  import RecordFiles

  datatype Row = Row(id: nat, text: Bytes)

  /** A row's log line, and the id a line carries. */
  datatype RowCodec = RowCodec(enc: Row -> Bytes, dec: Bytes -> Option<nat>)

  /** A non-empty part of a row from its start, the whole row included. */
  ghost predicate IsFragment(c: RowCodec, f: Bytes) {
    f != [] && exists row: Row :: f <= c.enc(row)
  }

  /** A row is one line that gives back its id; cut off it gives none, and
      neither do several rows or parts of rows run together. */
  ghost predicate Lawful(c: RowCodec) {
    && c.dec([]) == None
    && (forall row: Row :: c.enc(row) != [] && NoNewline(c.enc(row)) && c.dec(c.enc(row)) == Some(row.id))
    && (forall row: Row, k: nat :: k < |c.enc(row)| ==> c.dec(c.enc(row)[..k]) == None)
    && (forall fs: seq<Bytes> :: |fs| >= 2 && (forall k :: 0 <= k < |fs| ==> IsFragment(c, fs[k]))
          ==> c.dec(Concat(fs)) == None)
  }

  /** The highest id among `lines`, 0 when none has one. */
  function MaxId(c: RowCodec, lines: seq<Bytes>): (m: nat)
    ensures forall k :: 0 <= k < |lines| && c.dec(lines[k]).Some? ==> c.dec(lines[k]).value <= m
    ensures m == 0 || exists k :: 0 <= k < |lines| && c.dec(lines[k]) == Some(m)
  {
    if lines == [] then 0
    else
      var n := |lines| - 1;
      var before := MaxId(c, lines[..n]);
      assert forall k :: 0 <= k < n ==> lines[..n][k] == lines[k];
      match c.dec(lines[n])
      case None => before
      case Some(id) => Max(before, id)
  }

  function MaxOnDisk(c: RowCodec, file: Bytes): nat {
    MaxId(c, Split(file))
  }

  /** The counter per topic of one process. */
  class Counters {
    var last: map<Bytes, nat>

    constructor ()
      ensures last == map[]
    {
      last := map[];
    }

    /** `next`: seeded from the topic's newest log file on first use. */
    method Next(c: RowCodec, topic: Bytes, file: Bytes) returns (id: nat)
      modifies this
      ensures id == NextId(c, if topic in old(last) then Some(old(last)[topic]) else None, file)
      ensures last == old(last)[topic := id]
    {
      if topic !in last {
        last := last[topic := MaxOnDisk(c, file)];
      }
      id := last[topic] + 1;
      last := last[topic := id];
    }
  }

  function NextId(c: RowCodec, counter: Option<nat>, file: Bytes): nat {
    1 + match counter
        case Some(n) => n
        case None => MaxOnDisk(c, file)
  }

  // ----- runs over one topic and one log file -----

  /** `pending` are the ids handed out by this process and not written yet. */
  datatype State = State(counter: Option<nat>, pending: set<nat>, file: Bytes)

  /** `Write(row, kept)`: a pending row goes to the log, in any order; only the
      first `kept` bytes of its line get there. */
  datatype Op = Allocate | Write(row: Row, kept: nat) | Restart

  function LineOf(c: RowCodec, row: Row): Bytes {
    c.enc(row) + [NL]
  }

  function Apply(c: RowCodec, s: State, op: Op): State {
    match op
    case Allocate =>
      var id := NextId(c, s.counter, s.file);
      State(Some(id), s.pending + {id}, s.file)
    case Write(row, kept) =>
      if row.id in s.pending && kept <= |LineOf(c, row)| then
        State(s.counter, s.pending - {row.id}, s.file + LineOf(c, row)[..kept])
      else s
    case Restart => State(None, {}, s.file)
  }

  function Exec(c: RowCodec, ops: seq<Op>): State {
    if ops == [] then State(None, {}, [])
    else Apply(c, Exec(c, ops[..|ops| - 1]), ops[|ops| - 1])
  }

  ghost predicate OnDisk(c: RowCodec, lines: seq<Bytes>, id: nat) {
    exists k :: 0 <= k < |lines| && c.dec(lines[k]) == Some(id)
  }

  ghost predicate DistinctIds(c: RowCodec, lines: seq<Bytes>) {
    forall i, j :: 0 <= i < j < |lines| && c.dec(lines[i]).Some? ==> c.dec(lines[i]) != c.dec(lines[j])
  }

  /** The open last line is parts of rows run together. */
  ghost predicate FragmentTail(c: RowCodec, tail: Bytes) {
    exists fs: seq<Bytes> :: (forall k :: 0 <= k < |fs| ==> IsFragment(c, fs[k])) && Concat(fs) == tail
  }

  ghost predicate LinesInv(c: RowCodec, lines: seq<Bytes>) {
    |lines| > 0 && DistinctIds(c, lines) && FragmentTail(c, lines[|lines| - 1])
  }

  ghost predicate Inv(c: RowCodec, s: State) {
    var lines := Split(s.file);
    && LinesInv(c, lines)
    && (s.counter.None? ==> s.pending == {})
    && (forall id: nat :: id in s.pending ==> !OnDisk(c, lines, id))
    && (s.counter.Some? ==> (forall id: nat :: id in s.pending || OnDisk(c, lines, id) ==> id <= s.counter.value))
  }

  lemma MaxCoversDisk(c: RowCodec, lines: seq<Bytes>, id: nat)
    requires OnDisk(c, lines, id)
    ensures id <= MaxId(c, lines)
  {
  }

  lemma InvAllocate(c: RowCodec, s: State)
    requires Inv(c, s)
    ensures Inv(c, Apply(c, s, Allocate))
    ensures forall id: nat :: id in s.pending || OnDisk(c, Split(s.file), id) ==> id < NextId(c, s.counter, s.file)
  {
    hide LinesInv, Split, OnDisk, MaxId;
    forall id: nat | OnDisk(c, Split(s.file), id) ensures id <= MaxId(c, Split(s.file)) {
      MaxCoversDisk(c, Split(s.file), id);
    }
  }

  // ----- one write -----

  lemma ConcatOne(f: Bytes)
    ensures Concat([f]) == f
  {
    assert [f][1..] == [];
    assert Concat([f]) == f + Concat([]);
  }

  /** Another part run onto the open line: the line is parts of rows again, and
      has an id only when it is this row, whole and alone. */
  lemma TailGrows(c: RowCodec, tail: Bytes, row: Row, f: Bytes)
    requires Lawful(c) && FragmentTail(c, tail) && f <= c.enc(row)
    ensures FragmentTail(c, tail + f)
    ensures f != [] ==> c.dec(tail + f) == if tail == [] && f == c.enc(row) then Some(row.id) else None
  {
    hide Concat;
    var fs: seq<Bytes> :| (forall k :: 0 <= k < |fs| ==> IsFragment(c, fs[k])) && Concat(fs) == tail;
    if f == [] {
      assert tail + f == tail;
    } else {
      assert IsFragment(c, f);
      ConcatAppend(fs, [f]);
      ConcatOne(f);
      assert Concat(fs + [f]) == tail + f;
      if fs == [] {
        assert tail == [] by { ConcatNone(); }
        assert tail + f == f && f == c.enc(row)[..|f|];
      } else {
        FirstIsNonEmpty(c, fs);
      }
    }
  }

  lemma ConcatNone()
    ensures Concat<byte>([]) == []
  {
  }

  lemma FirstIsNonEmpty(c: RowCodec, fs: seq<Bytes>)
    requires fs != [] && IsFragment(c, fs[0])
    ensures Concat(fs) != []
  {
  }

  /** The lines after a write: only the last one changes, and a new one opens
      when the newline got there. */
  lemma WrittenLines(c: RowCodec, file: Bytes, row: Row, kept: nat)
    requires Lawful(c) && kept <= |LineOf(c, row)|
    ensures var lines, e := Split(file), c.enc(row);
            var n := |lines| - 1;
            Split(file + LineOf(c, row)[..kept])
            == if kept <= |e| then lines[..n] + [lines[n] + e[..kept]] else lines[..n] + [lines[n] + e] + [[]]
  {
    hide Split;
    var e := c.enc(row);
    assert NoNewline(e);
    if kept <= |e| {
      assert LineOf(c, row)[..kept] == e[..kept];
      assert NoNewline(e[..kept]);
      RecordFiles.SplitExtended(file, e[..kept]);
    } else {
      assert LineOf(c, row)[..kept] == e + [NL];
      assert file + (e + [NL]) == file + e + [NL];
      RecordFiles.SplitExtended(file, e);
      RecordFiles.SplitTerminated(file + e);
    }
  }

  /** A last line that keeps its id, loses it or becomes `id`. */
  lemma LastLineChanges(c: RowCodec, lines: seq<Bytes>, last: Bytes, id: nat)
    requires |lines| > 0 && DistinctIds(c, lines) && !OnDisk(c, lines, id)
    requires last == lines[|lines| - 1] || c.dec(last) == None || c.dec(last) == Some(id)
    ensures var lines' := lines[..|lines| - 1] + [last];
            && DistinctIds(c, lines')
            && forall x: nat :: OnDisk(c, lines', x) ==> x == id || OnDisk(c, lines, x)
  {
    var lines' := lines[..|lines| - 1] + [last];
    forall x | OnDisk(c, lines', x) ensures x == id || OnDisk(c, lines, x) {
      var k :| 0 <= k < |lines'| && c.dec(lines'[k]) == Some(x);
      if k < |lines| - 1 { assert c.dec(lines[k]) == Some(x); }
    }
    forall i, j | 0 <= i < j < |lines'| && c.dec(lines'[i]).Some? ensures c.dec(lines'[i]) != c.dec(lines'[j]) {
      assert lines'[i] == lines[i];
    }
  }

  lemma NewLineOpens(c: RowCodec, lines: seq<Bytes>)
    requires Lawful(c) && |lines| > 0 && DistinctIds(c, lines)
    ensures LinesInv(c, lines + [[]])
    ensures forall x: nat :: OnDisk(c, lines + [[]], x) <==> OnDisk(c, lines, x)
  {
    forall x: nat ensures OnDisk(c, lines + [[]], x) <==> OnDisk(c, lines, x) {
      if OnDisk(c, lines, x) {
        var k :| 0 <= k < |lines| && c.dec(lines[k]) == Some(x);
        assert (lines + [[]])[k] == lines[k];
      }
    }
    var none: seq<Bytes> := [];
    assert Concat(none) == [];
    assert FragmentTail(c, []);
  }

  lemma WriteStep(c: RowCodec, file: Bytes, row: Row, kept: nat)
    requires Lawful(c) && kept <= |LineOf(c, row)|
    requires LinesInv(c, Split(file)) && !OnDisk(c, Split(file), row.id)
    ensures var lines' := Split(file + LineOf(c, row)[..kept]);
            && LinesInv(c, lines')
            && forall x: nat :: OnDisk(c, lines', x) ==> x == row.id || OnDisk(c, Split(file), x)
  {
    hide Split, Lawful, DistinctIds, FragmentTail, OnDisk;
    var lines, e := Split(file), c.enc(row);
    var n := |lines| - 1;
    var f := if kept <= |e| then e[..kept] else e;
    WrittenLines(c, file, row, kept);
    TailGrows(c, lines[n], row, f);
    assert f == [] ==> lines[n] + f == lines[n];
    LastLineChanges(c, lines, lines[n] + f, row.id);
    if kept > |e| { NewLineOpens(c, lines[..n] + [lines[n] + f]); }
  }

  lemma InvApply(c: RowCodec, s: State, op: Op)
    requires Lawful(c) && Inv(c, s)
    ensures Inv(c, Apply(c, s, op))
  {
    hide Lawful, LinesInv, Split, OnDisk, LineOf, MaxId;
    match op
    case Allocate => InvAllocate(c, s);
    case Write(row, kept) =>
      if row.id in s.pending && kept <= |LineOf(c, row)| { WriteStep(c, s.file, row, kept); }
    case Restart =>
  }

  lemma {:induction false} Reachable(c: RowCodec, ops: seq<Op>)
    requires Lawful(c)
    ensures Inv(c, Exec(c, ops))
  {
    hide Lawful, Apply, LinesInv;
    if ops == [] {
      InvStart(c);
    } else {
      Reachable(c, ops[..|ops| - 1]);
      InvApply(c, Exec(c, ops[..|ops| - 1]), ops[|ops| - 1]);
    }
  }

  lemma InvStart(c: RowCodec)
    requires Lawful(c)
    ensures Inv(c, State(None, {}, []))
  {
    RecordFiles.SplitEmpty();
    var none: seq<Bytes> := [];
    assert Concat(none) == [];
    assert FragmentTail(c, []);
  }

  /** In every run, torn writes and restarts included: no two readable rows
      share an id, and the next id handed out is above every id on disk and
      every id this process still has to write. */
  lemma IdsStayDistinct(c: RowCodec, ops: seq<Op>)
    requires Lawful(c)
    ensures var s := Exec(c, ops);
            && DistinctIds(c, Split(s.file))
            && (forall id: nat :: OnDisk(c, Split(s.file), id) || id in s.pending ==> id < NextId(c, s.counter, s.file))
  {
    Reachable(c, ops);
    InvAllocate(c, Exec(c, ops));
  }

  // ----- when a readable row stays readable -----

  /** A write takes the id of a readable row off the disk exactly when it is run
      onto that row: the row's own newline never got there. */
  lemma WriteKeepsRowsIff(c: RowCodec, file: Bytes, row: Row, kept: nat)
    requires Lawful(c) && kept <= |LineOf(c, row)|
    requires LinesInv(c, Split(file)) && !OnDisk(c, Split(file), row.id)
    ensures (forall id: nat :: OnDisk(c, Split(file), id) ==> OnDisk(c, Split(file + LineOf(c, row)[..kept]), id))
            <==> kept == 0 || c.dec(Split(file)[|Split(file)| - 1]) == None
  {
    hide Split, Lawful, FragmentTail;
    var lines, e := Split(file), c.enc(row);
    var n := |lines| - 1;
    var f := if kept <= |e| then e[..kept] else e;
    WrittenLines(c, file, row, kept);
    var lines' := Split(file + LineOf(c, row)[..kept]);
    assert lines'[..n] == lines[..n] && lines'[n] == lines[n] + f;
    TailGrows(c, lines[n], row, f);
    if kept == 0 {
      assert lines[n] + f == lines[n];
      assert lines' == lines;
    } else if c.dec(lines[n]).None? {
      forall id: nat | OnDisk(c, lines, id) ensures OnDisk(c, lines', id) {
        var k :| 0 <= k < |lines| && c.dec(lines[k]) == Some(id);
        assert lines'[k] == lines[k];
      }
    } else {
      RowIsLost(c, file, row, kept);
    }
  }

  lemma RowIsLost(c: RowCodec, file: Bytes, row: Row, kept: nat)
    requires Lawful(c) && 0 < kept <= |LineOf(c, row)| && LinesInv(c, Split(file))
    requires c.dec(Split(file)[|Split(file)| - 1]).Some?
    ensures var id := c.dec(Split(file)[|Split(file)| - 1]).value;
            OnDisk(c, Split(file), id) && !OnDisk(c, Split(file + LineOf(c, row)[..kept]), id)
  {
    hide Split, FragmentTail;
    var lines, e := Split(file), c.enc(row);
    var n := |lines| - 1;
    var f := if kept <= |e| then e[..kept] else e;
    var id := c.dec(lines[n]).value;
    WrittenLines(c, file, row, kept);
    TailGrows(c, lines[n], row, f);
    assert lines[n] != [];
    var lines' := Split(file + LineOf(c, row)[..kept]);
    forall k | 0 <= k < |lines'| ensures c.dec(lines'[k]) != Some(id) {
      if k < n {
        assert lines'[k] == lines[k];
      } else if k == n {
        assert lines'[k] == lines[n] + f;
      } else {
        assert lines'[k] == [];
      }
    }
  }

  lemma ExecNext(c: RowCodec, before: seq<Op>, op: Op)
    ensures Exec(c, before + [op]) == Apply(c, Exec(c, before), op)
  {
    assert (before + [op])[..|before|] == before;
  }

  /** Over whole runs the id of a readable row can come back: a row whose newline
      was lost is readable, the next row is run onto it, both become unreadable,
      and the next process starts at the same id again. */
  lemma ReadableIdCanComeBack(c: RowCodec)
    requires Lawful(c)
    ensures exists before: seq<Op>, after: seq<Op> ::
              var s, s' := Exec(c, before), Exec(c, before + after);
              OnDisk(c, Split(s.file), 1) && NextId(c, s'.counter, s'.file) == 1
  {
    hide Lawful, Split, LineOf, MaxId, NextId;
    var first, second := Row(1, []), Row(2, []);
    var before := [] + [Allocate] + [Write(first, |c.enc(first)|)];
    var more := [Restart, Allocate, Write(second, |LineOf(c, second)|), Restart];
    TornNewline(c, first);
    RunOntoIt(c, before, first, second);
    assert before + more == before + [Restart] + [Allocate] + [Write(second, |LineOf(c, second)|)] + [Restart];
  }

  lemma TornNewline(c: RowCodec, first: Row)
    requires Lawful(c) && first.id == 1
    ensures var s := Exec(c, [] + [Allocate] + [Write(first, |c.enc(first)|)]);
            s.file == c.enc(first) && OnDisk(c, Split(s.file), 1) && MaxOnDisk(c, s.file) == 1
  {
    hide Split, MaxId, Exec;
    ExecNone(c);
    ExecNext(c, [], Allocate);
    ExecNext(c, [] + [Allocate], Write(first, |c.enc(first)|));
    assert MaxOnDisk(c, []) == 0 by { RecordFiles.SplitEmpty(); MaxOfNone(c); }
    assert LineOf(c, first)[..|c.enc(first)|] == c.enc(first);
    assert [] + c.enc(first) == c.enc(first);
    SplitAlone(c.enc(first));
    assert [c.enc(first)][0] == c.enc(first);
    MaxOfOne(c, c.enc(first));
  }

  lemma ExecNone(c: RowCodec)
    ensures Exec(c, []) == State(None, {}, [])
  {
  }

  lemma MaxOfNone(c: RowCodec)
    requires Lawful(c)
    ensures MaxId(c, [[]]) == 0
  {
  }

  lemma MaxOfOne(c: RowCodec, line: Bytes)
    requires c.dec(line) == Some(1)
    ensures MaxId(c, [line]) == 1
  {
    assert [line][0] == line;
  }

  lemma RunOntoIt(c: RowCodec, before: seq<Op>, first: Row, second: Row)
    requires Lawful(c) && second.id == 2
    requires Exec(c, before).file == c.enc(first) && MaxOnDisk(c, c.enc(first)) == 1
    ensures var s := Exec(c, before + [Restart] + [Allocate] + [Write(second, |LineOf(c, second)|)] + [Restart]);
            NextId(c, s.counter, s.file) == 1
  {
    hide Split, MaxId, Exec;
    var write := Write(second, |LineOf(c, second)|);
    ExecNext(c, before, Restart);
    ExecNext(c, before + [Restart], Allocate);
    ExecNext(c, before + [Restart] + [Allocate], write);
    ExecNext(c, before + [Restart] + [Allocate] + [write], Restart);
    assert LineOf(c, second)[..|LineOf(c, second)|] == LineOf(c, second);
    TwoOnOneLine(c, first, second);
  }

  lemma TwoOnOneLine(c: RowCodec, first: Row, second: Row)
    requires Lawful(c)
    ensures MaxOnDisk(c, c.enc(first) + LineOf(c, second)) == 0
  {
    hide Split, MaxId, Concat;
    var fs := [c.enc(first), c.enc(second)];
    assert Concat(fs) == c.enc(first) + c.enc(second) by {
      assert fs == [c.enc(first)] + [c.enc(second)];
      ConcatAppend([c.enc(first)], [c.enc(second)]);
      ConcatOne(c.enc(first));
      ConcatOne(c.enc(second));
    }
    assert IsFragment(c, fs[0]) && IsFragment(c, fs[1]);
    var line := c.enc(first) + c.enc(second);
    assert c.dec(line) == None;
    assert c.enc(first) + LineOf(c, second) == line + [NL];
    SplitAlone(line);
    RecordFiles.SplitTerminated(line);
    assert c.dec([line, []][0]).None? && c.dec([line, []][1]).None?;
  }
}
