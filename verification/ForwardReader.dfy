/** The reader's forward side: `read_from` returns every readable line behind a
    position together with the offset the line starts at. */
module ForwardReader {
  import opened Basics
  import opened Lines
  import opened Messages
  import opened ToolCallRepair
  import opened Codec
  import opened BackwardScan

  datatype Entry = Entry(message: Message, offset: nat)

  function MessagesOf(es: seq<Entry>): (ms: seq<Message>)
    ensures |ms| == |es| && forall k :: 0 <= k < |es| ==> ms[k] == es[k].message
  {
    if es == [] then [] else [es[0].message] + MessagesOf(es[1..])
  }

  function OffsetsOf(es: seq<Entry>): (offs: seq<nat>)
    ensures |offs| == |es| && forall k :: 0 <= k < |es| ==> offs[k] == es[k].offset
  {
    if es == [] then [] else [es[0].offset] + OffsetsOf(es[1..])
  }

  function LineEntry(c: Codec, line: Bytes, o: nat): seq<Entry> {
    match Classify(c, line)
    case Keep(m) => [Entry(m, o)]
    case _ => []
  }

  /** The readable terminated lines from `o` on. Unreadable lines are skipped,
      and so is a fragment without a newline. */
  function Forward(c: Codec, b: Bytes, o: nat): seq<Entry>
    decreases |b| - o
  {
    if o >= |b| then []
    else
      var i := NextNewline(b, o);
      if i == |b| then [] else LineEntry(c, b[o..i], o) + Forward(c, b, i + 1)
  }

  lemma ForwardStep(c: Codec, b: Bytes, o: nat, i: nat)
    requires o <= i < |b| && NextNewline(b, o) == i
    ensures Forward(c, b, o) == LineEntry(c, b[o..i], o) + Forward(c, b, i + 1)
  {
  }

  lemma ForwardEnds(c: Codec, b: Bytes, o: nat)
    requires o <= |b| && NextNewline(b, o) == |b|
    ensures Forward(c, b, o) == []
  {
  }

  // ----- the loop -----

  /** One newline found: the carry and the block's piece make the line. */
  method TakeLine(c: Codec, full: Bytes, start: nat, messages: seq<Message>, offsets: seq<nat>, ghost es: seq<Entry>)
    returns (newMessages: seq<Message>, newOffsets: seq<nat>, ghost newEs: seq<Entry>)
    requires RejectsBlank(c) && messages == MessagesOf(es) && offsets == OffsetsOf(es)
    ensures newEs == es + LineEntry(c, full, start)
    ensures newMessages == MessagesOf(newEs) && newOffsets == OffsetsOf(newEs)
  {
    assert IsBlank([]);
    newMessages, newOffsets := messages, offsets;
    newEs := es + LineEntry(c, full, start);
    match c.dec(full) {
      case Some(m) =>
        if IsValid(m) {
          newOffsets := newOffsets + [start];
          newMessages := newMessages + [m];
        }
      case None =>
    }
  }

  /** The lines that end inside one block. */
  method ReadForwardBlock(c: Codec, file: Bytes, pos: nat, end: nat, carry0: Bytes, carryStart0: nat,
                          messages0: seq<Message>, offsets0: seq<nat>, ghost es0: seq<Entry>)
    returns (carry: Bytes, carryStart: nat, messages: seq<Message>, offsets: seq<nat>, ghost es: seq<Entry>)
    requires RejectsBlank(c) && carryStart0 <= pos <= end <= |file| && carry0 == file[carryStart0..pos]
    requires NoNewline(carry0) && messages0 == MessagesOf(es0) && offsets0 == OffsetsOf(es0)
    ensures carryStart0 <= carryStart <= end && carry == file[carryStart..end] && NoNewline(carry)
    ensures messages == MessagesOf(es) && offsets == OffsetsOf(es)
    ensures es + Forward(c, file, carryStart) == es0 + Forward(c, file, carryStart0)
  {
    hide Forward, LineEntry, MessagesOf, OffsetsOf;
    var bytes := file[pos..end];
    carry, carryStart, messages, offsets, es := carry0, carryStart0, messages0, offsets0, es0;
    var at := 0;
    var i := NextNewline(bytes, at);
    while i < |bytes|
      invariant 0 <= at <= |bytes| && i == NextNewline(bytes, at)
      invariant carryStart0 <= carryStart <= pos + at && carry == file[carryStart..pos + at] && NoNewline(carry)
      invariant messages == MessagesOf(es) && offsets == OffsetsOf(es)
      invariant es + Forward(c, file, carryStart) == es0 + Forward(c, file, carryStart0)
      decreases |bytes| - at
    {
      var full := carry + bytes[at..i];
      LineAcross(file, carryStart, pos, at, i, end);
      ForwardStep(c, file, carryStart, pos + i);
      Assoc(es, LineEntry(c, full, carryStart), Forward(c, file, pos + i + 1));
      messages, offsets, es := TakeLine(c, full, carryStart, messages, offsets, es);
      carry, carryStart, at := [], pos + i + 1, i + 1;
      i := NextNewline(bytes, at);
    }
    CarryGrows(file, carryStart, pos, at, end);
    carry := carry + bytes[at..];
  }

  lemma LineAcross(file: Bytes, start: nat, pos: nat, at: nat, i: nat, end: nat)
    requires start <= pos + at && pos <= end <= |file| && at <= i < end - pos
    requires i == NextNewline(file[pos..end], at) && NoNewline(file[start..pos + at])
    ensures file[start..pos + at] + file[pos..end][at..i] == file[start..pos + i]
    ensures NextNewline(file, start) == pos + i
  {
    WindowOfWindow(file, pos, end, at, i);
    GlueWindows(file, start, pos + at, pos + i);
    NewlineFreeAcross(file, start, pos, at, i, end);
    assert file[pos..end][i] == file[pos + i];
    NextNewlineIs(file, start, pos + i);
  }

  lemma NewlineFreeAcross(file: Bytes, start: nat, pos: nat, at: nat, i: nat, end: nat)
    requires start <= pos + at && pos <= end <= |file| && at <= i <= end - pos
    requires NoNewline(file[start..pos + at])
    requires forall k :: at <= k < i ==> file[pos..end][k] != NL
    ensures forall k :: start <= k < pos + i ==> file[k] != NL
  {
    forall k | start <= k < pos + i ensures file[k] != NL {
      if k < pos + at {
        assert file[k] == file[start..pos + at][k - start];
      } else {
        assert file[k] == file[pos..end][k - pos];
      }
    }
  }

  lemma CarryGrows(file: Bytes, start: nat, pos: nat, at: nat, end: nat)
    requires start <= pos + at && pos <= end <= |file| && at <= end - pos
    requires NextNewline(file[pos..end], at) == end - pos && NoNewline(file[start..pos + at])
    ensures file[start..pos + at] + file[pos..end][at..] == file[start..end]
    ensures NoNewline(file[start..end])
  {
    WindowOfWindow(file, pos, end, at, end - pos);
    GlueWindows(file, start, pos + at, end);
    assert file[pos..end][at..] == file[pos..end][at..end - pos];
    NewlineFreeAcross(file, start, pos, at, end - pos, end);
  }

  /** `read_from` before the repair. */
  method ReadLinesFrom(c: Codec, file: Bytes, size: nat, offset: nat)
    returns (messages: seq<Message>, offsets: seq<nat>)
    requires RejectsBlank(c) && size > 0 && offset <= |file|
    ensures messages == MessagesOf(Forward(c, file, offset))
    ensures offsets == OffsetsOf(Forward(c, file, offset))
  {
    hide Forward;
    messages, offsets := [], [];
    var pos, carry, carryStart := offset, [], offset;
    ghost var es: seq<Entry> := [];
    while pos < |file|
      invariant offset <= carryStart <= pos <= |file| && carry == file[carryStart..pos] && NoNewline(carry)
      invariant messages == MessagesOf(es) && offsets == OffsetsOf(es)
      invariant es + Forward(c, file, carryStart) == Forward(c, file, offset)
      decreases |file| - pos
    {
      var end := Min(pos + size, |file|);
      carry, carryStart, messages, offsets, es :=
        ReadForwardBlock(c, file, pos, end, carry, carryStart, messages, offsets, es);
      pos := end;
    }
    assert forall k :: carryStart <= k < |file| ==> file[k] == carry[k - carryStart];
    NextNewlineIs(file, carryStart, |file|);
    ForwardEnds(c, file, carryStart);
  }

  /** The repaired slice and its offsets, realigned through the origin map. */
  function RepairedMessages(es: seq<Entry>): seq<Message> {
    Repair(MessagesOf(es))
  }

  function RepairedOffsets(es: seq<Entry>): seq<nat> {
    Select(OffsetsOf(es), KeepFlags(MessagesOf(es), false))
  }

  /** `read_from`. */
  method ReadFrom(c: Codec, file: Bytes, size: nat, offset: nat)
    returns (messages: seq<Message>, offsets: seq<nat>, reachedHead: bool)
    requires RejectsBlank(c) && size > 0
    ensures messages == RepairedMessages(Forward(c, file, offset))
    ensures offsets == RepairedOffsets(Forward(c, file, offset))
    ensures reachedHead <==> offset == 0
  {
    reachedHead := offset == 0;
    if offset >= |file| {
      return [], [], offset == 0;
    }
    hide Forward;
    var raw, rawOffsets := ReadLinesFrom(c, file, size, offset);
    var origin;
    messages, origin := RepairDanglingToolCalls(raw);
    OriginOffsets(rawOffsets, KeepFlags(raw, false));
    offsets := seq(|origin|, k requires 0 <= k < |origin| => rawOffsets[origin[k]]);
  }

  lemma OriginOffsets(xs: seq<nat>, keep: seq<bool>)
    requires |xs| == |keep|
    ensures var origin := Select<nat>(Indices(|xs|), keep);
            && |origin| == |Select(xs, keep)|
            && forall k :: 0 <= k < |origin| ==> origin[k] < |xs| && Select(xs, keep)[k] == xs[origin[k]]
  {
    OriginRealigns(xs, keep, |xs|);
    assert xs[..|xs|] == xs && keep[..|xs|] == keep && Indices(|xs|)[..|xs|] == Indices(|xs|);
  }

  // ----- exactness -----

  /** Every entry is a terminated line of the file that reads as its message,
      paired with the position that line starts at, in increasing order. */
  lemma {:induction false} ForwardIsExact(c: Codec, b: Bytes, o: nat, k: nat)
    requires AtLineStart(b, o) && k < |Forward(c, b, o)|
    ensures var e := Forward(c, b, o)[k];
            && o <= e.offset < |b| && AtLineStart(b, e.offset)
            && NextNewline(b, e.offset) < |b|
            && Classify(c, b[e.offset..NextNewline(b, e.offset)]) == Keep(e.message)
            && (k > 0 ==> Forward(c, b, o)[k - 1].offset < e.offset)
    decreases |b| - o
  {
    hide Classify, Forward, LineEntry;
    ForwardIsSomething(c, b, o);
    var i := NextNewline(b, o);
    var here, rest := LineEntry(c, b[o..i], o), Forward(c, b, i + 1);
    ForwardStep(c, b, o, i);
    LineEntryAt(c, b[o..i], o);
    ResumeStep(here, rest, k);
    if k >= |here| {
      ForwardIsExact(c, b, i + 1, k - |here|);
    } else {
      assert here[k] in here;
    }
  }

  /** No readable line is missed. */
  lemma {:induction false} ForwardIsComplete(c: Codec, b: Bytes, o: nat, s: nat, m: Message)
    requires AtLineStart(b, o) && AtLineStart(b, s) && o <= s < |b|
    requires NextNewline(b, s) < |b| && Classify(c, b[s..NextNewline(b, s)]) == Keep(m)
    ensures Entry(m, s) in Forward(c, b, o)
    decreases |b| - o
  {
    hide Classify;
    if o < s {
      ForwardIsComplete(c, b, NextNewline(b, o) + 1, s, m);
    }
  }

  /** Reading from an entry's offset resumes exactly at that entry. */
  lemma {:induction false} ForwardResumes(c: Codec, b: Bytes, o: nat, k: nat)
    requires o <= |b| && k < |Forward(c, b, o)|
    ensures Forward(c, b, Forward(c, b, o)[k].offset) == Forward(c, b, o)[k..]
    decreases |b| - o
  {
    hide Forward, LineEntry, NextNewline;
    ForwardIsSomething(c, b, o);
    var i := NextNewline(b, o);
    var here, rest := LineEntry(c, b[o..i], o), Forward(c, b, i + 1);
    ForwardStep(c, b, o, i);
    LineEntryAt(c, b[o..i], o);
    ResumeStep(here, rest, k);
    if k >= |here| {
      ForwardResumes(c, b, i + 1, k - |here|);
    } else {
      assert Forward(c, b, o)[0..] == Forward(c, b, o);
    }
  }

  lemma ForwardIsSomething(c: Codec, b: Bytes, o: nat)
    requires o <= |b| && Forward(c, b, o) != []
    ensures NextNewline(b, o) < |b|
  {
  }

  lemma LineEntryAt(c: Codec, line: Bytes, o: nat)
    ensures |LineEntry(c, line, o)| <= 1
    ensures forall e :: e in LineEntry(c, line, o) ==> e.offset == o && Classify(c, line) == Keep(e.message)
  {
  }

  lemma ResumeStep(here: seq<Entry>, rest: seq<Entry>, k: nat)
    requires k < |here| + |rest|
    ensures k >= |here| ==> (here + rest)[k] == rest[k - |here|] && (here + rest)[k..] == rest[k - |here|..]
    ensures k < |here| ==> (here + rest)[k] == here[k]
  {
  }

  // ----- agreement with the backward scan -----

  /** No terminated line from `o` on is corrupt. */
  predicate Uncorrupted(c: Codec, b: Bytes, o: nat)
    requires o <= |b|
    decreases |b| - o
  {
    var i := NextNewline(b, o);
    i == |b| || (Classify(c, b[o..i]) != Corrupt && Uncorrupted(c, b, i + 1))
  }

  /** The two readers meet: on a journal without a corrupt line the backward
      scan gives the forward reader's messages, and a complete torn tail on top. */
  lemma {:induction false} ReadersAgree(c: Codec, b: Bytes, o: nat)
    requires AtLineStart(b, o)
    ensures Trusted(c, b, o).stopped <==> !Uncorrupted(c, b, o)
    ensures Uncorrupted(c, b, o)
        ==> Trusted(c, b, o).messages == MessagesOf(Forward(c, b, o)) + TornMessages(c, TornTail(b))
    decreases |b| - o
  {
    hide Classify, TornMessages, Forward, Trusted, LineEntry, TornTail, NextNewline, MessagesOf, Uncorrupted;
    var i := NextNewline(b, o);
    if i == |b| {
      AgreeAtEnd(c, b, o);
    } else {
      ReadersAgree(c, b, i + 1);
      ForwardStep(c, b, o, i);
      TrustedStep(c, b, o, i);
      var here, rest := LineEntry(c, b[o..i], o), Forward(c, b, i + 1);
      LineEntryMessages(c, b[o..i], o);
      MessagesOfAppend(here, rest);
      AgreeStep(Classify(c, b[o..i]), Trusted(c, b, i + 1), MessagesOf(here), MessagesOf(rest),
                TornMessages(c, TornTail(b)), Uncorrupted(c, b, i + 1));
    }
  }

  lemma AgreeAtEnd(c: Codec, b: Bytes, o: nat)
    requires AtLineStart(b, o) && NextNewline(b, o) == |b|
    ensures Uncorrupted(c, b, o) && Trusted(c, b, o) == Scan(TornMessages(c, TornTail(b)), false)
    ensures MessagesOf(Forward(c, b, o)) + TornMessages(c, TornTail(b)) == TornMessages(c, TornTail(b))
  {
    hide Classify, TornMessages;
    LineStartIs(b, o, |b|);
    ForwardEnds(c, b, o);
  }

  lemma LineEntryMessages(c: Codec, line: Bytes, o: nat)
    ensures MessagesOf(LineEntry(c, line, o))
         == if Classify(c, line).Keep? then [Classify(c, line).message] else []
  {
  }

  lemma TrustedStep(c: Codec, b: Bytes, o: nat, i: nat)
    requires o <= i < |b| && NextNewline(b, o) == i
    ensures Trusted(c, b, o) == Push(Classify(c, b[o..i]), false, Trusted(c, b, i + 1))
    ensures Uncorrupted(c, b, o) <==> Classify(c, b[o..i]) != Corrupt && Uncorrupted(c, b, i + 1)
  {
  }

  lemma AgreeStep(line: Line, newer: Scan, here: seq<Message>, rest: seq<Message>, torn: seq<Message>, sound: bool)
    requires newer.stopped <==> !sound
    requires sound ==> newer.messages == rest + torn
    requires here == if line.Keep? then [line.message] else []
    ensures var scan := Push(line, false, newer);
            && (scan.stopped <==> !(line != Corrupt && sound))
            && (line != Corrupt && sound ==> scan.messages == here + rest + torn)
  {
    Assoc(here, rest, torn);
  }

  lemma MessagesOfAppend(xs: seq<Entry>, ys: seq<Entry>)
    ensures MessagesOf(xs + ys) == MessagesOf(xs) + MessagesOf(ys)
    ensures OffsetsOf(xs + ys) == OffsetsOf(xs) + OffsetsOf(ys)
  {
    hide MessagesOf, OffsetsOf;
  }

  // ----- appending -----

  /** Appending behind whole lines adds entries and changes none. */
  lemma {:induction false} ForwardAppend(c: Codec, b: Bytes, more: Bytes, o: nat)
    requires WholeLines(b) && o <= |b|
    ensures Forward(c, b + more, o) == Forward(c, b, o) + Forward(c, b + more, |b|)
    decreases |b| - o
  {
    hide Classify, LineEntry;
    if o < |b| {
      var i := NextNewline(b, o);
      NextNewlineIs(b + more, o, i);
      ForwardStep(c, b, o, i);
      ForwardStep(c, b + more, o, i);
      assert (b + more)[o..i] == b[o..i];
      hide Forward;
      ForwardAppend(c, b, more, i + 1);
      Assoc(LineEntry(c, b[o..i], o), Forward(c, b, i + 1), Forward(c, b + more, |b|));
    }
  }

  /** The entries of messages written one line each from `base` on. */
  function Entries(c: Codec, ms: seq<Message>, base: nat): seq<Entry> {
    if ms == [] then []
    else (if IsValid(ms[0]) then [Entry(ms[0], base)] else []) + Entries(c, ms[1..], base + |c.enc(ms[0])| + 1)
  }

  /** What was written is what is read: the valid messages, each at its own line. */
  lemma {:induction false} ForwardReadsWritten(c: Codec, pre: Bytes, ms: seq<Message>)
    requires Lawful(c)
    ensures Forward(c, pre + EncAll(c, ms), |pre|) == Entries(c, ms, |pre|)
    decreases |ms|
  {
    hide Forward, Lawful, IsValid;
    if ms == [] {
      ForwardPastEnd(c, pre + []);
    } else {
      var next, rest := pre + (c.enc(ms[0]) + [NL]), EncAll(c, ms[1..]);
      ForwardReadsWritten(c, next, ms[1..]);
      Assoc(pre, c.enc(ms[0]) + [NL], rest);
      ForwardReadsOneWritten(c, pre, ms[0], rest);
    }
  }

  lemma ForwardPastEnd(c: Codec, b: Bytes)
    ensures Forward(c, b, |b|) == []
  {
  }

  lemma ForwardReadsOneWritten(c: Codec, pre: Bytes, m: Message, rest: Bytes)
    requires Lawful(c)
    ensures var next := pre + (c.enc(m) + [NL]);
            Forward(c, next + rest, |pre|)
            == (if IsValid(m) then [Entry(m, |pre|)] else []) + Forward(c, next + rest, |next|)
  {
    hide Forward, Lawful, IsValid, NextNewline, Classify;
    var line := c.enc(m);
    var next := pre + (line + [NL]);
    WrittenIsKept(c, m);
    WrittenNewline(pre, line, rest);
    ForwardOverLine(c, next + rest, |pre|, line);
    WrittenLine(pre, line, rest);
  }

  lemma WrittenIsKept(c: Codec, m: Message)
    requires Lawful(c)
    ensures NoNewline(c.enc(m)) && Classify(c, c.enc(m)) == if IsValid(m) then Keep(m) else Refused
  {
  }

  lemma ForwardOverLine(c: Codec, b: Bytes, o: nat, line: Bytes)
    requires o + |line| < |b| && NextNewline(b, o) == o + |line|
    ensures b[o..o + |line|] == line ==> Forward(c, b, o) == LineEntry(c, line, o) + Forward(c, b, o + |line| + 1)
  {
    hide LineEntry;
  }

  lemma {:induction false} EntriesMessages(c: Codec, ms: seq<Message>, base: nat)
    ensures MessagesOf(Entries(c, ms, base)) == Filter(ms, IsValid)
  {
    hide IsValid;
    if ms == [] {
    } else {
      EntriesMessages(c, ms[1..], base + |c.enc(ms[0])| + 1);
    }
  }

  /** Every entry is one of the messages, at the offset its predecessors fill. */
  lemma {:induction false} EntryIsWritten(c: Codec, ms: seq<Message>, base: nat, k: nat) returns (j: nat)
    requires k < |Entries(c, ms, base)|
    ensures j < |ms| && Entries(c, ms, base)[k] == Entry(ms[j], base + |EncAll(c, ms[..j])|)
  {
    hide IsValid;
    var here := if IsValid(ms[0]) then [Entry(ms[0], base)] else [];
    if k < |here| {
      j := 0;
      assert ms[..0] == [];
    } else {
      j := EntryIsWritten(c, ms[1..], base + |c.enc(ms[0])| + 1, k - |here|);
      assert ms[..j + 1][1..] == ms[1..][..j] && ms[..j + 1][0] == ms[0];
      j := j + 1;
    }
  }

  // ----- the repair, entry by entry -----

  function KeptFrom(es: seq<Entry>, dropping: bool): seq<Entry> {
    if es == [] then []
    else
      var d := Drops(MessagesOf(es), dropping);
      (if d then [] else [es[0]]) + KeptFrom(es[1..], d)
  }

  /** The entries whose messages survive the repair. */
  function KeptEntries(es: seq<Entry>): seq<Entry> {
    KeptFrom(es, false)
  }

  lemma {:induction false} KeptFromProjects(es: seq<Entry>, dropping: bool)
    ensures MessagesOf(KeptFrom(es, dropping)) == RepairFrom(MessagesOf(es), dropping)
    ensures OffsetsOf(KeptFrom(es, dropping)) == Select(OffsetsOf(es), KeepFlags(MessagesOf(es), dropping))
  {
    hide Dangling, OpensTurn;
    if es == [] {
    } else {
      var d := Drops(MessagesOf(es), dropping);
      KeptFromProjects(es[1..], d);
      MessagesOfAppend(if d then [] else [es[0]], KeptFrom(es[1..], d));
      assert MessagesOf(es)[1..] == MessagesOf(es[1..]) && OffsetsOf(es)[1..] == OffsetsOf(es[1..]);
    }
  }

  /** The slice `read_from` returns is the kept entries, taken apart. */
  lemma RepairedIsKept(es: seq<Entry>)
    ensures RepairedMessages(es) == MessagesOf(KeptEntries(es))
    ensures RepairedOffsets(es) == OffsetsOf(KeptEntries(es))
  {
    KeptFromProjects(es, false);
  }

  /** From a kept opener on, the repair of the whole is the repair of the rest. */
  lemma {:induction false} KeptFromOpener(es: seq<Entry>, dropping: bool, i: nat) returns (p: nat)
    requires i < |KeptFrom(es, dropping)| && OpensTurn(KeptFrom(es, dropping)[i].message)
    ensures p < |es| && es[p] == KeptFrom(es, dropping)[i]
    ensures KeptFrom(es, dropping)[i..] == KeptEntries(es[p..])
  {
    hide Dangling, OpensTurn, Drops, MessagesOf;
    var d := Drops(MessagesOf(es), dropping);
    var here, rest := if d then [] else [es[0]], KeptFrom(es[1..], d);
    assert KeptFrom(es, dropping) == here + rest;
    hide KeptFrom;
    ResumeStep(here, rest, i);
    if i < |here| {
      p := 0;
      assert es[0..] == es && (here + rest)[0..] == here + rest;
      OpenerForgetsFlag(es, dropping);
    } else {
      p := KeptFromOpener(es[1..], d, i - |here|);
      assert es[1..][p..] == es[p + 1..];
      p := p + 1;
    }
  }

  lemma OpenerForgetsFlag(es: seq<Entry>, dropping: bool)
    requires es != [] && OpensTurn(es[0].message)
    ensures KeptFrom(es, dropping) == KeptEntries(es)
  {
    hide Dangling, OpensTurn;
    assert MessagesOf(es)[0] == es[0].message;
  }

  /** Moving the anchor to a kept opener is stable: reading from its offset
      gives exactly the window that was kept, on any journal. */
  lemma AnchorMoveIsStable(c: Codec, b: Bytes, o: nat, i: nat)
    requires o <= |b| && i < |KeptEntries(Forward(c, b, o))|
    requires OpensTurn(KeptEntries(Forward(c, b, o))[i].message)
    ensures KeptEntries(Forward(c, b, KeptEntries(Forward(c, b, o))[i].offset)) == KeptEntries(Forward(c, b, o))[i..]
  {
    hide KeptFrom, Forward, OpensTurn;
    var es := Forward(c, b, o);
    var p := KeptFromOpener(es, false, i);
    ForwardResumes(c, b, o, p);
  }
}
