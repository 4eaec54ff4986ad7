/** Runs of saves in which any save may die after any byte. */
module CrashRuns {
  import opened Basics
  import opened Lines
  import opened Messages
  import opened Codec
  import opened Writer
  import ForwardReader

  /** One save: completed, dead before the file was touched, or dead after the
      truncation and `written` bytes of the append. */
  datatype Save =
    | Completed(batch: seq<Message>)
    | Untouched(batch: seq<Message>)
    | Torn(batch: seq<Message>, written: nat)

  function Apply(c: Codec, b: Bytes, save: Save): Bytes {
    match save
    case Completed(batch) => Saved(c, b, batch)
    case Untouched(_) => b
    case Torn(batch, written) => TornSave(c, b, batch, written)
  }

  function Run(c: Codec, b: Bytes, saves: seq<Save>): Bytes {
    if saves == [] then b
    else Apply(c, Run(c, b, saves[..|saves| - 1]), saves[|saves| - 1])
  }

  // ----- what survives -----

  /** How many messages of each batch are in the journal: all of a completed one. */
  ghost predicate Survivors(saves: seq<Save>, kept: seq<nat>) {
    && |kept| == |saves|
    && forall i :: 0 <= i < |saves| ==>
         kept[i] <= |saves[i].batch| && (saves[i].Completed? ==> kept[i] == |saves[i].batch|)
  }

  /** The kept prefixes of the batches, in order. */
  function Kept(saves: seq<Save>, kept: seq<nat>): seq<Message>
    requires |kept| == |saves|
  {
    if saves == [] then []
    else
      var last := |saves| - 1;
      Kept(saves[..last], kept[..last]) + saves[last].batch[..Min(kept[last], |saves[last].batch|)]
  }

  lemma KeptSnoc(saves: seq<Save>, kept: seq<nat>, save: Save, k: nat)
    requires |kept| == |saves| && k <= |save.batch|
    ensures Kept(saves + [save], kept + [k]) == Kept(saves, kept) + save.batch[..k]
  {
    assert (saves + [save])[..|saves|] == saves && (kept + [k])[..|saves|] == kept;
  }

  /** The fragment behind the last newline: nothing, or the start, perhaps the
      whole, of the message that would come next. */
  ghost predicate Fragment(c: Codec, saves: seq<Save>, ms: seq<Message>, frag: Bytes) {
    frag == [] ||
    exists m: Message, more: seq<nat>, j: nat ::
      && Survivors(saves, more) && Kept(saves, more) == ms + [m]
      && 0 < j <= |c.enc(m)| && frag == c.enc(m)[..j]
  }

  ghost predicate Journal(c: Codec, saves: seq<Save>, b: Bytes, kept: seq<nat>, frag: Bytes) {
    && Survivors(saves, kept)
    && b == EncAll(c, Kept(saves, kept)) + frag
    && Fragment(c, saves, Kept(saves, kept), frag)
  }

  lemma KeptIdle(saves: seq<Save>, kept: seq<nat>, save: Save)
    requires Survivors(saves, kept) && !save.Completed?
    ensures Survivors(saves + [save], kept + [0]) && Kept(saves + [save], kept + [0]) == Kept(saves, kept)
  {
    KeptSnoc(saves, kept, save, 0);
    assert Kept(saves, kept) + save.batch[..0] == Kept(saves, kept);
  }

  /** A save that writes nothing new changes nothing. */
  lemma JournalIdle(c: Codec, saves: seq<Save>, b: Bytes, kept: seq<nat>, frag: Bytes, save: Save)
    requires Journal(c, saves, b, kept, frag) && !save.Completed?
    ensures Journal(c, saves + [save], b, kept + [0], frag)
  {
    hide Kept;
    KeptIdle(saves, kept, save);
    if frag != [] {
      var m: Message, more: seq<nat>, j: nat :|
        && Survivors(saves, more) && Kept(saves, more) == Kept(saves, kept) + [m]
        && 0 < j <= |c.enc(m)| && frag == c.enc(m)[..j];
      KeptIdle(saves, more, save);
    }
  }

  /** The journal the next append builds on: the survivors, perhaps one more
      message recovered from the fragment, every line terminated. */
  lemma Recovered(c: Codec, saves: seq<Save>, b: Bytes, kept: seq<nat>, frag: Bytes)
    returns (base: seq<nat>)
    requires Lawful(c) && Journal(c, saves, b, kept, frag)
    ensures Survivors(saves, base)
    ensures var point := CleanEndOf(c, b);
            && b[..point.offset] + point.prefix == EncAll(c, Kept(saves, base))
            && (point.prefix == [] || (point.prefix == [NL] && point.offset == |b|))
  {
    var ms := Kept(saves, kept);
    var lines := EncAll(c, ms);
    EncAllWholeLines(c, ms);
    base := kept;
    if frag == [] {
      assert b == lines;
      CleanEndOfWholeLines(c, b);
      assert b[..|b|] + [] == b;
    } else {
      var m: Message, more: seq<nat>, j: nat :|
        && Survivors(saves, more) && Kept(saves, more) == ms + [m]
        && 0 < j <= |c.enc(m)| && frag == c.enc(m)[..j];
      PrefixHasNoNewline(c.enc(m), j);
      CleanEndOfTorn(c, lines, frag);
      if lines == [] {
        assert b[..0] + [] == lines;
      } else if Classify(c, frag).Keep? {
        CompleteFragment(c, m, j);
        base := more;
        EncAllSnoc(c, ms, m);
        assert b[..|b|] + [NL] == lines + c.enc(m) + [NL];
      } else {
        assert b[..|lines|] + [] == lines;
      }
    }
  }

  lemma PrefixHasNoNewline(line: Bytes, j: nat)
    requires NoNewline(line) && j <= |line|
    ensures NoNewline(line[..j])
  {
  }

  lemma CompleteFragment(c: Codec, m: Message, j: nat)
    requires Lawful(c) && 0 < j <= |c.enc(m)| && Classify(c, c.enc(m)[..j]).Keep?
    ensures j == |c.enc(m)| && c.enc(m)[..j] == c.enc(m)
  {
  }

  /** Some bytes of a batch: whole lines, then part of the next message. */
  lemma {:induction false} TakeOfBatch(c: Codec, batch: seq<Message>, k: nat) returns (n: nat, j: nat)
    requires k <= |EncAll(c, batch)|
    ensures n <= |batch| && (j > 0 ==> n < |batch| && j <= |c.enc(batch[n])|)
    ensures EncAll(c, batch)[..k]
         == EncAll(c, batch[..n]) + if j > 0 then c.enc(batch[n])[..j] else []
  {
    if k == 0 {
      n, j := 0, 0;
      assert EncAll(c, batch)[..0] == [] && batch[..0] == [];
    } else {
      var line, rest := c.enc(batch[0]) + [NL], EncAll(c, batch[1..]);
      TakeAppend(line, rest, k);
      if k < |line| {
        n, j := 0, k;
        assert batch[..0] == [] && line[..k] == c.enc(batch[0])[..k];
        assert [] + c.enc(batch[0])[..k] == c.enc(batch[0])[..k];
      } else {
        n, j := TakeOfBatch(c, batch[1..], k - |line|);
        var tail := if j > 0 then c.enc(batch[1..][n])[..j] else [];
        assert batch[..n + 1] == [batch[0]] + batch[1..][..n];
        EncAllAppend(c, [batch[0]], batch[1..][..n]);
        EncAllOne(c, batch[0]);
        Assoc(line, EncAll(c, batch[1..][..n]), tail);
        n := n + 1;
      }
    }
  }

  /** A torn append behind whole lines. */
  lemma JournalTorn(c: Codec, saves: seq<Save>, base: seq<nat>, save: Save, k: nat)
    returns (kept: seq<nat>, frag: Bytes)
    requires Survivors(saves, base) && !save.Completed? && k <= |EncAll(c, save.batch)|
    ensures Journal(c, saves + [save], EncAll(c, Kept(saves, base)) + EncAll(c, save.batch)[..k], kept, frag)
  {
    var n, j := TakeOfBatch(c, save.batch, k);
    kept := base + [n];
    frag := if j > 0 then c.enc(save.batch[n])[..j] else [];
    KeptSnoc(saves, base, save, n);
    EncAllAppend(c, Kept(saves, base), save.batch[..n]);
    Assoc(EncAll(c, Kept(saves, base)), EncAll(c, save.batch[..n]), frag);
    if j > 0 {
      KeptSnoc(saves, base, save, n + 1);
      assert save.batch[..n + 1] == save.batch[..n] + [save.batch[n]];
      Assoc(Kept(saves, base), save.batch[..n], [save.batch[n]]);
      assert Survivors(saves + [save], base + [n + 1]);
    }
  }

  lemma JournalCompleted(c: Codec, saves: seq<Save>, base: seq<nat>, save: Save)
    requires Survivors(saves, base) && save.Completed?
    ensures Journal(c, saves + [save], EncAll(c, Kept(saves, base)) + EncAll(c, save.batch), base + [|save.batch|], [])
  {
    KeptSnoc(saves, base, save, |save.batch|);
    assert save.batch[..|save.batch|] == save.batch;
    EncAllAppend(c, Kept(saves, base), save.batch);
    assert EncAll(c, Kept(saves, base) + save.batch) + [] == EncAll(c, Kept(saves, base) + save.batch);
  }

  lemma JournalStep(c: Codec, saves: seq<Save>, b: Bytes, kept: seq<nat>, frag: Bytes, save: Save)
    returns (kept': seq<nat>, frag': Bytes)
    requires Lawful(c) && Journal(c, saves, b, kept, frag)
    ensures Journal(c, saves + [save], Apply(c, b, save), kept', frag')
    ensures save.Completed? ==> frag' == []
  {
    hide Journal, Survivors, Fragment, CleanEndOf, EncAll, Lawful;
    var base := Recovered(c, saves, b, kept, frag);
    var point := CleanEndOf(c, b);
    var before, lines := EncAll(c, Kept(saves, base)), EncAll(c, save.batch);
    match save
    case Completed(batch) =>
      kept', frag' := base + [|batch|], [];
      JournalCompleted(c, saves, base, save);
    case Untouched(_) =>
      kept', frag' := kept + [0], frag;
      JournalIdle(c, saves, b, kept, frag, save);
    case Torn(batch, written) =>
      var k := Min(written, |point.prefix + lines|);
      if k < |point.prefix| {
        assert (point.prefix + lines)[..k] == [];
        assert Apply(c, b, save) == b;
        kept', frag' := kept + [0], frag;
        JournalIdle(c, saves, b, kept, frag, save);
      } else {
        TakeAppend(point.prefix, lines, k);
        Assoc(b[..point.offset], point.prefix, lines[..k - |point.prefix|]);
        assert point.prefix + lines[..k - |point.prefix|] == (point.prefix + lines)[..k];
        kept', frag' := JournalTorn(c, saves, base, save, k - |point.prefix|);
      }
  }

  lemma {:induction false} RunJournal(c: Codec, saves: seq<Save>) returns (kept: seq<nat>, frag: Bytes)
    requires Lawful(c)
    ensures Journal(c, saves, Run(c, [], saves), kept, frag)
    ensures saves != [] && saves[|saves| - 1].Completed? ==> frag == []
  {
    if saves == [] {
      kept, frag := [], [];
    } else {
      var before, save := saves[..|saves| - 1], saves[|saves| - 1];
      kept, frag := RunJournal(c, before);
      kept, frag := JournalStep(c, before, Run(c, [], before), kept, frag, save);
      assert before + [save] == saves;
    }
  }

  /** In every run of saves, each of which may die after any byte, once a later
      save completes the journal is whole lines that are exactly, in order, a
      prefix of every batch and the whole of every completed one; and the
      reader gets back exactly their valid messages. */
  lemma CrashRecovery(c: Codec, saves: seq<Save>)
    requires Lawful(c) && saves != [] && saves[|saves| - 1].Completed?
    ensures exists kept: seq<nat> ::
              && Survivors(saves, kept)
              && Run(c, [], saves) == EncAll(c, Kept(saves, kept))
              && ForwardReader.MessagesOf(ForwardReader.Forward(c, Run(c, [], saves), 0))
                 == Filter(Kept(saves, kept), IsValid)
    ensures WholeLines(Run(c, [], saves))
  {
    var kept, frag := RunJournal(c, saves);
    var ms := Kept(saves, kept);
    assert Run(c, [], saves) == EncAll(c, ms) + [] == EncAll(c, ms);
    EncAllWholeLines(c, ms);
    assert [] + EncAll(c, ms) == EncAll(c, ms);
    ForwardReader.ForwardReadsWritten(c, [], ms);
    ForwardReader.EntriesMessages(c, ms, 0);
  }

  /** A run of completed saves writes exactly its batches. */
  lemma {:induction false} CompletedRun(c: Codec, b: Bytes, batches: seq<seq<Message>>)
    requires WholeLines(b)
    ensures Run(c, b, seq(|batches|, i requires 0 <= i < |batches| => Completed(batches[i])))
         == b + EncAll(c, Concat(batches))
  {
    var saves := seq(|batches|, i requires 0 <= i < |batches| => Completed(batches[i]));
    if batches == [] {
      assert b + [] == b;
    } else {
      var n := |batches| - 1;
      var before, last := batches[..n], batches[n];
      CompletedRun(c, b, before);
      assert saves[..n] == seq(n, i requires 0 <= i < n => Completed(before[i]));
      ConcatAppend(before, [last]);
      assert before + [last] == batches;
      assert [last][1..] == [] && Concat([last]) == last + [] == last;
      SaveBehindLines(c, b, Concat(before), last);
    }
  }

  /** Nothing terminated is ever lost, moved or rewritten, whatever dies. */
  lemma {:induction false} RunKeepsTerminatedLines(c: Codec, b: Bytes, saves: seq<Save>)
    ensures TerminatedPart(b) <= TerminatedPart(Run(c, b, saves))
  {
    hide Apply, TerminatedPart;
    if saves == [] {
    } else {
      var before, save := saves[..|saves| - 1], saves[|saves| - 1];
      var mid := Run(c, b, before);
      RunKeepsTerminatedLines(c, b, before);
      ApplyKeepsTerminatedLines(c, mid, save);
    }
  }

  lemma ApplyKeepsTerminatedLines(c: Codec, b: Bytes, save: Save)
    ensures TerminatedPart(b) <= TerminatedPart(Apply(c, b, save))
  {
    hide Saved, TornSave, LineStart;
    SavesKeepTerminatedLines(c, b, save.batch, if save.Torn? then save.written else 0);
    TerminatedIsWhole(b);
    PrefixStaysTerminated(TerminatedPart(b), Apply(c, b, save));
  }

  lemma TerminatedIsWhole(b: Bytes)
    ensures WholeLines(TerminatedPart(b))
  {
  }
}
