/** Codecs that meet the laws the journal and the chat log ask for: the laws
    are consistent for every message, not only for some. */
module LawfulCodecs {
  import opened Basics
  import opened Lines
  import opened Messages
  import opened Encodings
  import Codec
  import ChatSeq

  /** The message a line was written from, if any. */
  ghost function DecMessage(line: Bytes): (r: Option<Message>)
    ensures r.Some? ==> EncMessage(r.value) == line
    ensures r.None? ==> forall m: Message :: EncMessage(m) != line
  {
    if exists m: Message :: EncMessage(m) == line then
      var m: Message :| EncMessage(m) == line;
      Some(m)
    else None
  }

  /** The journal's laws can be met by a codec for all messages. */
  lemma LawfulJournalCodec()
    ensures exists c: Codec.Codec :: Codec.Lawful(c) && Codec.SuffixFree(c)
  {
    hide EncMessage, DecMessage;
    var c := Codec.Codec(EncMessage, DecMessage);
    forall line: Bytes | Codec.IsBlank(line) ensures c.dec(line) == None {
      if c.dec(line).Some? { MessageShape(c.dec(line).value); }
    }
    forall m: Message ensures c.enc(m) != [] && NoNewline(c.enc(m)) {
      MessageShape(m);
    }
    forall m: Message ensures c.dec(c.enc(m)) == Some(m) {
      FieldsOf(m, DecMessage(EncMessage(m)).value, [], []);
    }
    forall m: Message, k: nat | k < |c.enc(m)| ensures c.dec(c.enc(m)[..k]) == None {
      var front, back := EncMessage(m)[..k], EncMessage(m)[k..];
      if DecMessage(front).Some? {
        assert EncMessage(m) + [] == front + back;
        FieldsOf(m, DecMessage(front).value, [], back);
      }
    }
    forall m: Message, k: nat | 0 < k < |c.enc(m)| ensures c.dec(c.enc(m)[k..]) == None {
      BackIsNoMessage(m, k);
    }
    assert Codec.Lawful(c) && Codec.SuffixFree(c);
  }

  /** Only the front of a line has the opening brace. */
  lemma BackIsNoMessage(m: Message, k: nat)
    requires 0 < k < |EncMessage(m)|
    ensures DecMessage(EncMessage(m)[k..]) == None
  {
    hide EncMessage, DecMessage;
    MessageShape(m);
    var back := EncMessage(m)[k..];
    assert back[0] == EncMessage(m)[1..][k - 1];
    if DecMessage(back).Some? { MessageShape(DecMessage(back).value); }
  }

  // ----- chat rows -----

  function EncRow(row: ChatSeq.Row): Bytes {
    [123] + (EncSeq(seq(row.id, _ => 49 as byte), EncByte) + EncBytes(row.text))
  }

  lemma {:induction false} BytesAreHigh(b: Bytes)
    ensures forall k :: 0 <= k < |EncBytes(b)| ==> EncBytes(b)[k] < 123 && EncBytes(b)[k] != NL
  {
    if b == [] {
    } else {
      BytesAreHigh(b[1..]);
      var rest := EncBytes(b[1..]);
      assert EncBytes(b) == MORE + EncByte(b[0]) + rest;
    }
  }

  lemma RowShape(row: ChatSeq.Row)
    ensures EncRow(row) != [] && EncRow(row)[0] == 123
    ensures forall k :: 0 < k < |EncRow(row)| ==> EncRow(row)[k] < 123 && EncRow(row)[k] != NL
  {
    var digits := seq(row.id, _ => 49 as byte);
    BytesAreHigh(digits);
    BytesAreHigh(row.text);
    hide EncBytes, EncSeq;
    assert EncSeq(digits, EncByte) == EncBytes(digits);
    var x, y := EncBytes(digits), EncBytes(row.text);
    assert EncRow(row) == [123] + (x + y);
  }

  lemma RowsOf(p: ChatSeq.Row, q: ChatSeq.Row, r: Bytes, s: Bytes)
    requires EncRow(p) + r == EncRow(q) + s
    ensures p == q && r == s
  {
    BytesIsCode();
    hide PrefixCode, EncSeq;
    var x, y := seq(p.id, _ => 49 as byte), seq(q.id, _ => 49 as byte);
    TaggedIs(123, 123, EncBytes(x) + EncBytes(p.text), EncBytes(y) + EncBytes(q.text), r, s);
    PairIsCode(EncBytes, EncBytes, x, p.text, y, q.text, r, s);
    assert |x| == p.id && |y| == q.id;
  }

  ghost function DecRow(line: Bytes): (r: Option<nat>)
    ensures r.Some? ==> exists row: ChatSeq.Row :: EncRow(row) == line && row.id == r.value
    ensures r.None? ==> forall row: ChatSeq.Row :: EncRow(row) != line
  {
    if exists row: ChatSeq.Row :: EncRow(row) == line then
      var row: ChatSeq.Row :| EncRow(row) == line;
      Some(row.id)
    else None
  }

  lemma FragmentsDoNotDecode(fs: seq<Bytes>, c: ChatSeq.RowCodec)
    requires c.enc == EncRow && c.dec == DecRow && |fs| >= 2
    requires forall k :: 0 <= k < |fs| ==> ChatSeq.IsFragment(c, fs[k])
    ensures c.dec(Concat(fs)) == None
  {
    hide EncRow, DecRow;
    var n := |fs[0]|;
    assert ChatSeq.IsFragment(c, fs[0]) && ChatSeq.IsFragment(c, fs[1]);
    var second: ChatSeq.Row :| fs[1] <= EncRow(second);
    RowShape(second);
    assert fs[1][0] == EncRow(second)[0];
    assert Concat(fs) == fs[0] + (fs[1] + Concat(fs[1..][1..]));
    assert Concat(fs)[n] == 123;
    forall row: ChatSeq.Row ensures EncRow(row) != Concat(fs) {
      RowShape(row);
    }
  }

  /** So can the chat log's. */
  lemma LawfulRowCodec()
    ensures exists c: ChatSeq.RowCodec :: ChatSeq.Lawful(c)
  {
    hide EncRow, DecRow, Concat;
    var c := ChatSeq.RowCodec(EncRow, DecRow);
    if DecRow([]).Some? {
      var row: ChatSeq.Row :| EncRow(row) == [];
      RowShape(row);
    }
    forall row: ChatSeq.Row ensures c.enc(row) != [] && NoNewline(c.enc(row)) && c.dec(c.enc(row)) == Some(row.id) {
      RowShape(row);
      var same: ChatSeq.Row :| EncRow(same) == EncRow(row) && same.id == DecRow(EncRow(row)).value;
      RowsOf(same, row, [], []);
    }
    forall row: ChatSeq.Row, k: nat | k < |c.enc(row)| ensures c.dec(c.enc(row)[..k]) == None {
      var front, back := EncRow(row)[..k], EncRow(row)[k..];
      if DecRow(front).Some? {
        var other: ChatSeq.Row :| EncRow(other) == front;
        assert EncRow(row) + [] == front + back;
        RowsOf(row, other, [], back);
      }
    }
    forall fs: seq<Bytes> | |fs| >= 2 && (forall k :: 0 <= k < |fs| ==> ChatSeq.IsFragment(c, fs[k]))
      ensures c.dec(Concat(fs)) == None
    {
      FragmentsDoNotDecode(fs, c);
    }
    assert ChatSeq.Lawful(c);
  }
}
