/** The line codec: what the journal needs of JSON serialisation, and nothing more. */
module Codec {
  import opened Basics
  import opened Lines
  import opened Messages

  /** `to_string` and `from_slice`. */
  datatype Codec = Codec(enc: Message -> Bytes, dec: Bytes -> Option<Message>)

  /** `is_ascii_whitespace` for every byte. */
  predicate IsBlank(line: Bytes) {
    forall k :: 0 <= k < |line| ==> line[k] in {9, 10, 12, 13, 32}
  }

  /** Blank, tab, line feed, form feed, carriage return, and no vertical tab. */
  lemma IsBlankIff(line: Bytes)
    ensures IsBlank(line) <==> forall k :: 0 <= k < |line| ==> line[k] as int as char in " \t\n\U{000C}\r"
  {
    var blanks := " \t\n\U{000C}\r";
    assert blanks[0] == 32 as char && blanks[1] == 9 as char && blanks[2] == 10 as char;
    assert blanks[3] == 12 as char && blanks[4] == 13 as char;
  }

  /** Nothing but whitespace is no message. */
  ghost predicate RejectsBlank(c: Codec) {
    forall line: Bytes :: IsBlank(line) ==> c.dec(line) == None
  }

  /** A message is one non-empty line, reads back as itself, and no part of it
      cut off at the end reads as a message. */
  ghost predicate Lawful(c: Codec) {
    && RejectsBlank(c)
    && (forall m: Message :: c.enc(m) != [] && NoNewline(c.enc(m)))
    && (forall m: Message :: c.dec(c.enc(m)) == Some(m))
    && (forall m: Message, k: nat :: k < |c.enc(m)| ==> c.dec(c.enc(m)[..k]) == None)
  }

  /** No end of a message's line reads as a message: cut from the front, a JSON
      object is none. Asked for only where a reader may start inside a line. */
  ghost predicate SuffixFree(c: Codec) {
    forall m: Message, k: nat :: 0 < k < |c.enc(m)| ==> c.dec(c.enc(m)[k..]) == None
  }

  /** What one line means to the readers. */
  datatype Line = Empty | Blank | Keep(message: Message) | Refused | Corrupt

  function Classify(c: Codec, line: Bytes): Line {
    if line == [] then Empty
    else match c.dec(line)
      case Some(m) => if IsValid(m) then Keep(m) else Refused
      case None => if IsBlank(line) then Blank else Corrupt
  }

  /** One journal line per message: what `append_journal` writes. */
  function EncAll(c: Codec, ms: seq<Message>): Bytes {
    if ms == [] then [] else c.enc(ms[0]) + [NL] + EncAll(c, ms[1..])
  }

  lemma {:induction false} EncAllAppend(c: Codec, xs: seq<Message>, ys: seq<Message>)
    ensures EncAll(c, xs + ys) == EncAll(c, xs) + EncAll(c, ys)
  {
    if xs == [] {
      assert xs + ys == ys;
    } else {
      EncAllAppend(c, xs[1..], ys);
      assert (xs + ys)[1..] == xs[1..] + ys;
      Assoc(c.enc(xs[0]) + [NL], EncAll(c, xs[1..]), EncAll(c, ys));
    }
  }

  lemma EncAllOne(c: Codec, m: Message)
    ensures EncAll(c, [m]) == c.enc(m) + [NL]
  {
    assert [m][1..] == [];
    assert EncAll(c, [m]) == c.enc(m) + [NL] + EncAll(c, []);
  }

  lemma EncAllWholeLines(c: Codec, ms: seq<Message>)
    ensures WholeLines(EncAll(c, ms))
  {
  }
}
