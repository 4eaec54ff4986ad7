/** Reading the journal backwards, block by block (`parse_block`,
    `scan_backwards`, `read_prior`), and what the blocks add up to. */
module BackwardScan {
  import opened Basics
  import opened Lines
  import opened Messages
  import opened Codec

  /** Messages collected so far, and whether an untrusted line ended the scan. */
  datatype Scan = Scan(messages: seq<Message>, stopped: bool)

  /** Put one older line in front. `hard` says a blank line counts as corrupt. */
  function Push(line: Line, hard: bool, newer: Scan): Scan {
    if newer.stopped then newer
    else match line
      case Empty => newer
      case Refused => newer
      case Keep(m) => Scan([m] + newer.messages, false)
      case Blank => Scan(newer.messages, hard)
      case Corrupt => Scan(newer.messages, true)
  }

  function Ahead(scan: Scan, newer: seq<Message>): Scan {
    Scan(scan.messages + newer, scan.stopped)
  }

  lemma PushExtend(line: Line, hard: bool, scan: Scan, newer: seq<Message>)
    ensures Push(line, hard, Ahead(scan, newer)) == Ahead(Push(line, hard, scan), newer)
  {
    if line.Keep? {
      Assoc([line.message], scan.messages, newer);
    }
  }

  // ----- whole-file meaning -----

  /** The torn tail: kept when it is a complete message, otherwise nothing. */
  function TornMessages(c: Codec, t: Bytes): seq<Message> {
    match Classify(c, t)
    case Keep(m) => [m]
    case _ => []
  }

  /** The lines from line start `o` on, read the way the journal means them:
      newer lines stay, everything behind a corrupt line is dropped, blank
      lines and an incomplete torn tail are nothing. */
  function Trusted(c: Codec, b: Bytes, o: nat): Scan
    requires o <= |b|
    decreases |b| - o
  {
    var i := NextNewline(b, o);
    if i == |b| then Scan(TornMessages(c, b[o..]), false)
    else Push(Classify(c, b[o..i]), false, Trusted(c, b, i + 1))
  }

  /** Blocks are cut from the end of the file: the edges are `n`, `n - size`,
      `n - 2 * size` and so on. */
  predicate IsEdge(n: int, q: int, size: nat)
    requires size > 0
    decreases n - q
  {
    n == q || (n > q && IsEdge(n - size, q, size))
  }

  /** The last edge at or before `x`. */
  function EdgeBefore(n: int, x: int, size: nat): int
    requires size > 0
    decreases n - x
  {
    if n <= x then n else EdgeBefore(n - size, x, size)
  }

  /** The line `[s..e]`, newline at `e`, is the last of a block: an edge falls
      behind one of its bytes. */
  predicate EndsBlock(s: nat, e: nat, n: nat, size: nat)
    requires size > 0
  {
    s < EdgeBefore(n, e + 1, size)
  }

  /** What the torn tail does to the scan: an incomplete one longer than a
      block reaches an older block as a carry and is taken for a corrupt line. */
  function TornScan(c: Codec, t: Bytes, size: nat): Scan {
    Scan(TornMessages(c, t), |t| > size && c.dec(t) == None)
  }

  /** The lines from line start `o` on as the block scan reads them: like
      `Trusted`, but a blank line that ends a block stops the scan, and so does
      an oversized torn tail. */
  function BlockwiseTail(c: Codec, b: Bytes, o: nat, size: nat): Scan
    requires o <= |b| && size > 0
    decreases |b| - o
  {
    var i := NextNewline(b, o);
    if i == |b| then TornScan(c, b[o..], size)
    else Push(Classify(c, b[o..i]), EndsBlock(o, i, |b|, size), BlockwiseTail(c, b, i + 1, size))
  }

  // ----- one block -----

  datatype Block = Block(messages: seq<Message>, carry: Option<Bytes>, stop: bool)

  /** Fold complete lines, newest last, in front of `newer`. */
  function FoldLines(c: Codec, pieces: seq<Bytes>, newer: Scan): Scan {
    if pieces == [] then newer
    else Push(Classify(c, pieces[0]), false, FoldLines(c, pieces[1..], newer))
  }

  function StartsMidLine(prev: Option<byte>): bool {
    prev.Some? && prev.value != NL
  }

  /** The block's first fragment, the tail of a line whose head is further back. */
  function FirstFragment(prev: Option<byte>, bytes: Bytes): Bytes {
    if StartsMidLine(prev) then bytes[..NextNewline(bytes, 0)] else []
  }

  /** The rest of the block, which starts at a line boundary. */
  function RestOfBlock(prev: Option<byte>, bytes: Bytes): Bytes {
    if !StartsMidLine(prev) then bytes
    else
      var i := NextNewline(bytes, 0);
      if i < |bytes| then bytes[i + 1..] else []
  }

  predicate EndsWithNewline(bytes: Bytes) {
    bytes != [] && bytes[|bytes| - 1] == NL
  }

  function CarryBytes(carry: Option<Bytes>): Bytes {
    match carry case Some(tail) => tail case None => []
  }

  /** The line that spans the newer boundary. */
  function SpanningLine(c: Codec, head: Bytes, carry: Option<Bytes>, terminated: bool): Scan {
    if carry.Some? || terminated then Push(Classify(c, head + CarryBytes(carry)), true, Scan([], false))
    else Scan(TornMessages(c, head), false)
  }

  /** `body` without its last newline: the complete lines, then the head of
      the line that spans the newer boundary. */
  function ParseBody(c: Codec, body: Bytes, carry: Option<Bytes>, terminated: bool): Scan {
    var headStart := LineStart(body, |body|);
    FoldLines(c, Split(body[..headStart]), SpanningLine(c, body[headStart..], carry, terminated))
  }

  /** The lines of a block from its first line boundary on. */
  function ParseLines(c: Codec, rest: Bytes, carry: Option<Bytes>, terminated: bool): Scan {
    ParseBody(c, if EndsWithNewline(rest) then rest[..|rest| - 1] else rest, carry, terminated)
  }

  /** `parse_block` as a value. */
  function ParseBlockValue(c: Codec, prev: Option<byte>, bytes: Bytes, carry: Option<Bytes>): Block {
    var rest := RestOfBlock(prev, bytes);
    var first := FirstFragment(prev, bytes);
    if rest == [] then Block([], Some(first + CarryBytes(carry)), false)
    else
      var scan := ParseLines(c, rest, carry, EndsWithNewline(bytes));
      Block(scan.messages, if StartsMidLine(prev) then Some(first) else None, scan.stopped)
  }

  lemma {:induction false} FoldLinesStopped(c: Codec, pieces: seq<Bytes>, newer: Scan)
    requires newer.stopped
    ensures FoldLines(c, pieces, newer) == newer
  {
    if pieces == [] {
    } else {
      FoldLinesStopped(c, pieces[1..], newer);
    }
  }

  lemma {:induction false} FoldLinesSnoc(c: Codec, pieces: seq<Bytes>, line: Bytes, newer: Scan)
    ensures FoldLines(c, pieces + [line], newer) == FoldLines(c, pieces, Push(Classify(c, line), false, newer))
  {
    if pieces == [] {
      assert [line][1..] == [] && pieces + [line] == [line];
    } else {
      assert (pieces + [line])[1..] == pieces[1..] + [line];
      FoldLinesSnoc(c, pieces[1..], line, newer);
    }
  }

  lemma {:induction false} FoldLinesExtend(c: Codec, pieces: seq<Bytes>, scan: Scan, newer: seq<Message>)
    ensures FoldLines(c, pieces, Ahead(scan, newer)) == Ahead(FoldLines(c, pieces, scan), newer)
  {
    if pieces == [] {
    } else {
      FoldLinesExtend(c, pieces[1..], scan, newer);
      PushExtend(Classify(c, pieces[0]), false, FoldLines(c, pieces[1..], scan), newer);
    }
  }

  /** The message on the line that spans the newer boundary, and whether that
      line is corrupt. */
  method ReadSpanning(c: Codec, head: Bytes, carry: Option<Bytes>, terminated: bool)
    returns (joined: seq<Message>, stop: bool)
    requires RejectsBlank(c)
    ensures Scan(joined, stop) == SpanningLine(c, head, carry, terminated)
  {
    assert IsBlank([]);
    joined, stop := [], false;
    if carry.Some? || terminated {
      var line := head + CarryBytes(carry);
      if line != [] {
        match c.dec(line) {
          case Some(m) => if IsValid(m) { joined := [m]; }
          case None => stop := true;
        }
      }
    } else {
      match c.dec(head) {
        case Some(m) => if IsValid(m) { joined := [m]; }
        case None =>
      }
    }
  }

  /** The complete lines, newest first, until one is corrupt. */
  method ReadComplete(c: Codec, pieces: seq<Bytes>, joined: seq<Message>)
    returns (messages: seq<Message>, stop: bool)
    requires RejectsBlank(c)
    ensures Scan(messages, stop) == FoldLines(c, pieces, Scan(joined, false))
  {
    messages, stop := joined, false;
    var i := |pieces|;
    assert pieces[..i] == pieces;
    while i > 0 && !stop
      invariant 0 <= i <= |pieces|
      invariant FoldLines(c, pieces[..i], Scan(messages, stop)) == FoldLines(c, pieces, Scan(joined, false))
      decreases i
    {
      i := i - 1;
      var line := pieces[i];
      assert pieces[..i + 1] == pieces[..i] + [line];
      FoldLinesSnoc(c, pieces[..i], line, Scan(messages, false));
      if !IsBlank(line) {
        match c.dec(line) {
          case Some(m) => if IsValid(m) { messages := [m] + messages; }
          case None => stop := true;
        }
      }
    }
    if stop {
      FoldLinesStopped(c, pieces[..i], Scan(messages, true));
    }
  }

  /** `parse_block`: the spanning line first, then the complete lines. */
  method ParseBlock(c: Codec, prev: Option<byte>, bytes: Bytes, carry: Option<Bytes>) returns (block: Block)
    requires RejectsBlank(c)
    ensures block == ParseBlockValue(c, prev, bytes, carry)
  {
    var firstFragment, rest := FirstFragment(prev, bytes), RestOfBlock(prev, bytes);
    if rest == [] {
      return Block([], Some(firstFragment + CarryBytes(carry)), false);
    }
    var body := if EndsWithNewline(rest) then rest[..|rest| - 1] else rest;
    var headStart := LineStart(body, |body|);
    var complete, head := body[..headStart], body[headStart..];
    var nextCarry := if StartsMidLine(prev) then Some(firstFragment) else None;
    var messages, stop := ReadSpanning(c, head, carry, EndsWithNewline(bytes));
    if stop {
      FoldLinesStopped(c, Split(complete), Scan(messages, stop));
    } else {
      messages, stop := ReadComplete(c, Split(complete), messages);
    }
    block := Block(messages, nextCarry, stop);
  }
}
