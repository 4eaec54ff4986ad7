/** Newline positions in a byte string, and splitting at them. */
module Lines {
  import opened Basics

  ghost predicate NoNewline(b: Bytes) {
    NL !in b
  }

  /** The first newline at or after `o`, or the length when there is none:
      `iter().position` on the rest. */
  function NextNewline(b: Bytes, o: nat): (i: nat)
    requires o <= |b|
    ensures o <= i <= |b|
    ensures forall k :: o <= k < i ==> b[k] != NL
    ensures i < |b| ==> b[i] == NL
    decreases |b| - o
  {
    if o == |b| || b[o] == NL then o else NextNewline(b, o + 1)
  }

  /** Where the line that reaches `e` starts: just behind the last newline
      before `e`, or at 0. `rposition` plus one. */
  function LineStart(b: Bytes, e: nat): (s: nat)
    requires e <= |b|
    ensures s <= e
    ensures forall k :: s <= k < e ==> b[k] != NL
    ensures s > 0 ==> b[s - 1] == NL
  {
    if e == 0 || b[e - 1] == NL then e else LineStart(b, e - 1)
  }

  lemma NextNewlineIs(b: Bytes, o: nat, i: nat)
    requires o <= i <= |b|
    requires forall k :: o <= k < i ==> b[k] != NL
    requires i < |b| ==> b[i] == NL
    ensures NextNewline(b, o) == i
  {
  }

  lemma LineStartIs(b: Bytes, s: nat, e: nat)
    requires s <= e <= |b|
    requires forall k :: s <= k < e ==> b[k] != NL
    requires s == 0 || b[s - 1] == NL
    ensures LineStart(b, e) == s
  {
  }

  lemma WindowOfWindow(b: Bytes, p: nat, q: nat, x: nat, y: nat)
    requires p <= q <= |b| && x <= y <= q - p
    ensures b[p..q][x..y] == b[p + x..p + y]
  {
    var left, right := b[p..q][x..y], b[p + x..p + y];
    assert |left| == |right|;
    assert forall k :: 0 <= k < |left| ==> left[k] == right[k];
  }

  lemma MiddleWindow(pre: Bytes, x: Bytes, rest: Bytes, s: nat, e: nat)
    requires s <= e <= |x|
    ensures (pre + x + rest)[|pre| + s..|pre| + e] == x[s..e]
  {
  }

  lemma MiddleByte(pre: Bytes, x: Bytes, rest: Bytes, s: nat)
    requires s < |x|
    ensures (pre + x + rest)[|pre| + s] == x[s]
  {
  }

  /** A line written behind `pre` is found where it was written. */
  lemma WrittenLine(pre: Bytes, line: Bytes, rest: Bytes)
    ensures (pre + (line + [NL]) + rest)[|pre|..|pre| + |line|] == line
  {
    MiddleWindow(pre, line + [NL], rest, 0, |line|);
  }

  lemma WrittenNewline(pre: Bytes, line: Bytes, rest: Bytes)
    requires NoNewline(line)
    ensures NextNewline(pre + (line + [NL]) + rest, |pre|) == |pre| + |line|
  {
    hide NextNewline;
    var x := line + [NL];
    var b := pre + x + rest;
    MiddleByte(pre, x, rest, |line|);
    forall k | |pre| <= k < |pre| + |line| ensures b[k] != NL {
      MiddleByte(pre, x, rest, k - |pre|);
      assert x[k - |pre|] in line;
    }
    NextNewlineIs(b, |pre|, |pre| + |line|);
  }

  lemma SameLine(x: Bytes, y: Bytes, o: nat, i: nat)
    requires o <= i <= |x|
    ensures (x + y)[o..i] == x[o..i]
  {
  }

  lemma GlueWindows(b: Bytes, s: nat, m: nat, e: nat)
    requires s <= m <= e <= |b|
    ensures b[s..m] + b[m..e] == b[s..e]
  {
  }

  /** The same search inside a window of the file. */
  lemma {:induction false} NextNewlineInWindow(b: Bytes, p: nat, q: nat, k: nat)
    requires k <= q - p && p <= q <= |b|
    ensures p + NextNewline(b[p..q], k) == Min(NextNewline(b, p + k), q)
    decreases q - p - k
  {
    if k < q - p {
      assert b[p..q][k] == b[p + k];
      NextNewlineInWindow(b, p, q, k + 1);
    }
  }

  lemma {:induction false} LineStartInWindow(b: Bytes, o: nat, e: nat)
    requires o <= e <= |b| && AtLineStart(b, o)
    ensures o + LineStart(b[o..e], e - o) == LineStart(b, e) >= o
  {
    var window := b[o..e];
    var s := LineStart(window, e - o);
    forall k | o + s <= k < e ensures b[k] != NL {
      assert b[k] == window[k - o];
    }
    if s > 0 { assert b[o + s - 1] == window[s - 1]; }
    LineStartIs(b, o + s, e);
  }

  /** A position a line may start at. */
  predicate AtLineStart(b: Bytes, o: nat) {
    o <= |b| && (o == 0 || b[o - 1] == NL)
  }

  /** Split at every newline: n newlines give n + 1 pieces. */
  function Split(b: Bytes): (pieces: seq<Bytes>)
    ensures |pieces| > 0
    decreases |b|
  {
    var i := NextNewline(b, 0);
    if i == |b| then [b] else [b[..i]] + Split(b[i + 1..])
  }

  /** The fragment behind the last newline: what a crash mid-append leaves. */
  function TornTail(b: Bytes): Bytes {
    b[LineStart(b, |b|)..]
  }

  /** No newline in the file, or nothing in it. */
  predicate EmptyOrHasNewline(b: Bytes) {
    b == [] || NL in b
  }

  lemma NoNewlineStartsAtZero(b: Bytes)
    ensures NL in b <==> LineStart(b, |b|) > 0
  {
  }

  /** `b` is whole lines: empty, or ended by a newline. */
  predicate WholeLines(b: Bytes) {
    b == [] || b[|b| - 1] == NL
  }

  lemma WholeLinesIff(b: Bytes)
    ensures WholeLines(b) <==> LineStart(b, |b|) == |b|
  {
  }

  lemma SplitAlone(line: Bytes)
    requires NoNewline(line)
    ensures Split(line) == [line]
  {
    NextNewlineIs(line, 0, |line|);
  }

  lemma SplitFirst(line: Bytes, rest: Bytes)
    requires NoNewline(line)
    ensures Split(line + [NL] + rest) == [line] + Split(rest)
  {
    var b := line + [NL] + rest;
    NextNewlineIs(b, 0, |line|);
    assert b[..|line|] == line;
    assert b[|line| + 1..] == rest;
  }
}
