/** Text files with one record a line, read back as a set. */
module RecordFiles {
  import opened Basics
  import opened Lines

  /** ASCII white space, as `trim` removes it. */
  predicate IsSpace(b: byte) {
    b == 32 || 9 <= b <= 13
  }

  /** Blank, tab, line feed, vertical tab, form feed, carriage return. */
  lemma IsSpaceIff(b: byte)
    ensures IsSpace(b) <==> b as int as char in " \t\n\U{000B}\U{000C}\r"
  {
    var spaces := " \t\n\U{000B}\U{000C}\r";
    assert spaces[0] == 32 as char && spaces[1] == 9 as char && spaces[2] == 10 as char;
    assert spaces[3] == 11 as char && spaces[4] == 12 as char && spaces[5] == 13 as char;
  }

  function TrimStart(b: Bytes): (t: Bytes)
    ensures |t| <= |b| && (t != [] ==> !IsSpace(t[0]))
    ensures b == [] || !IsSpace(b[0]) ==> t == b
  {
    if b != [] && IsSpace(b[0]) then TrimStart(b[1..]) else b
  }

  function TrimEnd(b: Bytes): (t: Bytes)
    ensures t <= b && (t != [] ==> !IsSpace(t[|t| - 1]))
    ensures b == [] || !IsSpace(b[|b| - 1]) ==> t == b
  {
    if b != [] && IsSpace(b[|b| - 1]) then TrimEnd(b[..|b| - 1]) else b
  }

  function Trim(b: Bytes): (t: Bytes)
    ensures |t| <= |b|
    ensures t != [] ==> !IsSpace(t[0]) && !IsSpace(t[|t| - 1])
    ensures b != [] && !IsSpace(b[0]) && !IsSpace(b[|b| - 1]) ==> t == b
  {
    TrimEnd(TrimStart(b))
  }

  ghost predicate AllBlank(b: Bytes) {
    forall k :: 0 <= k < |b| ==> IsSpace(b[k])
  }

  /** `t` is `b` without the white space around it. */
  ghost predicate Trimmed(b: Bytes, t: Bytes) {
    && (t != [] ==> !IsSpace(t[0]) && !IsSpace(t[|t| - 1]))
    && exists i: nat :: TrimmedAt(b, t, i)
  }

  ghost predicate TrimmedAt(b: Bytes, t: Bytes, i: nat) {
    i + |t| <= |b| && b[i..i + |t|] == t && AllBlank(b[..i]) && AllBlank(b[i + |t|..])
  }

  lemma {:induction false} TrimStartIs(b: Bytes) returns (i: nat)
    ensures i <= |b| && TrimStart(b) == b[i..] && AllBlank(b[..i])
  {
    if b != [] && IsSpace(b[0]) {
      i := TrimStartIs(b[1..]);
      i := i + 1;
      assert b[1..][..i - 1] == b[1..i] && b[1..][i - 1..] == b[i..];
      forall k | 0 <= k < i ensures IsSpace(b[k]) {
        if k > 0 { assert b[k] == b[1..][..i - 1][k - 1]; }
      }
    } else {
      i := 0;
    }
  }

  lemma {:induction false} TrimEndIs(b: Bytes)
    ensures AllBlank(b[|TrimEnd(b)|..])
  {
    if b != [] && IsSpace(b[|b| - 1]) {
      var front := b[..|b| - 1];
      TrimEndIs(front);
      var n := |TrimEnd(b)|;
      forall k | n <= k < |b| ensures IsSpace(b[k]) {
        if k < |b| - 1 { assert b[k] == front[n..][k - n]; }
      }
    }
  }

  lemma TrimIs(b: Bytes)
    ensures Trimmed(b, Trim(b))
  {
    var i := TrimStartIs(b);
    var rest, t := b[i..], Trim(b);
    TrimEndIs(rest);
    assert rest[..|t|] == t && b[i..i + |t|] == t && b[i + |t|..] == rest[|t|..];
    assert TrimmedAt(b, t, i);
  }

  /** Trimming leaves exactly what is between the white space. */
  lemma TrimIff(b: Bytes, t: Bytes)
    ensures Trimmed(b, t) <==> t == Trim(b)
  {
    TrimIs(b);
    if Trimmed(b, t) { OneTrimmed(b, t, Trim(b)); }
  }

  lemma OneTrimmed(b: Bytes, t: Bytes, u: Bytes)
    requires Trimmed(b, t) && Trimmed(b, u)
    ensures t == u
  {
    hide IsSpace;
    var i: nat :| TrimmedAt(b, t, i);
    var j: nat :| TrimmedAt(b, u, j);
    hide TrimmedAt;
    if t != [] { SolidInside(b, i, t, j, u); }
    if u != [] { SolidInside(b, j, u, i, t); }
    WindowAt(b, t, i);
    WindowAt(b, u, j);
  }

  lemma WindowAt(b: Bytes, t: Bytes, i: nat)
    requires TrimmedAt(b, t, i)
    ensures i + |t| <= |b| && t == b[i..i + |t|]
  {
  }

  /** What starts and ends with something solid lies inside every trimmed part. */
  lemma SolidInside(b: Bytes, i: nat, t: Bytes, j: nat, u: Bytes)
    requires t != [] && !IsSpace(t[0]) && !IsSpace(t[|t| - 1]) && TrimmedAt(b, t, i) && TrimmedAt(b, u, j)
    ensures j <= i && i + |t| <= j + |u|
  {
    var last := i + |t| - 1;
    assert b[i] == t[0] && b[last] == t[|t| - 1];
    assert forall k :: 0 <= k < j ==> b[k] == b[..j][k];
    assert forall k :: j + |u| <= k < |b| ==> b[k] == b[j + |u|..][k - j - |u|];
  }

  /** The values of the lines that parse. */
  function Collect<T>(lines: seq<Bytes>, parse: Bytes -> Option<T>): set<T> {
    if lines == [] then {}
    else
      (match parse(lines[0])
       case Some(v) => {v}
       case None => {})
      + Collect(lines[1..], parse)
  }

  function Parsed<T>(file: Bytes, parse: Bytes -> Option<T>): set<T> {
    Collect(Split(file), parse)
  }

  lemma {:induction false} CollectAppend<T>(a: seq<Bytes>, b: seq<Bytes>, parse: Bytes -> Option<T>)
    ensures Collect(a + b, parse) == Collect(a, parse) + Collect(b, parse)
  {
    if a == [] {
      assert a + b == b;
    } else {
      CollectAppend(a[1..], b, parse);
      assert (a + b)[1..] == a[1..] + b;
    }
  }

  lemma {:induction false} CollectHas<T>(lines: seq<Bytes>, parse: Bytes -> Option<T>, v: T)
    ensures v in Collect(lines, parse) <==> exists k :: 0 <= k < |lines| && parse(lines[k]) == Some(v)
  {
    if lines == [] {
    } else {
      CollectHas(lines[1..], parse, v);
      assert forall k :: 0 < k < |lines| ==> lines[1..][k - 1] == lines[k];
      if k :| 0 <= k < |lines| && parse(lines[k]) == Some(v) {
        if k > 0 { assert parse(lines[1..][k - 1]) == Some(v); }
      }
    }
  }

  /** Behind whole lines, what is appended is read on its own. */
  lemma {:induction false} ParsedAppend<T>(file: Bytes, more: Bytes, parse: Bytes -> Option<T>)
    requires WholeLines(file) && parse([]) == None
    ensures Parsed(file + more, parse) == Parsed(file, parse) + Parsed(more, parse)
    decreases |file|
  {
    hide NextNewline, Split;
    if file == [] {
      assert file + more == more;
      SplitEmpty();
      assert Collect([[]], parse) == {};
    } else {
      var i := FirstLine(file);
      var line, rest := file[..i], file[i + 1..];
      ParsedAppend(rest, more, parse);
      SplitFirst(line, rest);
      SplitFirst(line, rest + more);
      assert file == line + [NL] + rest;
      assert file + more == line + [NL] + (rest + more);
    }
  }

  lemma SplitEmpty()
    ensures Split([]) == [[]]
  {
  }

  lemma FirstLine(file: Bytes) returns (i: nat)
    requires file != [] && WholeLines(file)
    ensures i < |file| && file[i] == NL && NoNewline(file[..i]) && WholeLines(file[i + 1..])
  {
    i := NextNewline(file, 0);
    if file[i + 1..] != [] { assert file[i + 1..][|file| - i - 2] == file[|file| - 1]; }
  }

  /** The first piece, and the rest behind its newline. */
  lemma SplitParts(b: Bytes) returns (line: Bytes, rest: Bytes)
    requires NL in b
    ensures NoNewline(line) && b == line + [NL] + rest && Split(b) == [line] + Split(rest)
  {
    var i := NextNewline(b, 0);
    line, rest := b[..i], b[i + 1..];
  }

  lemma {:induction false} SplitTerminated(b: Bytes)
    ensures Split(b + [NL]) == Split(b) + [[]]
    decreases |b|
  {
    hide Split;
    if NL in b {
      var line, rest := SplitParts(b);
      SplitTerminated(rest);
      assert b + [NL] == line + [NL] + (rest + [NL]);
      SplitFirst(line, rest + [NL]);
    } else {
      SplitAlone(b);
      SplitFirst(b, []);
      SplitEmpty();
      assert b + [NL] + [] == b + [NL];
    }
  }

  /** Text without a newline lengthens the last piece only. */
  lemma {:induction false} SplitExtended(b: Bytes, more: Bytes)
    requires NoNewline(more)
    ensures var n := |Split(b)| - 1; Split(b + more) == Split(b)[..n] + [Split(b)[n] + more]
    decreases |b|
  {
    hide Split;
    if NL in b {
      var line, rest := SplitParts(b);
      SplitExtended(rest, more);
      assert b + more == line + [NL] + (rest + more);
      SplitFirst(line, rest + more);
    } else {
      SplitAlone(b);
      SplitAlone(b + more);
    }
  }

  /** One more line of its own. */
  lemma ParsedLine<T>(line: Bytes, parse: Bytes -> Option<T>, v: T)
    requires NoNewline(line) && parse([]) == None && parse(line) == Some(v)
    ensures Parsed(line + [NL], parse) == {v}
  {
    hide Split;
    SplitFirst(line, []);
    SplitEmpty();
    assert line + [NL] + [] == line + [NL];
    assert Collect([[]], parse) == {};
    assert ([line] + [[]])[1..] == [[]];
  }

  /** The file that holds one line per value, in the given order. */
  function Listing<T>(order: seq<T>, render: T -> Bytes): (file: Bytes)
    ensures WholeLines(file)
  {
    if order == [] then []
    else Listing(order[..|order| - 1], render) + (render(order[|order| - 1]) + [NL])
  }

  lemma {:induction false} ListingParses<T>(order: seq<T>, render: T -> Bytes, parse: Bytes -> Option<T>)
    requires parse([]) == None
    requires forall k :: 0 <= k < |order| ==> NoNewline(render(order[k])) && parse(render(order[k])) == Some(order[k])
    ensures Parsed(Listing(order, render), parse) == set x | x in order
  {
    hide Split;
    if order == [] {
      SplitEmpty();
      assert Collect([[]], parse) == {};
    } else {
      var n := |order| - 1;
      ListingParses(order[..n], render, parse);
      ParsedAppend(Listing(order[..n], render), render(order[n]) + [NL], parse);
      ParsedLine(render(order[n]), parse, order[n]);
      assert order == order[..n] + [order[n]];
    }
  }

  /** A file that lists the values, one line each, in some order. */
  ghost predicate ListingOf<T(!new)>(file: Bytes, values: set<T>, render: T -> Bytes) {
    exists order: seq<T> :: multiset(order) == multiset(values) && file == Listing(order, render)
  }

  lemma ListingReadsBack<T(!new)>(file: Bytes, values: set<T>, render: T -> Bytes, parse: Bytes -> Option<T>)
    requires ListingOf(file, values, render) && parse([]) == None
    requires forall v :: v in values ==> NoNewline(render(v)) && parse(render(v)) == Some(v)
    ensures WholeLines(file) && Parsed(file, parse) == values
  {
    var order: seq<T> :| multiset(order) == multiset(values) && file == Listing(order, render);
    assert forall v :: v in order <==> v in multiset(order);
    forall k | 0 <= k < |order| ensures NoNewline(render(order[k])) && parse(render(order[k])) == Some(order[k]) {
      assert order[k] in order && order[k] in multiset(values);
    }
    ListingParses(order, render, parse);
  }

  /** A set written out in whatever order it is iterated. */
  method Rewritten<T(!new, ==)>(values: set<T>, render: T -> Bytes) returns (content: Bytes)
    ensures ListingOf(content, values, render)
  {
    content := [];
    ghost var order: seq<T> := [];
    var rest := values;
    while rest != {}
      invariant rest <= values && multiset(order) == multiset(values - rest)
      invariant content == Listing(order, render)
      decreases |rest|
    {
      var v :| v in rest;
      content := content + (render(v) + [NL]);
      assert (order + [v])[..|order|] == order;
      order := order + [v];
      assert values - (rest - {v}) == (values - rest) + {v};
      rest := rest - {v};
    }
    assert values - rest == values;
  }

  /** Every piece of a split is free of newlines and no longer than the whole;
      only the whole itself is as long. */
  lemma {:induction false} PiecesAreShort(b: Bytes, k: nat)
    requires k < |Split(b)|
    ensures NoNewline(Split(b)[k])
    ensures |Split(b)[k]| < |b| || Split(b)[k] == b
    decreases |b|
  {
    var i := NextNewline(b, 0);
    if i < |b| && k > 0 {
      PiecesAreShort(b[i + 1..], k - 1);
    }
  }
}
