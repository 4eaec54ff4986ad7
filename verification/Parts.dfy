/** What a pass over a sequence picked, and where the parts of a join stand. */
module Parts {
  import opened Basics
  import opened Lines

  // ----- picking -----

  /** `at` lists, in increasing order, exactly the positions where `p` holds. */
  ghost predicate Positions<T>(xs: seq<T>, p: T -> bool, at: seq<nat>) {
    && (forall k :: 0 <= k < |at| ==> at[k] < |xs| && p(xs[at[k]]))
    && (forall j, k :: 0 <= j < k < |at| ==> at[j] < at[k])
    && (forall i :: 0 <= i < |xs| && p(xs[i]) ==> i in at)
  }

  /** The positions of the elements with `p`. */
  ghost function Where<T>(xs: seq<T>, p: T -> bool): (at: seq<nat>)
    ensures Positions(xs, p, at)
  {
    if xs == [] then []
    else
      var rest := Where(xs[1..], p);
      PositionsShift(xs, p, rest);
      (if p(xs[0]) then [0] else []) + Later(rest)
  }

  ghost function Later(at: seq<nat>): (r: seq<nat>)
    ensures |r| == |at| && forall k :: 0 <= k < |at| ==> r[k] == at[k] + 1
  {
    seq(|at|, k requires 0 <= k < |at| => at[k] + 1)
  }

  lemma PositionsShift<T>(xs: seq<T>, p: T -> bool, rest: seq<nat>)
    requires xs != [] && Positions(xs[1..], p, rest)
    ensures Positions(xs, p, (if p(xs[0]) then [0] else []) + Later(rest))
  {
    var front: seq<nat> := if p(xs[0]) then [0] else [];
    var at := front + Later(rest);
    forall i | 0 <= i < |xs| && p(xs[i]) ensures i in at {
      if i > 0 {
        assert xs[1..][i - 1] == xs[i];
        LaterHas(rest, i);
      } else {
        assert 0 in front;
      }
    }
  }

  lemma LaterHas(rest: seq<nat>, i: nat)
    requires i > 0 && i - 1 in rest
    ensures i in Later(rest)
  {
    var k :| 0 <= k < |rest| && rest[k] == i - 1;
    assert Later(rest)[k] == i;
  }

  lemma WhereFirst<T>(xs: seq<T>, p: T -> bool)
    requires xs != []
    ensures Where(xs, p) == (if p(xs[0]) then [0] else []) + Later(Where(xs[1..], p))
  {
  }

  ghost predicate MatchesAt<T, U>(xs: seq<T>, rel: (T, U) -> bool, at: seq<nat>, out: seq<U>) {
    |out| == |at| && forall k :: 0 <= k < |at| ==> at[k] < |xs| && rel(xs[at[k]], out[k])
  }

  /** `out` is, one for one and in order, what `rel` makes of the elements with `p`. */
  ghost predicate Picked<T, U>(xs: seq<T>, p: T -> bool, rel: (T, U) -> bool, out: seq<U>) {
    MatchesAt(xs, rel, Where(xs, p), out)
  }

  lemma NothingPicked<T, U>(xs: seq<T>, p: T -> bool, rel: (T, U) -> bool)
    requires xs == []
    ensures Picked(xs, p, rel, [])
  {
  }

  lemma PickedFirst<T, U>(xs: seq<T>, p: T -> bool, rel: (T, U) -> bool, here: seq<U>, rest: seq<U>)
    requires xs != [] && Picked(xs[1..], p, rel, rest)
    requires if p(xs[0]) then |here| == 1 && rel(xs[0], here[0]) else here == []
    ensures Picked(xs, p, rel, here + rest)
  {
    WhereFirst(xs, p);
    hide Where, Later;
    MatchesShift(xs, rel, Where(xs[1..], p), rest);
    MatchesAppend(xs, rel, if p(xs[0]) then [0] else [], here, Later(Where(xs[1..], p)), rest);
  }

  lemma MatchesShift<T, U>(xs: seq<T>, rel: (T, U) -> bool, at: seq<nat>, out: seq<U>)
    requires xs != [] && MatchesAt(xs[1..], rel, at, out)
    ensures MatchesAt(xs, rel, Later(at), out)
  {
    forall k | 0 <= k < |at| ensures rel(xs[Later(at)[k]], out[k]) {
      assert xs[1..][at[k]] == xs[at[k] + 1];
    }
  }

  lemma MatchesAppend<T, U>(xs: seq<T>, rel: (T, U) -> bool, at: seq<nat>, a: seq<U>, more: seq<nat>, b: seq<U>)
    requires MatchesAt(xs, rel, at, a) && MatchesAt(xs, rel, more, b)
    ensures MatchesAt(xs, rel, at + more, a + b)
  {
  }

  /** Two picks by a relation that leaves no choice are the same. */
  lemma SamePicks<T, U>(xs: seq<T>, p: T -> bool, rel: (T, U) -> bool, a: seq<U>, b: seq<U>)
    requires Picked(xs, p, rel, a) && Picked(xs, p, rel, b)
    requires forall x, u, v :: x in xs && rel(x, u) && rel(x, v) ==> u == v
    ensures a == b
  {
    var at := Where(xs, p);
    forall k | 0 <= k < |a| ensures a[k] == b[k] {
      assert xs[at[k]] in xs && rel(xs[at[k]], a[k]) && rel(xs[at[k]], b[k]);
    }
  }

  lemma PickedHas<T, U>(xs: seq<T>, p: T -> bool, rel: (T, U) -> bool, out: seq<U>, i: nat)
    requires Picked(xs, p, rel, out) && i < |xs| && p(xs[i])
    ensures exists k :: 0 <= k < |out| && rel(xs[i], out[k])
  {
    var at := Where(xs, p);
    var k :| 0 <= k < |at| && at[k] == i;
  }

  // ----- joining -----

  ghost predicate PartAt(out: Bytes, part: Bytes, i: int) {
    0 <= i <= |out| - |part| && out[i..i + |part|] == part
  }

  lemma PartBehind(front: Bytes, out: Bytes, part: Bytes, i: int)
    requires PartAt(out, part, i)
    ensures PartAt(front + out, part, |front| + i)
  {
  }

  /** Where part `k` starts when the parts stand one behind the other with a
      separator between each two. */
  function Place(parts: seq<Bytes>, sep: Bytes, k: nat): nat
    requires k <= |parts|
  {
    if k == 0 then 0 else Place(parts, sep, k - 1) + |parts[k - 1]| + |sep|
  }

  lemma {:induction false} PlaceShift(parts: seq<Bytes>, sep: Bytes, k: nat)
    requires 0 < k <= |parts|
    ensures Place(parts, sep, k) == |parts[0]| + |sep| + Place(parts[1..], sep, k - 1)
  {
    if k == 1 {
      assert Place(parts, sep, 0) == 0;
    } else {
      PlaceShift(parts, sep, k - 1);
    }
  }

  /** `out` is the parts in order, the separator between each two, nothing else. */
  ghost predicate Joined(out: Bytes, parts: seq<Bytes>, sep: Bytes) {
    && |out| == (if parts == [] then 0 else Place(parts, sep, |parts|) - |sep|)
    && forall k :: 0 <= k < |parts| ==>
         && PartAt(out, parts[k], Place(parts, sep, k))
         && (k > 0 ==> PartAt(out, sep, Place(parts, sep, k) - |sep|))
  }

  /** Where each part of a join stands; its length is that of the parts and the
      separators between them. */
  lemma {:induction false} JoinPlaces(parts: seq<Bytes>, sep: Bytes)
    ensures Joined(Join(parts, sep), parts, sep)
  {
    hide Place, PartAt;
    if parts == [] {
    } else if |parts| == 1 {
      OnePart(parts, sep);
    } else {
      var rest := parts[1..];
      JoinPlaces(rest, sep);
      JoinedFirst(Join(rest, sep), parts, sep);
    }
  }

  lemma OnePart(parts: seq<Bytes>, sep: Bytes)
    requires |parts| == 1
    ensures Joined(parts[0], parts, sep)
  {
    assert Place(parts, sep, 0) == 0;
    assert Place(parts, sep, 1) == |parts[0]| + |sep|;
  }

  lemma JoinedFirst(out: Bytes, parts: seq<Bytes>, sep: Bytes)
    requires |parts| > 1 && Joined(out, parts[1..], sep)
    ensures Joined(parts[0] + sep + out, parts, sep)
  {
    FirstPart(parts[0], sep, out);
    assert Place(parts, sep, 0) == 0;
    PlaceShift(parts, sep, |parts|);
    hide Place, PartAt;
    forall k | 0 < k < |parts|
      ensures PartAt(parts[0] + sep + out, parts[k], Place(parts, sep, k))
      ensures PartAt(parts[0] + sep + out, sep, Place(parts, sep, k) - |sep|)
    {
      LaterPart(out, parts, sep, k);
    }
  }

  lemma LaterPart(out: Bytes, parts: seq<Bytes>, sep: Bytes, k: nat)
    requires 0 < k < |parts| && Joined(out, parts[1..], sep)
    ensures PartAt(parts[0] + sep + out, parts[k], Place(parts, sep, k))
    ensures PartAt(parts[0] + sep + out, sep, Place(parts, sep, k) - |sep|)
  {
    hide *;
    var rest, front := parts[1..], parts[0] + sep;
    PlaceShift(parts, sep, k);
    JoinedPart(out, rest, sep, k - 1);
    PartBehind(front, out, parts[k], Place(rest, sep, k - 1));
    if k == 1 {
      PlaceOfFirst(rest, sep);
      FirstPart(parts[0], sep, out);
    } else {
      PartBehind(front, out, sep, Place(rest, sep, k - 1) - |sep|);
    }
  }

  lemma JoinedPart(out: Bytes, parts: seq<Bytes>, sep: Bytes, k: nat)
    requires Joined(out, parts, sep) && k < |parts|
    ensures PartAt(out, parts[k], Place(parts, sep, k))
    ensures k > 0 ==> PartAt(out, sep, Place(parts, sep, k) - |sep|)
  {
  }

  lemma PlaceOfFirst(parts: seq<Bytes>, sep: Bytes)
    ensures Place(parts, sep, 0) == 0
  {
  }

  lemma FirstPart(part: Bytes, sep: Bytes, out: Bytes)
    ensures PartAt(part + sep + out, part, 0) && PartAt(part + sep + out, sep, |part|)
  {
  }

  /** Nothing else is so joined. */
  lemma {:induction false} JoinedIff(out: Bytes, parts: seq<Bytes>, sep: Bytes)
    ensures Joined(out, parts, sep) <==> out == Join(parts, sep)
    decreases |parts|
  {
    hide Place, PartAt;
    JoinPlaces(parts, sep);
    if Joined(out, parts, sep) {
      if parts == [] {
      } else if |parts| == 1 {
        OnlyPart(out, parts, sep);
      } else {
        var rest, front := parts[1..], parts[0] + sep;
        var behind := JoinedRest(out, parts, sep);
        JoinedIff(behind, rest, sep);
      }
    }
  }

  lemma OnlyPart(out: Bytes, parts: seq<Bytes>, sep: Bytes)
    requires |parts| == 1 && Joined(out, parts, sep)
    ensures out == parts[0]
  {
    JoinedPart(out, parts, sep, 0);
    assert Place(parts, sep, 0) == 0;
    assert Place(parts, sep, 1) == |parts[0]| + |sep|;
    assert out[0..|out|] == out;
  }

  lemma PartInFront(front: Bytes, out: Bytes, part: Bytes, i: int)
    requires i >= 0 && PartAt(front + out, part, |front| + i)
    ensures PartAt(out, part, i)
  {
    assert out[i..i + |part|] == (front + out)[|front| + i..|front| + i + |part|];
  }

  lemma JoinedRest(out: Bytes, parts: seq<Bytes>, sep: Bytes) returns (behind: Bytes)
    requires |parts| > 1 && Joined(out, parts, sep)
    ensures out == parts[0] + sep + behind && Joined(behind, parts[1..], sep)
  {
    hide Place, PartAt;
    var rest, front := parts[1..], parts[0] + sep;
    behind := CutFront(out, parts, sep);
    PlaceShift(parts, sep, |parts|);
    forall k | 0 <= k < |rest|
      ensures PartAt(behind, rest[k], Place(rest, sep, k))
      ensures k > 0 ==> PartAt(behind, sep, Place(rest, sep, k) - |sep|)
    {
      PartOfRest(behind, parts, sep, k);
    }
  }

  lemma CutFront(out: Bytes, parts: seq<Bytes>, sep: Bytes) returns (behind: Bytes)
    requires |parts| > 1 && Joined(out, parts, sep)
    ensures out == parts[0] + sep + behind
  {
    JoinedPart(out, parts, sep, 0);
    JoinedPart(out, parts, sep, 1);
    PlaceOfFirst(parts, sep);
    assert Place(parts, sep, 1) == |parts[0]| + |sep|;
    hide Joined;
    var n := |parts[0]| + |sep|;
    behind := out[n..];
    assert out[..|parts[0]|] == parts[0] && out[|parts[0]|..n] == sep;
    assert out == out[..|parts[0]|] + out[|parts[0]|..n] + out[n..];
  }

  lemma PartOfRest(behind: Bytes, parts: seq<Bytes>, sep: Bytes, k: nat)
    requires |parts| > 1 && k < |parts| - 1 && Joined(parts[0] + sep + behind, parts, sep)
    ensures PartAt(behind, parts[1..][k], Place(parts[1..], sep, k))
    ensures k > 0 ==> PartAt(behind, sep, Place(parts[1..], sep, k) - |sep|)
  {
    hide *;
    var rest, front := parts[1..], parts[0] + sep;
    assert rest[k] == parts[k + 1];
    JoinedPart(front + behind, parts, sep, k + 1);
    PlaceShift(parts, sep, k + 1);
    PartInFront(front, behind, rest[k], Place(rest, sep, k));
    if k > 0 {
      PlaceHoldsSep(rest, sep, k);
      PartInFront(front, behind, sep, Place(rest, sep, k) - |sep|);
    }
  }

  lemma PlaceHoldsSep(parts: seq<Bytes>, sep: Bytes, k: nat)
    requires 0 < k <= |parts|
    ensures Place(parts, sep, k) >= |sep|
  {
  }

  /** Lines joined with newlines split into the same lines again. */
  lemma {:induction false} SplitJoin(parts: seq<Bytes>)
    requires parts != [] && forall k :: 0 <= k < |parts| ==> NoNewline(parts[k])
    ensures Split(Join(parts, [NL])) == parts
  {
    hide Split;
    if |parts| == 1 {
      SplitAlone(parts[0]);
    } else {
      SplitJoin(parts[1..]);
      SplitFirst(parts[0], Join(parts[1..], [NL]));
    }
  }
}
