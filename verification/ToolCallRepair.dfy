/** Dropping the rest of a turn whose tool calls lack results
    (`repair_dangling_tool_calls_with_origin`). */
module ToolCallRepair {
  import opened Basics
  import opened Messages

  predicate HasToolResult(rest: seq<Message>, id: Bytes) {
    exists j :: 0 <= j < |rest| && Answers(rest[j], id)
  }

  /** An assistant with a call nothing in `rest` answers. */
  predicate Dangling(m: Message, rest: seq<Message>) {
    && m.role == Assistant
    && exists k :: 0 <= k < |Calls(m)| && Calls(m)[k].id.Some? && !HasToolResult(rest, Calls(m)[k].id.value)
  }

  /** Whether the first message is dropped; `dropping` says a dangling call
      came before it in the same turn. */
  predicate Drops(ms: seq<Message>, dropping: bool)
    requires ms != []
  {
    Dangling(ms[0], ms[1..]) || (dropping && !OpensTurn(ms[0]))
  }

  function RepairFrom(ms: seq<Message>, dropping: bool): seq<Message> {
    if ms == [] then []
    else (if Drops(ms, dropping) then [] else [ms[0]]) + RepairFrom(ms[1..], Drops(ms, dropping))
  }

  function Repair(ms: seq<Message>): seq<Message> {
    RepairFrom(ms, false)
  }

  /** One flag per message: is it kept. */
  function KeepFlags(ms: seq<Message>, dropping: bool): (flags: seq<bool>)
    ensures |flags| == |ms|
  {
    if ms == [] then []
    else [!Drops(ms, dropping)] + KeepFlags(ms[1..], Drops(ms, dropping))
  }

  lemma RepairSelects(ms: seq<Message>, dropping: bool)
    ensures RepairFrom(ms, dropping) == Select(ms, KeepFlags(ms, dropping))
  {
  }

  ghost predicate NoDangling(ms: seq<Message>) {
    forall i :: 0 <= i < |ms| ==> !Dangling(ms[i], ms[i + 1..])
  }

  /** `ys` answers no call that dangles in `xs`: what dangled still does with
      `ys` behind it. Calls `xs` has answered do not matter. */
  predicate KeepsDangling(xs: seq<Message>, ys: seq<Message>) {
    xs == [] ||
    (&& (Dangling(xs[0], xs[1..]) ==> Dangling(xs[0], xs[1..] + ys))
     && KeepsDangling(xs[1..], ys))
  }

  lemma {:induction false} KeepsDanglingAt(xs: seq<Message>, ys: seq<Message>)
    ensures KeepsDangling(xs, ys)
       <==> forall i :: 0 <= i < |xs| && Dangling(xs[i], xs[i + 1..]) ==> Dangling(xs[i], xs[i + 1..] + ys)
  {
    hide Dangling;
    if xs == [] {
    } else {
      var rest := xs[1..];
      KeepsDanglingAt(rest, ys);
      forall i | 0 <= i < |rest| ensures rest[i] == xs[i + 1] && rest[i + 1..] == xs[i + 1 + 1..] {
      }
      assert xs[0 + 1..] == rest;
      if forall i :: 0 <= i < |xs| && Dangling(xs[i], xs[i + 1..]) ==> Dangling(xs[i], xs[i + 1..] + ys) {
        forall i | 0 <= i < |rest| && Dangling(rest[i], rest[i + 1..]) ensures Dangling(rest[i], rest[i + 1..] + ys) {
          assert Dangling(xs[i + 1], xs[i + 1 + 1..]);
        }
      }
      if KeepsDangling(xs, ys) {
        forall i | 0 <= i < |xs| && Dangling(xs[i], xs[i + 1..]) ensures Dangling(xs[i], xs[i + 1..] + ys) {
          if i > 0 { assert Dangling(rest[i - 1], rest[i - 1 + 1..]); }
        }
      }
    }
  }

  /** Fresh call ids are enough. */
  ghost predicate Unrelated(xs: seq<Message>, ys: seq<Message>) {
    forall x, y, id :: x in xs && y in ys && CallsId(x, id) ==> !Answers(y, id)
  }

  lemma {:induction false} UnrelatedKeepsDangling(xs: seq<Message>, ys: seq<Message>)
    requires Unrelated(xs, ys)
    ensures KeepsDangling(xs, ys)
  {
    if xs == [] {
    } else {
      assert Unrelated([xs[0]], ys) && Unrelated(xs[1..], ys);
      UnrelatedKeepsDangling(xs[1..], ys);
      DanglingAppend(xs[0], xs[1..], ys);
    }
  }

  lemma {:induction false} KeepsDanglingSuffix(xs: seq<Message>, k: nat, ys: seq<Message>)
    requires KeepsDangling(xs, ys) && k <= |xs|
    ensures KeepsDangling(xs[k..], ys)
  {
    hide Dangling;
    if k == 0 {
      assert xs[0..] == xs;
    } else {
      KeepsDanglingSuffix(xs[1..], k - 1, ys);
      assert xs[1..][k - 1..] == xs[k..];
    }
  }

  /** What the reader refuses makes no difference to it, on either side. */
  lemma {:induction false} KeepsDanglingFiltered(xs: seq<Message>, ys: seq<Message>)
    ensures KeepsDangling(xs, Filter(ys, IsValid)) == KeepsDangling(xs, ys)
    ensures KeepsDangling(xs, ys) ==> KeepsDangling(Filter(xs, IsValid), ys)
  {
    hide Dangling, IsValid;
    if xs == [] {
    } else {
      var m, rest := xs[0], xs[1..];
      KeepsDanglingFiltered(rest, ys);
      DanglingIgnoresFilter(m, rest, ys);
      var fs := Filter(rest, IsValid);
      if IsValid(m) {
        assert Filter(xs, IsValid) == [m] + fs;
        assert ([m] + fs)[0] == m && ([m] + fs)[1..] == fs;
      } else {
        assert Filter(xs, IsValid) == fs;
      }
    }
  }

  lemma DanglingIgnoresFilter(m: Message, rest: seq<Message>, ys: seq<Message>)
    ensures Dangling(m, rest + Filter(ys, IsValid)) == Dangling(m, rest + ys)
    ensures Dangling(m, Filter(rest, IsValid)) == Dangling(m, rest)
    ensures Dangling(m, Filter(rest, IsValid) + ys) == Dangling(m, rest + ys)
  {
    hide IsValid, Calls, HasToolResult, Filter;
    forall id: Bytes
      ensures HasToolResult(rest + Filter(ys, IsValid), id) == HasToolResult(rest + ys, id)
      ensures HasToolResult(Filter(rest, IsValid), id) == HasToolResult(rest, id)
      ensures HasToolResult(Filter(rest, IsValid) + ys, id) == HasToolResult(rest + ys, id)
    {
      ResultsIgnoreInvalid(rest, id);
      ResultsIgnoreInvalid(ys, id);
      HasToolResultAppend(rest, ys, id);
      HasToolResultAppend(rest, Filter(ys, IsValid), id);
      HasToolResultAppend(Filter(rest, IsValid), ys, id);
    }
  }

  ghost predicate StartsWithOpener(ms: seq<Message>) {
    ms == [] || OpensTurn(ms[0])
  }

  // ----- the walk over a concatenation -----

  lemma DanglingAppend(m: Message, rest: seq<Message>, ys: seq<Message>)
    requires Unrelated([m], ys)
    ensures Dangling(m, rest + ys) == Dangling(m, rest)
  {
    forall k | 0 <= k < |Calls(m)| && Calls(m)[k].id.Some?
      ensures HasToolResult(rest + ys, Calls(m)[k].id.value) == HasToolResult(rest, Calls(m)[k].id.value)
    {
      var id := Calls(m)[k].id.value;
      assert CallsId(m, id);
      forall j | 0 <= j < |ys| ensures !Answers(ys[j], id) {
        assert m in [m] && ys[j] in ys;
      }
      HasToolResultAppend(rest, ys, id);
    }
  }

  /** What the repair keeps of the first `k` messages. */
  function KeptOfFirst(ms: seq<Message>, k: nat, dropping: bool): seq<Message>
    requires k <= |ms|
  {
    if k == 0 then []
    else (if Drops(ms, dropping) then [] else [ms[0]]) + KeptOfFirst(ms[1..], k - 1, Drops(ms, dropping))
  }

  /** The flag the walk carries past the first `k` messages. */
  function FlagAfter(ms: seq<Message>, k: nat, dropping: bool): bool
    requires k <= |ms|
  {
    if k == 0 then dropping else FlagAfter(ms[1..], k - 1, Drops(ms, dropping))
  }

  /** Whatever precedes a suffix, the suffix is repaired by its own content
      and one incoming flag. */
  lemma {:induction false} RepairSplit(ms: seq<Message>, k: nat, dropping: bool)
    requires k <= |ms|
    ensures RepairFrom(ms, dropping)
         == KeptOfFirst(ms, k, dropping) + RepairFrom(ms[k..], FlagAfter(ms, k, dropping))
  {
    hide Dangling, OpensTurn;
    if k == 0 {
      assert ms[0..] == ms;
    } else {
      var d := Drops(ms, dropping);
      RepairSplit(ms[1..], k - 1, d);
      assert ms[1..][k - 1..] == ms[k..];
      Assoc(if d then [] else [ms[0]], KeptOfFirst(ms[1..], k - 1, d), RepairFrom(ms[k..], FlagAfter(ms, k, dropping)));
    }
  }

  /** A run that is already dropping only eats up to the next opener. */
  lemma {:induction false} FlagEatsNoOpener(ys: seq<Message>)
    ensures exists eaten: seq<Message> ::
              (forall m :: m in eaten ==> !OpensTurn(m)) &&
              RepairFrom(ys, false) == eaten + RepairFrom(ys, true)
  {
    if ys == [] {
      assert RepairFrom(ys, false) == [] + RepairFrom(ys, true);
    } else if Drops(ys, true) == Drops(ys, false) {
      assert RepairFrom(ys, false) == [] + RepairFrom(ys, true);
    } else {
      FlagEatsNoOpener(ys[1..]);
      var eaten: seq<Message> :| (forall m :: m in eaten ==> !OpensTurn(m)) &&
        RepairFrom(ys[1..], false) == eaten + RepairFrom(ys[1..], true);
      assert RepairFrom(ys, false) == ([ys[0]] + eaten) + RepairFrom(ys, true);
    }
  }

  /** The repair is turn-local: a fresh turn appended behind is repaired on
      its own, and leaves what was there as it was. */
  lemma RepairAppend(xs: seq<Message>, ys: seq<Message>, dropping: bool)
    requires StartsWithOpener(ys) && KeepsDangling(xs, ys)
    ensures RepairFrom(xs + ys, dropping) == RepairFrom(xs, dropping) + Repair(ys)
  {
    hide *;
    KeepsDanglingKeepsDrops(xs, ys, dropping);
    RepairAppendIff(xs, ys, dropping);
  }

  lemma OpenerClearsRun(ys: seq<Message>, dropping: bool)
    requires StartsWithOpener(ys)
    ensures RepairFrom(ys, dropping) == Repair(ys)
  {
    hide Dangling, OpensTurn;
  }

  /** More messages only ever answer more. */
  lemma DanglingShrinks(m: Message, rest: seq<Message>, ys: seq<Message>)
    ensures Dangling(m, rest + ys) ==> Dangling(m, rest)
  {
    forall k | 0 <= k < |Calls(m)| && Calls(m)[k].id.Some? && HasToolResult(rest, Calls(m)[k].id.value)
      ensures HasToolResult(rest + ys, Calls(m)[k].id.value)
    {
      HasToolResultAppend(rest, ys, Calls(m)[k].id.value);
    }
  }

  /** With `ys` behind it, `xs` loses exactly the messages it lost before. */
  predicate SameDrops(xs: seq<Message>, ys: seq<Message>, dropping: bool) {
    xs == [] ||
    (&& Drops(xs, dropping) == Drops([xs[0]] + (xs[1..] + ys), dropping)
     && SameDrops(xs[1..], ys, Drops(xs, dropping)))
  }

  lemma {:induction false} MoreAnswersKeepMore(xs: seq<Message>, ys: seq<Message>, dropping: bool, before: bool)
    requires StartsWithOpener(ys) && (dropping ==> before)
    ensures |RepairFrom(xs + ys, dropping)| >= |RepairFrom(xs, before)| + |Repair(ys)|
  {
    hide Dangling, OpensTurn;
    if xs == [] {
      assert xs + ys == ys;
      OpenerClearsRun(ys, dropping);
    } else {
      var all := xs + ys;
      assert all[0] == xs[0] && all[1..] == xs[1..] + ys;
      DanglingShrinks(xs[0], xs[1..], ys);
      MoreAnswersKeepMore(xs[1..], ys, Drops(all, dropping), Drops(xs, before));
    }
  }

  /** What the repair keeps it still keeps with anything behind it. */
  lemma {:induction false} KeptStaysKept(xs: seq<Message>, ys: seq<Message>, dropping: bool, before: bool)
    requires dropping ==> before
    ensures forall m :: m in RepairFrom(xs, before) ==> m in RepairFrom(xs + ys, dropping)
  {
    hide Dangling, OpensTurn;
    if xs == [] {
    } else {
      var all := xs + ys;
      assert all[0] == xs[0] && all[1..] == xs[1..] + ys;
      DanglingShrinks(xs[0], xs[1..], ys);
      KeptStaysKept(xs[1..], ys, Drops(all, dropping), Drops(xs, before));
    }
  }

  /** A fresh turn is repaired on its own, and what was there as before, exactly
      when it revives nothing that had been dropped. */
  lemma {:induction false} RepairAppendIff(xs: seq<Message>, ys: seq<Message>, dropping: bool)
    requires StartsWithOpener(ys)
    ensures RepairFrom(xs + ys, dropping) == RepairFrom(xs, dropping) + Repair(ys) <==> SameDrops(xs, ys, dropping)
  {
    hide Dangling, OpensTurn;
    if xs == [] {
      assert xs + ys == ys;
      OpenerClearsRun(ys, dropping);
    } else {
      var all := xs + ys;
      assert all[0] == xs[0] && all[1..] == xs[1..] + ys && [xs[0]] + (xs[1..] + ys) == all;
      DanglingShrinks(xs[0], xs[1..], ys);
      var d, d' := Drops(xs, dropping), Drops(all, dropping);
      MoreAnswersKeepMore(xs[1..], ys, d', d);
      RepairAppendIff(xs[1..], ys, d);
      var here := if d then [] else [xs[0]];
      if d == d' {
        Assoc(here, RepairFrom(xs[1..], d), Repair(ys));
        SameBehind(here, RepairFrom(xs[1..] + ys, d), RepairFrom(xs[1..], d) + Repair(ys));
      }
    }
  }

  lemma SameBehind(here: seq<Message>, a: seq<Message>, b: seq<Message>)
    ensures here + a == here + b <==> a == b
  {
    assert a == (here + a)[|here|..] && b == (here + b)[|here|..];
  }

  lemma {:induction false} KeepsDanglingKeepsDrops(xs: seq<Message>, ys: seq<Message>, dropping: bool)
    requires KeepsDangling(xs, ys)
    ensures SameDrops(xs, ys, dropping)
  {
    hide Dangling, OpensTurn;
    if xs == [] {
    } else {
      var all := [xs[0]] + (xs[1..] + ys);
      assert all[0] == xs[0] && all[1..] == xs[1..] + ys;
      DanglingShrinks(xs[0], xs[1..], ys);
      KeepsDanglingKeepsDrops(xs[1..], ys, Drops(xs, dropping));
    }
  }

  /** Turn openers survive every repair, in order: no later turn is lost. */
  lemma {:induction false} RepairKeepsOpeners(ms: seq<Message>, dropping: bool)
    ensures Filter(RepairFrom(ms, dropping), OpensTurn) == Filter(ms, OpensTurn)
  {
    if ms == [] {
    } else {
      var d := Drops(ms, dropping);
      RepairKeepsOpeners(ms[1..], d);
      var here := if d then [] else [ms[0]];
      FilterAppend(here, RepairFrom(ms[1..], d), OpensTurn);
      FilterOne(ms[0], OpensTurn);
    }
  }

  /** The repair changes nothing exactly when every call is answered. */
  lemma {:induction false} RepairIsIdentityIff(ms: seq<Message>)
    ensures Repair(ms) == ms <==> NoDangling(ms)
  {
    hide Dangling, OpensTurn;
    if ms == [] {
    } else {
      var d := Drops(ms, false);
      RepairIsIdentityIff(ms[1..]);
      RepairNotLonger(ms[1..], d);
      NoDanglingCons(ms);
      if d {
        assert Repair(ms) == RepairFrom(ms[1..], d);
      } else {
        assert Repair(ms) == [ms[0]] + Repair(ms[1..]);
        assert ms == [ms[0]] + ms[1..];
        assert Repair(ms)[1..] == Repair(ms[1..]);
      }
    }
  }

  lemma NoDanglingCons(ms: seq<Message>)
    requires ms != []
    ensures NoDangling(ms) <==> !Dangling(ms[0], ms[1..]) && NoDangling(ms[1..])
  {
    hide Dangling;
    var rest := ms[1..];
    forall i | 0 <= i < |rest| ensures rest[i] == ms[i + 1] && rest[i + 1..] == ms[i + 2..] {
    }
    if NoDangling(ms) {
      assert !Dangling(ms[0], ms[0 + 1..]);
      forall i | 0 <= i < |rest| ensures !Dangling(rest[i], rest[i + 1..]) {
        assert !Dangling(ms[i + 1], ms[i + 1 + 1..]);
      }
    }
    if !Dangling(ms[0], ms[1..]) && NoDangling(rest) {
      forall i | 0 <= i < |ms| ensures !Dangling(ms[i], ms[i + 1..]) {
        if i > 0 {
          assert !Dangling(rest[i - 1], rest[i - 1 + 1..]);
        }
      }
    }
  }

  lemma {:induction false} RepairNotLonger(ms: seq<Message>, dropping: bool)
    ensures |RepairFrom(ms, dropping)| <= |ms|
  {
    if ms == [] {
    } else {
      RepairNotLonger(ms[1..], Drops(ms, dropping));
    }
  }

  // ----- messages the reader refuses do not matter -----

  lemma ResultsIgnoreInvalid(rest: seq<Message>, id: Bytes)
    ensures HasToolResult(Filter(rest, IsValid), id) == HasToolResult(rest, id)
  {
    if rest != [] {
      ResultsIgnoreInvalid(rest[1..], id);
      var here := if IsValid(rest[0]) then [rest[0]] else [];
      var more := Filter(rest[1..], IsValid);
      assert Filter(rest, IsValid) == here + more;
      if !IsValid(rest[0]) {
        InvalidCarriesNothing(rest[0]);
      }
      HasToolResultAppend(here, more, id);
      HasToolResultAppend([rest[0]], rest[1..], id);
      assert rest == [rest[0]] + rest[1..];
    }
  }

  lemma HasToolResultAppend(xs: seq<Message>, ys: seq<Message>, id: Bytes)
    ensures HasToolResult(xs + ys, id) == (HasToolResult(xs, id) || HasToolResult(ys, id))
  {
    if HasToolResult(xs, id) {
      var j :| 0 <= j < |xs| && Answers(xs[j], id);
      assert Answers((xs + ys)[j], id);
    }
    if HasToolResult(ys, id) {
      var j :| 0 <= j < |ys| && Answers(ys[j], id);
      assert Answers((xs + ys)[|xs| + j], id);
    }
  }

  lemma DanglingIgnoresInvalid(m: Message, rest: seq<Message>)
    ensures Dangling(m, Filter(rest, IsValid)) == Dangling(m, rest)
  {
    forall k | 0 <= k < |Calls(m)| && Calls(m)[k].id.Some?
      ensures HasToolResult(Filter(rest, IsValid), Calls(m)[k].id.value) == HasToolResult(rest, Calls(m)[k].id.value)
    {
      ResultsIgnoreInvalid(rest, Calls(m)[k].id.value);
    }
  }

  /** Repairing before or after the validity filter is the same: the writer's
      count repairs the batch unfiltered, the reader repairs what it filtered. */
  lemma {:induction false} RepairFilterCommute(ms: seq<Message>, dropping: bool)
    ensures RepairFrom(Filter(ms, IsValid), dropping) == Filter(RepairFrom(ms, dropping), IsValid)
  {
    hide Dangling, OpensTurn, IsValid;
    if ms == [] {
    } else {
      var m, rest := ms[0], ms[1..];
      var d := Drops(ms, dropping);
      DanglingIgnoresInvalid(m, rest);
      var kept := RepairFrom(rest, d);
      FilterOne(m, IsValid);
      FilterAppend(if d then [] else [m], kept, IsValid);
      if IsValid(m) {
        var fs := Filter(ms, IsValid);
        assert fs[0] == m && fs[1..] == Filter(rest, IsValid);
        assert Drops(fs, dropping) == d;
        RepairFilterCommute(rest, d);
      } else {
        InvalidNeverDrops(ms, dropping);
        assert Filter(ms, IsValid) == Filter(rest, IsValid);
        RepairFilterCommute(rest, dropping);
      }
    }
  }

  lemma InvalidNeverDrops(ms: seq<Message>, dropping: bool)
    requires ms != [] && !IsValid(ms[0])
    ensures Drops(ms, dropping) == dropping
  {
    InvalidCarriesNothing(ms[0]);
  }

  // ----- the loop -----

  function Indices(n: nat): (r: seq<nat>)
    ensures |r| == n
  {
    seq(n, i => i)
  }

  /** `flags[i..]` are the walk's flags from `i` on, entered with `dropping`. */
  ghost predicate FlagsFrom(ms: seq<Message>, flags: seq<bool>, i: nat, dropping: bool) {
    i <= |ms| == |flags| && flags[i..] == KeepFlags(ms[i..], dropping)
  }

  lemma FlagsStep(ms: seq<Message>, flags: seq<bool>, i: nat, dropping: bool, d: bool)
    requires i < |ms| && FlagsFrom(ms, flags, i, dropping)
    requires d == (Dangling(ms[i], ms[i + 1..]) || (dropping && !OpensTurn(ms[i])))
    ensures flags[i] == !d && FlagsFrom(ms, flags, i + 1, d)
  {
    assert ms[i..][0] == ms[i] && ms[i..][1..] == ms[i + 1..];
    assert flags[i..][0] == flags[i] && flags[i..][1..] == flags[i + 1..];
  }

  /** Where the run that starts with the dangling call at `i` ends: at the next opener. */
  method RunEnd(messages: seq<Message>, i: nat, ghost flags: seq<bool>) returns (end: nat)
    requires i < |messages| && FlagsFrom(messages, flags, i, false)
    requires Dangling(messages[i], messages[i + 1..])
    ensures i < end <= |messages| && FlagsFrom(messages, flags, end, false)
    ensures forall k :: i <= k < end ==> !flags[k]
  {
    end := i + 1;
    FlagsStep(messages, flags, i, false, true);
    while end < |messages| && !OpensTurn(messages[end])
      invariant i < end <= |messages|
      invariant FlagsFrom(messages, flags, end, true)
      invariant forall k :: i <= k < end ==> !flags[k]
    {
      FlagsStep(messages, flags, end, true, true);
      end := end + 1;
    }
    OpenerClearsFlag(messages[end..]);
  }

  /** The walk over the messages, run by run, as the repair does it. */
  method MarkDropped(messages: seq<Message>) returns (keep: seq<bool>)
    ensures keep == KeepFlags(messages, false)
  {
    keep := [];
    ghost var flags := KeepFlags(messages, false);
    assert flags[0..] == flags && messages[0..] == messages;
    var i := 0;
    while i < |messages|
      invariant |keep| == i && FlagsFrom(messages, flags, i, false)
      invariant forall k :: 0 <= k < i ==> keep[k] == flags[k]
    {
      if !Dangling(messages[i], messages[i + 1..]) {
        FlagsStep(messages, flags, i, false, false);
        keep := keep + [true];
        i := i + 1;
      } else {
        var end := RunEnd(messages, i, flags);
        keep := keep + seq(end - i, _ => false);
        i := end;
      }
    }
  }

  /** At an opener, or at the end, the incoming flag makes no difference. */
  lemma OpenerClearsFlag(ms: seq<Message>)
    requires StartsWithOpener(ms)
    ensures KeepFlags(ms, true) == KeepFlags(ms, false)
  {
  }

  lemma SelectNone<T>()
    ensures Select<T>([], []) == []
  {
  }

  lemma SelectSnoc<T>(xs: seq<T>, keep: seq<bool>, x: T, k: bool)
    requires |xs| == |keep|
    ensures Select(xs + [x], keep + [k]) == Select(xs, keep) + if k then [x] else []
  {
    if xs == [] {
      assert xs + [x] == [x] && keep + [k] == [k];
      assert [x][1..] == [] && [k][1..] == [];
    } else {
      assert (xs + [x])[1..] == xs[1..] + [x];
      assert (keep + [k])[1..] == keep[1..] + [k];
      SelectSnoc(xs[1..], keep[1..], x, k);
    }
  }

  lemma SelectNext<T>(xs: seq<T>, keep: seq<bool>, i: nat)
    requires i < |xs| == |keep|
    ensures Select(xs[..i + 1], keep[..i + 1]) == Select(xs[..i], keep[..i]) + if keep[i] then [xs[i]] else []
  {
    SelectSnoc(xs[..i], keep[..i], xs[i], keep[i]);
    assert xs[..i + 1] == xs[..i] + [xs[i]] && keep[..i + 1] == keep[..i] + [keep[i]];
  }

  /** The repaired messages and, for each, its index in the input. */
  method RepairDanglingToolCalls(messages: seq<Message>) returns (out: seq<Message>, origin: seq<nat>)
    ensures out == Repair(messages)
    ensures origin == Select<nat>(Indices(|messages|), KeepFlags(messages, false))
    ensures |origin| == |out|
    ensures forall k :: 0 <= k < |origin| ==> origin[k] < |messages| && messages[origin[k]] == out[k]
    ensures forall j, k :: 0 <= j < k < |origin| ==> origin[j] < origin[k]
  {
    var keep := MarkDropped(messages);
    RepairSelects(messages, false);
    SelectNone<Message>();
    SelectNone<nat>();
    hide KeepFlags, Select;
    ghost var indices := Indices(|messages|);
    out, origin := [], [];
    for index := 0 to |messages|
      invariant |keep| == |messages| && |origin| == |out|
      invariant out == Select(messages[..index], keep[..index])
      invariant origin == Select<nat>(indices[..index], keep[..index])
      invariant forall k :: 0 <= k < |origin| ==> origin[k] < index && messages[origin[k]] == out[k]
      invariant forall j, k :: 0 <= j < k < |origin| ==> origin[j] < origin[k]
    {
      SelectNext(messages, keep, index);
      SelectNext<nat>(indices, keep, index);
      if keep[index] {
        out := out + [messages[index]];
        origin := origin + [index];
      }
    }
    assert messages[..|messages|] == messages && keep[..|messages|] == keep;
    assert indices[..|messages|] == indices;
  }

  /** The origin map realigns any per-message data with the kept messages. */
  lemma {:induction false} OriginRealigns<T>(xs: seq<T>, keep: seq<bool>, i: nat)
    requires i <= |xs| == |keep|
    ensures var origin := Select<nat>(Indices(|xs|)[..i], keep[..i]);
            var kept := Select(xs[..i], keep[..i]);
            && |origin| == |kept|
            && forall k :: 0 <= k < |origin| ==> origin[k] < |xs| && kept[k] == xs[origin[k]]
  {
    if i > 0 {
      OriginRealigns(xs, keep, i - 1);
      SelectNext(xs, keep, i - 1);
      SelectNext<nat>(Indices(|xs|), keep, i - 1);
    }
  }
}
