/** How much of the journal a caller asks for, and why a scan may stop as soon
    as the tail covers it. */
module Depth {
  import opened Basics
  import opened Messages
  import opened ToolCallRepair
  import opened Turns

  /** `PriorDepth`: everything, or the last `pairs` answered turns and the last
      `openers` turn openers. */
  datatype PriorDepth = All | Window(pairs: nat, openers: nat)

  /** The tail already holds what was asked for. */
  predicate Satisfied(ms: seq<Message>, depth: PriorDepth) {
    match depth
    case All => false
    case Window(pairs, openers) =>
      (pairs == 0 || TurnCount(ms) >= pairs) && CountOpeners(ms) >= openers
  }

  function SliceStart(ms: seq<Message>, depth: PriorDepth): (start: nat)
    ensures start <= |ms|
  {
    match depth
    case All => 0
    case Window(pairs, openers) => Min(TailStart(ms, pairs), OpenersStart(ms, openers))
  }

  function Slice(ms: seq<Message>, depth: PriorDepth): seq<Message> {
    ms[SliceStart(ms, depth)..]
  }

  // ----- counts over a concatenation -----

  lemma {:induction false} LeadAppend(xs: seq<Message>, ys: seq<Message>)
    requires StartsWithOpener(ys)
    ensures Lead(xs + ys) == Lead(xs)
  {
    hide OpensTurn, KeepsTurnAlive;
    if xs == [] {
      assert xs + ys == ys;
    } else {
      assert (xs + ys)[0] == xs[0] && (xs + ys)[1..] == xs[1..] + ys;
      LeadAppend(xs[1..], ys);
    }
  }

  /** Answered turns add up when the second part starts its own turn. */
  lemma {:induction false} TurnCountAppend(xs: seq<Message>, ys: seq<Message>)
    requires StartsWithOpener(ys)
    ensures TurnCount(xs + ys) == TurnCount(xs) + TurnCount(ys)
  {
    hide OpensTurn, Lead;
    if xs == [] {
      assert xs + ys == ys;
    } else {
      assert (xs + ys)[0] == xs[0] && (xs + ys)[1..] == xs[1..] + ys;
      LeadAppend(xs[1..], ys);
      TurnCountAppend(xs[1..], ys);
    }
  }

  /** A refused message changes neither count. */
  lemma {:induction false} CountsIgnoreInvalid(ms: seq<Message>)
    ensures Lead(Filter(ms, IsValid)) == Lead(ms)
    ensures TurnCount(Filter(ms, IsValid)) == TurnCount(ms)
    ensures CountOpeners(Filter(ms, IsValid)) == CountOpeners(ms)
  {
    hide OpensTurn, KeepsTurnAlive, IsValid;
    if ms == [] {
    } else {
      CountsIgnoreInvalid(ms[1..]);
      if IsValid(ms[0]) {
        assert Filter(ms, IsValid)[0] == ms[0] && Filter(ms, IsValid)[1..] == Filter(ms[1..], IsValid);
      } else {
        InvalidCarriesNothing(ms[0]);
        assert Filter(ms, IsValid) == Filter(ms[1..], IsValid);
      }
    }
  }

  // ----- both starts depend on the suffix only -----

  lemma {:induction false} StartsBehindPrefix(xs: seq<Message>, ys: seq<Message>, k: nat)
    ensures TurnCount(xs + ys) >= TurnCount(ys) && CountOpeners(xs + ys) >= CountOpeners(ys)
    ensures k == 0 || TurnCount(ys) >= k ==> TailStart(xs + ys, k) == |xs| + TailStart(ys, k)
    ensures k == 0 || CountOpeners(ys) >= k ==> OpenersStart(xs + ys, k) == |xs| + OpenersStart(ys, k)
  {
    hide OpensTurn, Lead;
    if xs == [] {
      assert xs + ys == ys;
    } else {
      assert (xs + ys)[1..] == xs[1..] + ys;
      StartsBehindPrefix(xs[1..], ys, k);
    }
  }

  lemma {:induction false} StartsInPrefix(xs: seq<Message>, ys: seq<Message>, k: nat)
    requires k > 0
    ensures TurnCount(ys) < k ==> TailStart(ys, k) == 0 && TailStart(xs + ys, k) <= SatSub(|xs|, 1)
    ensures CountOpeners(ys) < k ==> OpenersStart(ys, k) == 0 && OpenersStart(xs + ys, k) <= SatSub(|xs|, 1)
  {
    hide OpensTurn, Lead;
    if xs == [] {
      assert xs + ys == ys;
    } else {
      assert (xs + ys)[1..] == xs[1..] + ys;
      StartsInPrefix(xs[1..], ys, k);
      if |xs| == 1 {
        assert xs[1..] + ys == ys;
      }
    }
  }

  /** A tail that covers the depth holds the whole slice, whatever precedes it. */
  lemma SliceOfCoveringTail(xs: seq<Message>, ys: seq<Message>, depth: PriorDepth)
    requires Satisfied(ys, depth)
    ensures Slice(xs + ys, depth) == Slice(ys, depth)
  {
    StartsBehindPrefix(xs, ys, depth.pairs);
    StartsBehindPrefix(xs, ys, depth.openers);
    DropAppend(xs, ys, SliceStart(ys, depth));
  }

  /** A tail that does not cover it is its own slice, and anything in front of
      it belongs to the longer slice. */
  lemma SliceOfShortTail(xs: seq<Message>, ys: seq<Message>, depth: PriorDepth)
    requires !Satisfied(ys, depth)
    ensures Slice(ys, depth) == ys
    ensures Slice(xs + ys, depth) == ys <==> xs == []
  {
    if depth.Window? {
      var short := if depth.pairs > 0 && TurnCount(ys) < depth.pairs then depth.pairs else depth.openers;
      StartsInPrefix([], ys, short);
      StartsInPrefix(xs, ys, short);
      assert [] + ys == ys;
      assert SliceStart(xs + ys, depth) <= SatSub(|xs|, 1);
      assert |Slice(xs + ys, depth)| == |xs| + |ys| - SliceStart(xs + ys, depth);
    }
    if xs == [] {
      assert xs + ys == ys;
    }
  }

  lemma DroppedPrefixCountsNothing(ws: seq<Message>, zs: seq<Message>)
    requires forall m :: m in ws ==> !OpensTurn(m)
    ensures TurnCount(ws + zs) == TurnCount(zs) && CountOpeners(ws + zs) == CountOpeners(zs)
  {
    hide OpensTurn, Lead;
    if ws == [] {
      assert ws + zs == zs;
    } else {
      assert (ws + zs)[1..] == ws[1..] + zs && (ws + zs)[0] == ws[0] && ws[0] in ws;
      DroppedPrefixCountsNothing(ws[1..], zs);
    }
  }

  lemma DroppedPrefixKeepsSatisfied(ws: seq<Message>, zs: seq<Message>, depth: PriorDepth)
    requires forall m :: m in ws ==> !OpensTurn(m)
    ensures Satisfied(ws + zs, depth) == Satisfied(zs, depth)
  {
    hide OpensTurn;
    DroppedPrefixCountsNothing(ws, zs);
  }

  /** Stopping at `newer` is sound when the repaired tail still covers the
      depth: the slice is the one the whole journal would give. */
  lemma EarlyStopIsSound(older: seq<Message>, newer: seq<Message>, depth: PriorDepth)
    requires Satisfied(Repair(newer), depth)
    ensures Slice(Repair(older + newer), depth) == Slice(Repair(newer), depth)
  {
    hide Satisfied, Slice, Drops, OpensTurn;
    var all := older + newer;
    RepairSplit(all, |older|, false);
    assert all[|older|..] == newer;
    var front, flag := KeptOfFirst(all, |older|, false), FlagAfter(all, |older|, false);
    var zs := RepairFrom(newer, flag);
    if flag {
      FlagEatsNoOpener(newer);
      var ws: seq<Message> :| (forall m :: m in ws ==> !OpensTurn(m)) && Repair(newer) == ws + zs;
      DroppedPrefixKeepsSatisfied(ws, zs, depth);
      SliceOfCoveringTail(ws, zs, depth);
    }
    SliceOfCoveringTail(front, zs, depth);
  }

  /** A slice that leaves something out starts at an opener. */
  lemma SliceStartsAtOpener(ms: seq<Message>, depth: PriorDepth)
    requires 0 < SliceStart(ms, depth) < |ms|
    ensures OpensTurn(ms[SliceStart(ms, depth)])
  {
    hide OpensTurn, Lead;
    var pairs, openers := depth.pairs, depth.openers;
    if TailStart(ms, pairs) == SliceStart(ms, depth) {
      assert pairs > 0;
      if TurnCount(ms) < pairs { TailStartShort(ms, pairs); }
      TailStartIsOpener(ms, pairs);
    } else {
      OpenersStartOpens(ms, openers);
    }
  }

  lemma {:induction false} OpenersStartOpens(ms: seq<Message>, k: nat)
    requires 0 < OpenersStart(ms, k) < |ms|
    ensures OpensTurn(ms[OpenersStart(ms, k)])
  {
    hide OpensTurn;
    if OpenersStart(ms[1..], k) > 0 {
      OpenersStartOpens(ms[1..], k);
    } else {
      OpenersStartAtFirst(ms[1..], k);
    }
  }

  lemma OpenersStartAtFirst(ms: seq<Message>, k: nat)
    requires k > 0 && CountOpeners(ms) >= k && OpenersStart(ms, k) == 0
    ensures OpensTurn(ms[0])
  {
    hide OpensTurn;
  }

  /** Two tails that differ only in what stands in front of `zs`, where `ws`
      opens no turn: the longer journal's slice is `ws + zs` only if it is the
      longer journal itself. */
  lemma SlicePastDropped(front: seq<Message>, ws: seq<Message>, zs: seq<Message>, depth: PriorDepth)
    requires (forall m :: m in ws ==> !OpensTurn(m)) && !Satisfied(ws + zs, depth)
    ensures Slice(front + zs, depth) == Slice(ws + zs, depth) <==> front + zs == ws + zs
  {
    hide OpensTurn, Satisfied, SliceStart;
    DroppedPrefixKeepsSatisfied(ws, zs, depth);
    SliceOfShortTail([], ws + zs, depth);
    SliceOfShortTail(front, zs, depth);
    var whole := front + zs;
    var start := SliceStart(whole, depth);
    if whole[start..] == ws + zs && 0 < start < |whole| {
      SliceStartsAtOpener(whole, depth);
      FirstBehind(whole, start, ws, zs);
    }
  }

  lemma FirstBehind(whole: seq<Message>, start: nat, ws: seq<Message>, zs: seq<Message>)
    requires start < |whole| && whole[start..] == ws + zs
    ensures ws != [] ==> whole[start] in ws
  {
    assert whole[start..][0] == whole[start];
  }

  /** Stopping at `newer` is sound exactly when the repaired tail covers the
      depth or nothing older changes what the repair leaves. */
  lemma EarlyStopIsSoundIff(older: seq<Message>, newer: seq<Message>, depth: PriorDepth)
    ensures Slice(Repair(older + newer), depth) == Slice(Repair(newer), depth)
       <==> Satisfied(Repair(newer), depth) || Repair(older + newer) == Repair(newer)
  {
    hide Satisfied, Slice, Drops, OpensTurn;
    if Satisfied(Repair(newer), depth) {
      EarlyStopIsSound(older, newer, depth);
    } else {
      var all := older + newer;
      RepairSplit(all, |older|, false);
      assert all[|older|..] == newer;
      var front, flag := KeptOfFirst(all, |older|, false), FlagAfter(all, |older|, false);
      var zs := RepairFrom(newer, flag);
      var ws: seq<Message> := [];
      if flag {
        FlagEatsNoOpener(newer);
        ws :| (forall m :: m in ws ==> !OpensTurn(m)) && Repair(newer) == ws + zs;
      } else {
        assert Repair(newer) == ws + zs;
      }
      SlicePastDropped(front, ws, zs, depth);
    }
  }

  /** The newest turn is a dangling call: the tail covers one answered turn,
      the repair takes the answer away, and the slice misses the older turn
      that the whole journal would give. */
  lemma DanglingTailDefeatsEarlyStop(user: Message, reply: Message, call: Message)
    requires OpensTurn(user) && reply.role == call.role == Assistant
    requires KeepsTurnAlive(reply) && KeepsTurnAlive(call)
    requires Calls(reply) == [] && Dangling(call, [])
    ensures var older, newer, depth := [user, reply], [user, call], Window(1, 1);
            && Satisfied(newer, depth)
            && Slice(Repair(newer), depth) == [user]
            && Slice(Repair(older + newer), depth) == [user, reply, user]
  {
    DanglingTailRepaired(user, reply, call);
    hide *;
    assert [user, reply] + [user, call] == [user, reply, user, call];
    AnsweredTurnSatisfies(user, call);
    UnansweredTurnIsSliced(user, reply);
  }

  lemma AnsweredTurnSatisfies(user: Message, reply: Message)
    requires OpensTurn(user) && !OpensTurn(reply) && reply.role == Assistant && KeepsTurnAlive(reply)
    ensures Satisfied([user, reply], Window(1, 1))
    ensures TurnCount([user, reply]) == 1 && Lead([reply])
  {
    hide OpensTurn, KeepsTurnAlive;
    var turn := [user, reply];
    assert turn[1..] == [reply] && [reply][1..] == [];
    assert Lead([reply]) && TurnCount([reply]) == 0;
  }

  lemma UnansweredTurnIsSliced(user: Message, reply: Message)
    requires OpensTurn(user) && !OpensTurn(reply) && reply.role == Assistant && KeepsTurnAlive(reply)
    ensures Slice([user], Window(1, 1)) == [user]
    ensures Slice([user, reply, user], Window(1, 1)) == [user, reply, user]
  {
    hide OpensTurn, KeepsTurnAlive, Lead;
    assert [user][1..] == [];
    assert TurnCount([user]) == 0 by { NoLead(); }
    StartsInPrefix([], [user], 1);
    AnsweredTurnSatisfies(user, reply);
    assert [user, reply] + [user] == [user, reply, user];
    TurnCountAppend([user, reply], [user]);
    assert [user, reply, user][1..] == [reply] + [user];
    TurnCountAppend([reply], [user]);
    assert TurnCount([reply]) == 0 by { assert [reply][1..] == []; }
    assert TailStart([user, reply, user], 1) == 0;
  }

  lemma NoLead()
    ensures !Lead([])
  {
  }

  lemma DanglingTailRepaired(user: Message, reply: Message, call: Message)
    requires OpensTurn(user) && reply.role == call.role == Assistant
    requires Calls(reply) == [] && Dangling(call, [])
    ensures !OpensTurn(reply) && !OpensTurn(call)
    ensures Repair([user, call]) == [user] && Repair([user, reply, user, call]) == [user, reply, user]
  {
    var newer, all := [user, call], [user, reply, user, call];
    assert !Dangling(user, [call]) && !Dangling(user, [reply, user, call]) && !Dangling(reply, [user, call]);
    hide OpensTurn, Dangling, Calls;
    assert newer[1..] == [call] && [call][1..] == [];
    assert all[1..] == [reply, user, call] && all[1..][1..] == newer;
    assert RepairFrom([call], false) == [];
    assert Repair(newer) == [user] + RepairFrom([call], false) == [user];
    assert RepairFrom(all[1..], false) == [reply] + Repair(newer);
    assert Repair(all) == [user] + RepairFrom(all[1..], false) == [user, reply, user];
  }
}
