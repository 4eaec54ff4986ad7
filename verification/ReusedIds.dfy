/** A turn that reuses the id of a call left dangling, and answers it: the one way
    a later turn changes what an earlier one reads back as. */
module ReusedIds {
  import opened Basics
  import opened Messages
  import opened ToolCallRepair
  import opened RepairSafety
  import Depth
  import opened Codec
  import opened Session
  import opened Anchors
  import opened AnchorRuns

  /** A run of saves only stores no anchor. */
  lemma {:induction false} SavesStoreNoAnchor(env: Env, steps: seq<Step>)
    requires env.blockSize > 0 && forall k :: 0 <= k < |steps| ==> steps[k].SaveTurn? || steps[k].SaveTokens?
    ensures var w := RunSteps(env, steps);
            (w.session.None? || w.session == Some(Anchors(None, None)))
            && (SaveTokens in steps ==> w.session.Some?)
  {
    hide Save;
    if steps == [] {
    } else {
      var before, last := steps[..|steps| - 1], steps[|steps| - 1];
      assert steps == before + [last];
      SavesStoreNoAnchor(env, before);
      if last.SaveTurn? {
        SaveKeepsAnchors(env, RunSteps(env, before), last.batch, last.mtime);
      }
    }
  }

  /** Without an anchor a full load returns what is held, read back. */
  lemma FullLoadReadsAll(env: Env, w: World, all: seq<Message>)
    requires Lawful(env.codec) && env.blockSize > 0 && Inv(env, w, all) && all != []
    requires w.session.Some? && FullOffset(w) == 0 && HasAssistant(ReadBack(all))
    ensures Load(env, w, Full).1 == ReadBack(all)
  {
    AnchorsNeverRejected(env, w, all);
    WholeReads(env, w, all);
    LoadDeletesIff(env, w, all, Full);
    hide Lawful, ReadWholeValue, ReadFromValue, HasAssistant, ReadBack, GoodAnchors, GoodTurn;
  }

  /** The turns: an answered one, one cut off in a call, and one that makes the
      same call again and answers it. */
  ghost predicate Reuses(user: Message, reply: Message, call: Message, answer: Message) {
    && OpensTurn(user) && OpensRestartBoundary(user)
    && reply.role == Assistant && IsValid(reply) && Calls(reply) == []
    && call.role == Assistant && IsValid(call) && Dangling(call, []) && !Dangling(call, [answer])
    && answer.role == Tool
  }

  lemma ReusedReadBack(user: Message, reply: Message, call: Message, answer: Message)
    requires Reuses(user, reply, call, answer)
    ensures ReadBack([user, reply, user, call]) == [user, reply, user]
    ensures ReadBack([user, call, answer]) == [user, call, answer]
    ensures var all := [user, reply, user, call, user, call, answer]; ReadBack(all) == all
  {
    assert IsValid(user) && IsValid(answer);
    hide IsValid, RepairFrom, NoDangling, Filter, OpensTurn, OpensRestartBoundary, Dangling, Calls;
    var third := [user, call, answer];
    var all := [user, reply, user, call] + third;
    assert all == [user, reply, user, call, user, call, answer];
    DanglingTailRead(user, reply, call);
    FilterAll([user, reply, user, call], IsValid);
    ThirdIsClean(user, call, answer);
    AllIsClean(user, reply, call, answer);
    CleanTurnsReadBackExactly(third);
    CleanTurnsReadBackExactly(all);
  }

  lemma DanglingTailRead(user: Message, reply: Message, call: Message)
    requires OpensTurn(user) && reply.role == Assistant && Calls(reply) == []
    requires call.role == Assistant && Dangling(call, [])
    ensures Repair([user, reply, user, call]) == [user, reply, user]
  {
    Depth.DanglingTailRepaired(user, reply, call);
  }

  lemma ThirdIsClean(user: Message, call: Message, answer: Message)
    requires OpensTurn(user) && answer.role == Tool && !Dangling(call, [answer])
    ensures NoDangling([user, call, answer])
  {
    var third, none: seq<Message> := [user, call, answer], [];
    assert third[1..] == [call, answer] && [call, answer][1..] == [answer] && [answer][1..] == none;
    OnlyAssistantsDangle(user, answer, [call, answer]);
    hide Dangling, OpensTurn;
    NoDanglingCons([answer]);
    NoDanglingCons([call, answer]);
    NoDanglingCons(third);
  }

  lemma AllIsClean(user: Message, reply: Message, call: Message, answer: Message)
    requires Reuses(user, reply, call, answer)
    ensures NoDangling([user, reply, user, call] + [user, call, answer])
  {
    var third := [user, call, answer];
    ThirdIsClean(user, call, answer);
    AnsweredLater(user, call, answer);
    assert user.role == User && forall rest: seq<Message> :: !Dangling(user, rest) && !Dangling(reply, rest);
    hide Dangling, OpensTurn, Reuses;
    assert ([call] + third)[1..] == third;
    NoDanglingCons([call] + third);
    assert ([user] + ([call] + third))[1..] == [call] + third;
    NoDanglingCons([user] + ([call] + third));
    assert ([reply] + ([user] + ([call] + third)))[1..] == [user] + ([call] + third);
    NoDanglingCons([reply] + ([user] + ([call] + third)));
    var all := [user, reply, user, call] + third;
    assert all[0] == user && all[1..] == [reply] + ([user] + ([call] + third));
    NoDanglingCons(all);
  }

  lemma AnsweredLater(user: Message, call: Message, answer: Message)
    requires call.role == Assistant && !Dangling(call, [answer])
    ensures !Dangling(call, [user, call, answer])
  {
    MoreAnswers(call, call, answer);
    forall id | HasToolResult([call, answer], id) ensures HasToolResult([user, call, answer], id) {
      HasToolResultAppend([user], [call, answer], id);
      assert [user] + [call, answer] == [user, call, answer];
    }
    DanglingMeans(call, [call, answer]);
    DanglingMeans(call, [user, call, answer]);
    hide HasToolResult, Dangling;
  }

  /** Two answered and dangling turns, and the one that reuses the call. */
  function ReusingRun(user: Message, reply: Message, call: Message, mtime: nat): seq<Step> {
    [SaveTokens, SaveTurn([user, reply], mtime), SaveTurn([user, call], mtime)]
  }

  /** The next prior is then not the last prior and the turn behind it: the call
      that had been dropped is back. */
  lemma ReuseRevivesDroppedCall(env: Env, user: Message, reply: Message, call: Message, answer: Message, mtime: nat)
    requires Lawful(env.codec) && env.blockSize > 0 && Reuses(user, reply, call, answer)
    ensures var steps, batch := ReusingRun(user, reply, call, mtime), [user, call, answer];
            && Load(env, RunSteps(env, steps), Full).1 == [user, reply, user]
            && ReadBack(batch) == batch
            && Load(env, RunSteps(env, steps + [SaveTurn(batch, mtime)]), Full).1
               == [user, reply, user, call, user, call, answer]
  {
    var steps, batch := ReusingRun(user, reply, call, mtime), [user, call, answer];
    ReusedReadBack(user, reply, call, answer);
    RunIsAnswered(user, reply, call, answer, mtime);
    hide Lawful, RunSteps, ReadBack, Load, Inv, AnsweredRun, Written, Held, Reuses;
    LoadOfAnsweredRun(env, steps);
    LoadOfAnsweredRun(env, steps + [SaveTurn(batch, mtime)]);
  }

  lemma LoadOfAnsweredRun(env: Env, steps: seq<Step>)
    requires Lawful(env.codec) && env.blockSize > 0 && AnsweredRun(steps) && Written(steps) != []
    requires SaveTokens in steps && forall k :: 0 <= k < |steps| ==> steps[k].SaveTurn? || steps[k].SaveTokens?
    ensures Load(env, RunSteps(env, steps), Full).1 == ReadBack(Written(steps))
  {
    hide Lawful, RunSteps, ReadBack, Load, Inv, AnsweredRun, Written, Held, HasAssistant, LegalRun;
    AnsweredRunsKeepAll(env, steps);
    RunInvariant(env, steps);
    SavesStoreNoAnchor(env, steps);
    FullLoadReadsAll(env, RunSteps(env, steps), Written(steps));
  }

  lemma RunIsAnswered(user: Message, reply: Message, call: Message, answer: Message, mtime: nat)
    requires Reuses(user, reply, call, answer)
    ensures var steps, batch := ReusingRun(user, reply, call, mtime), [user, call, answer];
            && AnsweredRun(steps) && AnsweredRun(steps + [SaveTurn(batch, mtime)])
            && Written(steps) == [user, reply, user, call]
            && Written(steps + [SaveTurn(batch, mtime)]) == [user, reply, user, call, user, call, answer]
  {
    AnsweredTurnReads(user, reply);
    var steps, batch := ReusingRun(user, reply, call, mtime), [user, call, answer];
    var next := SaveTurn(batch, mtime);
    var none: seq<Step> := [];
    hide OpensTurn, OpensRestartBoundary, ReadBack, HasAssistant;
    var one, two := [SaveTokens], [SaveTokens, SaveTurn([user, reply], mtime)];
    assert one[..0] == none && two[..1] == one && steps[..2] == two;
    assert Written(none) == [] && AnsweredRun(none);
    assert Written(one) == [] && AnsweredRun(one);
    assert Written(two) == [user, reply] && AnsweredRun(two);
    assert Written(steps) == [user, reply] + [user, call] && AnsweredRun(steps);
    assert (steps + [next])[..|steps|] == steps;
  }

  lemma AnsweredTurnReads(user: Message, reply: Message)
    requires OpensTurn(user) && reply.role == Assistant && IsValid(reply) && Calls(reply) == []
    ensures HasAssistant(ReadBack([user, reply]))
  {
    var pair, none: seq<Message> := [user, reply], [];
    assert IsValid(user);
    FilterAll(pair, IsValid);
    assert pair[1..] == [reply] && [reply][1..] == none;
    assert user.role == User && !Drops(pair, false) && !Drops([reply], false);
    hide IsValid, OpensTurn, Dangling, Calls;
    assert RepairFrom(none, false) == [];
    assert RepairFrom([reply], false) == [reply];
    assert RepairFrom(pair, false) == pair;
    assert pair[1].role == Assistant;
  }

  /** There are such messages. */
  lemma ReuseExists()
    ensures exists user: Message, reply: Message, call: Message, answer: Message :: Reuses(user, reply, call, answer)
  {
    var hi: Bytes := [104];
    var user := Message(User, Str(hi), [], None, None);
    var reply := Message(Assistant, Str(hi), [], None, None);
    var call := Message(Assistant, NoContent, [ToolCall(Some(hi), hi, Scalar([]))], None, None);
    var answer := Message(Tool, Str(hi), [], Some(hi), None);
    assert Calls(call) == call.toolCalls && Calls(call)[0].id == Some(hi) && Calls(reply) == [];
    assert !HasToolResult([], hi) && Answers([answer][0], hi);
    assert Reuses(user, reply, call, answer);
  }
}
