/** The repair told of the messages as they are stored: which are dropped, and
    when every call that is left has its result. */
module WireSafety {
  import opened Basics
  import opened Messages
  import opened MessageContents
  import opened ToolCallRepair
  import opened RepairSafety

  /** Message `d` is an assistant with a call whose id no later message answers. */
  ghost predicate Unanswered(ms: seq<Message>, d: nat)
    requires d < |ms|
  {
    && ms[d].role == Assistant
    && exists call: ToolCall :: Makes(ms[d], call) && call.id.Some? && NoResultBehind(ms, d, call.id.value)
  }

  ghost predicate NoResultBehind(ms: seq<Message>, d: nat, id: Bytes) {
    forall j :: d < j < |ms| ==> !IsResultOf(ms[j], id)
  }

  /** What the provider asks for: every tool call, in either wire shape, has its
      result behind it. */
  ghost predicate EveryCallAnswered(ms: seq<Message>) {
    forall d :: 0 <= d < |ms| ==> !Unanswered(ms, d)
  }

  lemma ResultBehindIff(ms: seq<Message>, d: nat, id: Bytes)
    requires d < |ms|
    ensures HasToolResult(ms[d + 1..], id) <==> !NoResultBehind(ms, d, id)
  {
    hide Answers, IsResultOf;
    var rest := ms[d + 1..];
    forall m: Message ensures Answers(m, id) <==> IsResultOf(m, id) {
      AnswersIff(m, id);
    }
    forall j | d < j < |ms| ensures ms[j] == rest[j - d - 1] {
    }
    if HasToolResult(rest, id) {
      var j :| 0 <= j < |rest| && Answers(rest[j], id);
      assert IsResultOf(ms[j + d + 1], id);
    }
    if !NoResultBehind(ms, d, id) {
      var j :| d < j < |ms| && IsResultOf(ms[j], id);
      assert Answers(rest[j - d - 1], id);
    }
  }

  lemma UnansweredIff(ms: seq<Message>, d: nat)
    requires d < |ms|
    ensures Unanswered(ms, d) <==> Dangling(ms[d], ms[d + 1..])
  {
    hide Dangling, CallsId, Makes, HasToolResult, NoResultBehind;
    DanglingMeans(ms[d], ms[d + 1..]);
    forall id: Bytes
      ensures CallsId(ms[d], id) <==> exists call: ToolCall :: Makes(ms[d], call) && call.id == Some(id)
      ensures HasToolResult(ms[d + 1..], id) <==> !NoResultBehind(ms, d, id)
    {
      CallsIdIff(ms[d], id);
      ResultBehindIff(ms, d, id);
    }
    if Unanswered(ms, d) {
      var call: ToolCall :| Makes(ms[d], call) && call.id.Some? && NoResultBehind(ms, d, call.id.value);
      assert CallsId(ms[d], call.id.value) && !HasToolResult(ms[d + 1..], call.id.value);
    }
  }

  /** Message `j` goes with an unanswered call at or in front of it in its turn. */
  ghost predicate GoesWithCall(ms: seq<Message>, j: nat)
    requires j < |ms|
  {
    exists d :: 0 <= d <= j && Unanswered(ms, d) && NoOpenerIn(ms, d + 1, j)
  }

  lemma GoesWithCallIff(ms: seq<Message>, j: nat)
    requires j < |ms|
    ensures GoesWithCall(ms, j) <==> InDroppedRun(ms, j)
  {
    hide Dangling, Unanswered, NoOpenerIn;
    forall d | 0 <= d < |ms| ensures Unanswered(ms, d) <==> Dangling(ms[d], ms[d + 1..]) {
      UnansweredIff(ms, d);
    }
  }

  /** The repair drops exactly the messages from an unanswered call to the end
      of its turn; the others stay, in order. */
  lemma DroppedIff(ms: seq<Message>)
    ensures |KeepFlags(ms, false)| == |ms| && Repair(ms) == Select(ms, KeepFlags(ms, false))
    ensures forall j :: 0 <= j < |ms| ==> (KeepFlags(ms, false)[j] <==> !GoesWithCall(ms, j))
  {
    hide KeepFlags, InDroppedRun, GoesWithCall, Select;
    RepairSelects(ms, false);
    forall j | 0 <= j < |ms| ensures KeepFlags(ms, false)[j] <==> !GoesWithCall(ms, j) {
      FlagsMean(ms, false, j);
      GoesWithCallIff(ms, j);
    }
  }

  /** Every call that stays has a result that stays. */
  ghost predicate ResultsStay(ms: seq<Message>) {
    forall i, call: ToolCall ::
      0 <= i < |ms| && ms[i].role == Assistant && Makes(ms[i], call) && call.id.Some? && !GoesWithCall(ms, i) ==>
        exists j :: i < j < |ms| && IsResultOf(ms[j], call.id.value) && !GoesWithCall(ms, j)
  }

  lemma NoDanglingIff(ms: seq<Message>)
    ensures EveryCallAnswered(ms) <==> NoDangling(ms)
  {
    hide Dangling, Unanswered;
    forall d | 0 <= d < |ms| ensures Unanswered(ms, d) <==> Dangling(ms[d], ms[d + 1..]) {
      UnansweredIff(ms, d);
    }
  }

  lemma ResultsStayIff(ms: seq<Message>)
    ensures ResultsStay(ms) <==> AnsweredOutsideRuns(ms)
  {
    hide CallsId, Makes, Answers, IsResultOf, InDroppedRun, GoesWithCall;
    forall m: Message, id: Bytes
      ensures Answers(m, id) <==> IsResultOf(m, id)
      ensures CallsId(m, id) <==> exists call: ToolCall :: Makes(m, call) && call.id == Some(id)
    {
      AnswersIff(m, id);
      CallsIdIff(m, id);
    }
    forall j | 0 <= j < |ms| ensures GoesWithCall(ms, j) <==> InDroppedRun(ms, j) {
      GoesWithCallIff(ms, j);
    }
    if AnsweredOutsideRuns(ms) {
      forall i, call: ToolCall |
        0 <= i < |ms| && ms[i].role == Assistant && Makes(ms[i], call) && call.id.Some? && !GoesWithCall(ms, i)
        ensures exists j :: i < j < |ms| && IsResultOf(ms[j], call.id.value) && !GoesWithCall(ms, j)
      {
        assert CallsId(ms[i], call.id.value);
        var j :| i < j < |ms| && Answers(ms[j], call.id.value) && !InDroppedRun(ms, j);
        assert IsResultOf(ms[j], call.id.value);
      }
    }
    if ResultsStay(ms) {
      forall i, id | 0 <= i < |ms| && ms[i].role == Assistant && CallsId(ms[i], id) && !InDroppedRun(ms, i)
        ensures exists j :: i < j < |ms| && Answers(ms[j], id) && !InDroppedRun(ms, j)
      {
        var call: ToolCall :| Makes(ms[i], call) && call.id == Some(id);
        var j :| i < j < |ms| && IsResultOf(ms[j], id) && !GoesWithCall(ms, j);
        assert Answers(ms[j], id);
      }
    }
  }

  /** In the repaired context every call has its result behind it exactly when,
      in the context as it was, every call that stays has a result that stays. */
  lemma RepairedIsAnsweredIff(ms: seq<Message>)
    ensures EveryCallAnswered(Repair(ms)) <==> ResultsStay(ms)
  {
    hide EveryCallAnswered, ResultsStay, NoDangling, AnsweredOutsideRuns, Repair;
    NoDanglingIff(Repair(ms));
    ResultsStayIff(ms);
    RepairLeavesNoneIff(ms);
  }
}
