/** Whether the repair does what it is for: a context without a dangling call. */
module RepairSafety {
  import opened Basics
  import opened Messages
  import opened ToolCallRepair

  /** `j` lies in the rest of a turn that a dangling call ended. */
  ghost predicate InDroppedRun(ms: seq<Message>, j: nat)
    requires j < |ms|
  {
    exists d :: 0 <= d <= j && Dangling(ms[d], ms[d + 1..]) && NoOpenerIn(ms, d + 1, j)
  }

  predicate NoOpenerIn(ms: seq<Message>, from: nat, to: nat)
    requires to < |ms|
  {
    forall k :: from <= k <= to ==> !OpensTurn(ms[k])
  }

  lemma RunShifts(ms: seq<Message>, j: nat)
    requires 0 < j < |ms|
    ensures InDroppedRun(ms, j) <==> InDroppedRun(ms[1..], j - 1) || (Dangling(ms[0], ms[1..]) && NoOpenerIn(ms, 1, j))
    ensures NoOpenerIn(ms[1..], 0, j - 1) == NoOpenerIn(ms, 1, j)
  {
    hide Dangling, OpensTurn;
    var rest := ms[1..];
    forall d | 0 <= d < j ensures rest[d] == ms[d + 1] && rest[d + 1..] == ms[d + 1 + 1..] {
    }
    assert forall k :: 1 <= k <= j ==> rest[k - 1] == ms[k];
    if InDroppedRun(ms, j) {
      var d :| 0 <= d <= j && Dangling(ms[d], ms[d + 1..]) && NoOpenerIn(ms, d + 1, j);
      if d > 0 { assert Dangling(rest[d - 1], rest[d - 1 + 1..]) && NoOpenerIn(rest, d, j - 1); }
    }
    if InDroppedRun(rest, j - 1) {
      var d :| 0 <= d <= j - 1 && Dangling(rest[d], rest[d + 1..]) && NoOpenerIn(rest, d + 1, j - 1);
      assert Dangling(ms[d + 1], ms[d + 1 + 1..]) && NoOpenerIn(ms, d + 2, j);
    }
    if Dangling(ms[0], ms[1..]) && NoOpenerIn(ms, 1, j) {
      assert Dangling(ms[0], ms[0 + 1..]) && NoOpenerIn(ms, 0 + 1, j);
    }
  }

  /** The walk drops exactly the runs that dangling calls start. */
  lemma {:induction false} FlagsMean(ms: seq<Message>, dropping: bool, j: nat)
    requires j < |ms|
    ensures KeepFlags(ms, dropping)[j] <==> !InDroppedRun(ms, j) && !(dropping && NoOpenerIn(ms, 0, j))
  {
    hide Dangling, OpensTurn;
    if j == 0 {
      assert ms[0 + 1..] == ms[1..];
      assert InDroppedRun(ms, 0) <==> Dangling(ms[0], ms[0 + 1..]);
    } else {
      var d := Drops(ms, dropping);
      FlagsMean(ms[1..], d, j - 1);
      RunShifts(ms, j);
      assert NoOpenerIn(ms, 0, j) <==> !OpensTurn(ms[0]) && NoOpenerIn(ms, 1, j);
    }
  }

  /** An answer is in the repaired context when some kept message is one. */
  lemma {:induction false} KeptAnswers(ms: seq<Message>, dropping: bool, id: Bytes)
    ensures HasToolResult(RepairFrom(ms, dropping), id)
       <==> exists j :: 0 <= j < |ms| && KeepFlags(ms, dropping)[j] && Answers(ms[j], id)
  {
    hide Dangling, OpensTurn, Answers;
    if ms == [] {
    } else {
      var d := Drops(ms, dropping);
      var rest, flags, later := ms[1..], KeepFlags(ms, dropping), KeepFlags(ms[1..], d);
      KeptAnswers(rest, d, id);
      assert forall j :: 0 < j < |ms| ==> rest[j - 1] == ms[j] && later[j - 1] == flags[j];
      HasToolResultAppend(if d then [] else [ms[0]], RepairFrom(rest, d), id);
      assert HasToolResult([ms[0]], id) <==> Answers(ms[0], id) by { assert [ms[0]][0] == ms[0]; }
      if j :| 0 <= j < |rest| && later[j] && Answers(rest[j], id) {
        assert flags[j + 1] && Answers(ms[j + 1], id);
      }
      if j :| 0 <= j < |ms| && flags[j] && Answers(ms[j], id) {
        if j > 0 { assert later[j - 1] && Answers(rest[j - 1], id); }
      }
    }
  }

  ghost predicate AnsweredBehind(ms: seq<Message>, keep: seq<bool>, i: nat, id: Bytes)
    requires i < |ms| == |keep|
  {
    exists j :: i < j < |ms| && keep[j] && Answers(ms[j], id)
  }

  /** The call at `i`, if kept, has all its answers kept behind it. */
  ghost predicate AnsweredAt(ms: seq<Message>, keep: seq<bool>, i: nat)
    requires i < |ms| == |keep|
  {
    keep[i] && ms[i].role == Assistant ==>
      forall id :: CallsId(ms[i], id) ==> AnsweredBehind(ms, keep, i, id)
  }

  lemma DanglingMeans(m: Message, rest: seq<Message>)
    ensures Dangling(m, rest) <==> m.role == Assistant && exists id :: CallsId(m, id) && !HasToolResult(rest, id)
  {
    hide HasToolResult, Calls;
    if Dangling(m, rest) {
      var k :| 0 <= k < |Calls(m)| && Calls(m)[k].id.Some? && !HasToolResult(rest, Calls(m)[k].id.value);
      assert CallsId(m, Calls(m)[k].id.value);
    }
  }

  lemma AnsweredFirst(ms: seq<Message>, dropping: bool)
    requires ms != [] && !Drops(ms, dropping)
    ensures AnsweredAt(ms, KeepFlags(ms, dropping), 0) <==> !Dangling(ms[0], RepairFrom(ms[1..], false))
  {
    hide Dangling, CallsId, Answers, HasToolResult;
    var rest, flags, later := ms[1..], KeepFlags(ms, dropping), KeepFlags(ms[1..], false);
    DanglingMeans(ms[0], RepairFrom(rest, false));
    assert forall j :: 0 < j < |ms| ==> rest[j - 1] == ms[j] && later[j - 1] == flags[j];
    forall id ensures HasToolResult(RepairFrom(rest, false), id)
                 <==> exists j :: 0 < j < |ms| && flags[j] && Answers(ms[j], id)
    {
      KeptAnswers(rest, false, id);
      if j :| 0 <= j < |rest| && later[j] && Answers(rest[j], id) {
        assert flags[j + 1] && Answers(ms[j + 1], id);
      }
      if j :| 0 < j < |ms| && flags[j] && Answers(ms[j], id) {
        assert later[j - 1] && Answers(rest[j - 1], id);
      }
    }
  }

  lemma AnsweredShifts(ms: seq<Message>, keep: seq<bool>, i: nat)
    requires 0 < i < |ms| == |keep|
    ensures AnsweredAt(ms, keep, i) <==> AnsweredAt(ms[1..], keep[1..], i - 1)
  {
    hide CallsId, Answers;
    var rest, later := ms[1..], keep[1..];
    assert forall j :: 0 < j < |ms| ==> rest[j - 1] == ms[j] && later[j - 1] == keep[j];
    forall id ensures AnsweredBehind(ms, keep, i, id) <==> AnsweredBehind(rest, later, i - 1, id) {
      if j :| i < j < |ms| && keep[j] && Answers(ms[j], id) {
        assert later[j - 1] && Answers(rest[j - 1], id);
      }
      if j :| i - 1 < j < |rest| && later[j] && Answers(rest[j], id) {
        assert keep[j + 1] && Answers(ms[j + 1], id);
      }
    }
  }

  lemma {:induction false} RepairedIsAnswered(ms: seq<Message>, dropping: bool, flags: seq<bool>)
    requires flags == KeepFlags(ms, dropping)
    ensures NoDangling(RepairFrom(ms, dropping))
       <==> forall i :: 0 <= i < |ms| ==> AnsweredAt(ms, flags, i)
  {
    hide Dangling, AnsweredAt, OpensTurn;
    if ms != [] {
      var d := Drops(ms, dropping);
      assert flags[1..] == KeepFlags(ms[1..], d);
      RepairedIsAnswered(ms[1..], d, flags[1..]);
      forall i | 0 < i < |ms| ensures AnsweredAt(ms, flags, i) <==> AnsweredAt(ms[1..], flags[1..], i - 1) {
        AnsweredShifts(ms, flags, i);
      }
      AllShifted(ms, flags);
      if d {
        assert AnsweredAt(ms, flags, 0) by { DroppedIsAnswered(ms, flags); }
        assert RepairFrom(ms, dropping) == RepairFrom(ms[1..], d);
      } else {
        AnsweredFirst(ms, dropping);
        var out := RepairFrom(ms, dropping);
        assert out[0] == ms[0] && out[1..] == RepairFrom(ms[1..], d);
        NoDanglingCons(out);
      }
    } else {
      assert RepairFrom(ms, dropping) == [];
    }
  }

  lemma DroppedIsAnswered(ms: seq<Message>, keep: seq<bool>)
    requires 0 < |ms| == |keep| && !keep[0]
    ensures AnsweredAt(ms, keep, 0)
  {
  }

  lemma AllShifted(ms: seq<Message>, keep: seq<bool>)
    requires 0 < |ms| == |keep|
    requires forall i :: 0 < i < |ms| ==> (AnsweredAt(ms, keep, i) <==> AnsweredAt(ms[1..], keep[1..], i - 1))
    ensures (forall i :: 0 <= i < |ms| ==> AnsweredAt(ms, keep, i))
       <==> AnsweredAt(ms, keep, 0) && forall i :: 0 <= i < |ms[1..]| ==> AnsweredAt(ms[1..], keep[1..], i)
  {
    hide AnsweredAt;
    if forall i :: 0 <= i < |ms| ==> AnsweredAt(ms, keep, i) {
      forall i | 0 <= i < |ms[1..]| ensures AnsweredAt(ms[1..], keep[1..], i) {
        assert AnsweredAt(ms, keep, i + 1);
      }
    }
  }

  /** Every call outside the dropped runs has an answer outside them. */
  ghost predicate AnsweredOutsideRuns(ms: seq<Message>) {
    forall i, id :: 0 <= i < |ms| && ms[i].role == Assistant && CallsId(ms[i], id) && !InDroppedRun(ms, i) ==>
      exists j :: i < j < |ms| && Answers(ms[j], id) && !InDroppedRun(ms, j)
  }

  /** The repaired context has no dangling call, and a second repair changes
      nothing, exactly when no kept call loses its answer to a dropped run. */
  lemma RepairLeavesNoneIff(ms: seq<Message>)
    ensures NoDangling(Repair(ms)) <==> AnsweredOutsideRuns(ms)
    ensures NoDangling(Repair(ms)) <==> Repair(Repair(ms)) == Repair(ms)
  {
    hide InDroppedRun, NoDangling, AnsweredAt, AnsweredOutsideRuns;
    RepairIsIdentityIff(Repair(ms));
    var keep := KeepFlags(ms, false);
    RepairedIsAnswered(ms, false, keep);
    forall j | 0 <= j < |ms| ensures keep[j] <==> !InDroppedRun(ms, j) {
      FlagsMean(ms, false, j);
    }
    AnsweredByFlags(ms, keep);
  }

  lemma AnsweredByFlags(ms: seq<Message>, keep: seq<bool>)
    requires |keep| == |ms| && forall j :: 0 <= j < |ms| ==> (keep[j] <==> !InDroppedRun(ms, j))
    ensures AnsweredOutsideRuns(ms) <==> forall i :: 0 <= i < |ms| ==> AnsweredAt(ms, keep, i)
  {
    hide InDroppedRun, CallsId, Answers;
    if forall i :: 0 <= i < |ms| ==> AnsweredAt(ms, keep, i) {
      forall i, id | 0 <= i < |ms| && ms[i].role == Assistant && CallsId(ms[i], id) && !InDroppedRun(ms, i)
        ensures exists j :: i < j < |ms| && Answers(ms[j], id) && !InDroppedRun(ms, j)
      {
        assert AnsweredAt(ms, keep, i);
      }
    }
  }

  /** A call that is answered is answered before the next assistant message. */
  ghost predicate AnsweredInTime(ms: seq<Message>, i: nat)
    requires i < |ms|
  {
    ms[i].role == Assistant && !Dangling(ms[i], ms[i + 1..]) ==>
      forall id :: CallsId(ms[i], id) ==>
        exists j :: i < j < |ms| && Answers(ms[j], id) && forall k :: i < k < j ==> ms[k].role != Assistant
  }

  /** The agent writes a step's results before its next step; then one repair
      is always enough, whatever was cut off or lost. */
  lemma InTimeLeavesNone(ms: seq<Message>)
    requires forall i :: 0 <= i < |ms| ==> AnsweredInTime(ms, i)
    ensures NoDangling(Repair(ms))
  {
    hide CallsId, Repair, NoDangling;
    forall i, id | 0 <= i < |ms| && ms[i].role == Assistant && CallsId(ms[i], id) && !InDroppedRun(ms, i)
      ensures exists j :: i < j < |ms| && Answers(ms[j], id) && !InDroppedRun(ms, j)
    {
      assert NoOpenerIn(ms, i + 1, i);
      assert AnsweredInTime(ms, i);
      var j :| i < j < |ms| && Answers(ms[j], id) && forall k :: i < k < j ==> ms[k].role != Assistant;
      NotInLaterRun(ms, i, j);
    }
    RepairLeavesNoneIff(ms);
  }

  lemma NotInLaterRun(ms: seq<Message>, i: nat, j: nat)
    requires i < j < |ms| && !InDroppedRun(ms, i)
    requires ms[j].role != Assistant && forall k :: i < k < j ==> ms[k].role != Assistant
    ensures !InDroppedRun(ms, j)
  {
    hide Calls, HasToolResult, OpensTurn;
    forall d | 0 <= d <= j && Dangling(ms[d], ms[d + 1..]) ensures !NoOpenerIn(ms, d + 1, j) {
      assert d <= i;
      assert !NoOpenerIn(ms, d + 1, i);
    }
  }

  /** Without that order it is not: the drop of a later dangling call can take
      an earlier call's answer along, and the repaired context dangles again. */
  lemma RepairCanLeaveDangling(user: Message, first: Message, second: Message, answer: Message, id: Bytes)
    requires OpensTurn(user) && first.role == second.role == Assistant && answer.role == Tool
    requires CallsId(first, id) && Answers(answer, id)
    requires !Dangling(first, [answer]) && Dangling(second, [answer])
    ensures Repair([user, first, second, answer]) == [user, first]
    ensures !NoDangling(Repair([user, first, second, answer]))
  {
    var all := [user, first, second, answer];
    assert all[1..] == [first, second, answer] && all[1..][1..] == [second, answer];
    assert [second, answer][1..] == [answer] && [answer][1..] == [];
    assert !Dangling(first, [second, answer]) by { MoreAnswers(first, second, answer); }
    DanglingMeans(first, []);
    hide Dangling, OpensTurn, CallsId;
    assert !OpensTurn(first) && !OpensTurn(second) && !OpensTurn(answer) by { OnlyUsersOpen(first, second, answer); }
    assert !Dangling(user, [first, second, answer]) && !Dangling(answer, []) by {
      OnlyAssistantsDangle(user, answer, [first, second, answer]);
    }
    assert RepairFrom([answer], true) == RepairFrom([], true) == [];
    assert RepairFrom([second, answer], false) == [];
    assert RepairFrom([first, second, answer], false) == [first];
    var out := [user, first];
    assert Repair(all) == out;
    assert out[1 + 1..] == [];
    assert Dangling(out[1], out[1 + 1..]);
  }

  /** So one repair is not always enough. */
  lemma OneRepairCanFail()
    ensures exists ms: seq<Message> :: !NoDangling(Repair(ms)) && Repair(Repair(ms)) != Repair(ms)
  {
    var hi: Bytes, lost: Bytes := [104], [108];
    var user := Message(User, Str(hi), [], None, None);
    var first := Message(Assistant, NoContent, [ToolCall(Some(hi), hi, Scalar([]))], None, None);
    var second := Message(Assistant, NoContent, [ToolCall(Some(lost), hi, Scalar([]))], None, None);
    var answer := Message(Tool, Str(hi), [], Some(hi), None);
    assert OpensTurn(user);
    assert Calls(first) == first.toolCalls && Calls(second) == second.toolCalls;
    assert Calls(first)[0].id == Some(hi) && Calls(second)[0].id == Some(lost);
    assert Answers([answer][0], hi) && !Answers(answer, lost);
    RepairCanLeaveDangling(user, first, second, answer, hi);
    RepairIsIdentityIff(Repair([user, first, second, answer]));
  }

  lemma MoreAnswers(m: Message, x: Message, answer: Message)
    requires m.role == Assistant && !Dangling(m, [answer])
    ensures !Dangling(m, [x, answer])
  {
    hide CallsId, Answers, Dangling;
    DanglingMeans(m, [answer]);
    DanglingMeans(m, [x, answer]);
    forall id ensures HasToolResult([answer], id) ==> HasToolResult([x, answer], id) {
      HasToolResultAppend([x], [answer], id);
      assert [x] + [answer] == [x, answer];
    }
  }

  lemma OnlyUsersOpen(a: Message, b: Message, t: Message)
    requires a.role == b.role == Assistant && t.role == Tool
    ensures !OpensTurn(a) && !OpensTurn(b) && !OpensTurn(t)
  {
  }

  lemma OnlyAssistantsDangle(u: Message, t: Message, rest: seq<Message>)
    requires u.role == User && t.role == Tool
    ensures !Dangling(u, rest) && !Dangling(t, [])
  {
  }
}
