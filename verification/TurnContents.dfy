/** What a turn's pair tells of it, and that the extraction's pairs are the
    answered turns of the context, one for one. */
module TurnContents {
  import opened Basics
  import opened Lines
  import opened Parts
  import opened Messages
  import opened MessageContents
  import opened Turns
  import Utf8

  // ----- tool calls -----

  /** One argument as it is shown: its key and its value, cut at 200 bytes. */
  ghost predicate ShowsField(field: (Bytes, Bytes), shown: Bytes) {
    exists value: Bytes :: shown == field.0 + Ascii("=") + value && Utf8.HeadKept(value, field.1, 200)
  }

  ghost predicate ShowsFields(fields: seq<(Bytes, Bytes)>, shown: Bytes) {
    exists parts: seq<Bytes> ::
      && |parts| == |fields| && (forall k :: 0 <= k < |fields| ==> ShowsField(fields[k], parts[k]))
      && Joined(shown, parts, Ascii(", "))
  }

  ghost predicate ShowsArgs(args: Args, shown: Bytes) {
    match args
    case Fields(fields) => ShowsFields(fields, shown)
    case Scalar(json) => Utf8.HeadKept(shown, json, 200)
  }

  /** The call's name and, in brackets, all of its arguments in order. */
  ghost predicate ShowsCall(call: ToolCall, shown: Bytes) {
    exists inner: Bytes :: shown == call.name + Ascii("(") + inner + Ascii(")") && ShowsArgs(call.args, inner)
  }

  lemma {:induction false} RenderFieldsShow(fields: seq<(Bytes, Bytes)>)
    ensures |RenderFields(fields)| == |fields|
    ensures forall k :: 0 <= k < |fields| ==> ShowsField(fields[k], RenderFields(fields)[k])
  {
    hide ShowsField;
    if fields == [] {
    } else {
      RenderFieldsShow(fields[1..]);
      RenderFieldShows(fields[0]);
    }
  }

  lemma RenderFieldShows(field: (Bytes, Bytes))
    ensures ShowsField(field, field.0 + Ascii("=") + Utf8.TruncateText(field.1, TOOL_ARG_MAX))
  {
    hide Utf8.HeadKept, Utf8.TruncateText;
    Utf8.TruncateTextKeepsHead(field.1, 200);
  }

  lemma RenderToolCallShows(call: ToolCall)
    ensures ShowsCall(call, RenderToolCall(call))
  {
    hide RenderFields, Join, Joined, ShowsField, Utf8.HeadKept, Utf8.TruncateText;
    match call.args
    case Fields(fields) =>
      var parts := RenderFields(fields);
      RenderFieldsShow(fields);
      JoinPlaces(parts, Ascii(", "));
      assert ShowsArgs(call.args, Join(parts, Ascii(", ")));
    case Scalar(json) =>
      Utf8.TruncateTextKeepsHead(json, 200);
      assert ShowsArgs(call.args, Utf8.TruncateText(json, 200));
  }

  /** Legacy reply calls are not tool use. */
  predicate IsListed(call: ToolCall) {
    call.name != Ascii("jyc_reply_message")
  }

  lemma {:induction false} RenderCallsAre(calls: seq<ToolCall>)
    ensures Picked(calls, IsListed, ShowsCall, RenderCalls(calls))
  {
    hide Picked, ShowsCall, RenderToolCall;
    if calls == [] {
      NothingPicked(calls, IsListed, ShowsCall);
    } else {
      RenderCallsAre(calls[1..]);
      RenderToolCallShows(calls[0]);
      var here := if IsListed(calls[0]) then [RenderToolCall(calls[0])] else [];
      PickedFirst(calls, IsListed, ShowsCall, here, RenderCalls(calls[1..]));
    }
  }

  /** All calls of the assistants, in order. */
  function CallsOf(assistants: seq<Message>): seq<ToolCall> {
    if assistants == [] then [] else Calls(assistants[0]) + CallsOf(assistants[1..])
  }

  lemma {:induction false} RenderCallsAppend(a: seq<ToolCall>, b: seq<ToolCall>)
    ensures RenderCalls(a + b) == RenderCalls(a) + RenderCalls(b)
  {
    hide RenderToolCall;
    if a == [] {
      assert a + b == b;
    } else {
      assert (a + b)[0] == a[0] && (a + b)[1..] == a[1..] + b;
      RenderCallsAppend(a[1..], b);
    }
  }

  lemma {:induction false} AllCallsAre(assistants: seq<Message>)
    ensures AllCalls(assistants) == RenderCalls(CallsOf(assistants))
    ensures Picked(CallsOf(assistants), IsListed, ShowsCall, AllCalls(assistants))
  {
    hide Calls, RenderCalls, Picked, ShowsCall;
    if assistants == [] {
      NothingRendered();
    } else {
      AllCallsAre(assistants[1..]);
      RenderCallsAppend(Calls(assistants[0]), CallsOf(assistants[1..]));
    }
    RenderCallsAre(CallsOf(assistants));
  }

  lemma NothingRendered()
    ensures RenderCalls([]) == []
  {
  }

  // ----- the merged assistant -----

  ghost predicate ShowsSome(m: Message) {
    exists text: Bytes :: Shows(m, text) && text != []
  }

  lemma ShowsSomeIff(m: Message)
    ensures ShowsSome(m) <==> TranscriptText(m) != []
  {
    hide Shows, TranscriptText;
    ShowsOnly(m);
  }

  lemma {:induction false} TextsAre(assistants: seq<Message>)
    ensures Picked(assistants, ShowsSome, Shows, Texts(assistants))
  {
    hide Picked, Shows, TranscriptText, ShowsSome;
    if assistants == [] {
      NothingPicked(assistants, ShowsSome, Shows);
    } else {
      var m := assistants[0];
      TextsAre(assistants[1..]);
      ShowsSomeIff(m);
      ShowsOnly(m);
      var here := if TranscriptText(m) == [] then [] else [TranscriptText(m)];
      PickedFirst(assistants, ShowsSome, Shows, here, Texts(assistants[1..]));
    }
  }

  predicate Reasons(m: Message) {
    m.reasoning.Some? && m.reasoning.value != []
  }

  /** Message `k` is the last one with reasoning. */
  ghost predicate LastReasons(assistants: seq<Message>, k: nat) {
    && k < |assistants| && Reasons(assistants[k])
    && forall j :: k < j < |assistants| ==> !Reasons(assistants[j])
  }

  /** `reasoning` is that of the last message that has any, else `before`. */
  ghost predicate LastOf(assistants: seq<Message>, before: Bytes, reasoning: Bytes) {
    || (exists k: nat :: LastReasons(assistants, k) && assistants[k].reasoning == Some(reasoning))
    || ((forall k :: 0 <= k < |assistants| ==> !Reasons(assistants[k])) && reasoning == before)
  }

  lemma {:induction false} LastReasoningIs(assistants: seq<Message>, before: Bytes)
    ensures LastOf(assistants, before, LastReasoning(assistants, before))
  {
    if assistants == [] {
    } else {
      var rest := assistants[1..];
      var next := if Reasons(assistants[0]) then assistants[0].reasoning.value else before;
      var found := LastReasoning(rest, next);
      LastReasoningIs(rest, next);
      assert forall k :: 0 < k < |assistants| ==> rest[k - 1] == assistants[k];
      if k: nat :| LastReasons(rest, k) && rest[k].reasoning == Some(found) {
        assert LastReasons(assistants, k + 1);
      } else if Reasons(assistants[0]) {
        assert LastReasons(assistants, 0);
      }
    }
  }

  /** The merged assistant: the shown texts of all steps, one a line, and the
      turn's last reasoning. There is none when no step shows text. */
  ghost predicate Merges(assistants: seq<Message>, merged: Option<Message>) {
    exists texts: seq<Bytes>, reasoning: Bytes ::
      && Picked(assistants, ShowsSome, Shows, texts)
      && LastOf(assistants, [], reasoning)
      && if texts == [] then merged.None?
         else && merged.Some? && merged.value.role == Assistant && merged.value.content.Str?
              && Joined(merged.value.content.str, texts, [NL])
              && merged.value.toolCalls == [] && merged.value.toolCallId.None?
              && merged.value.reasoning == (if reasoning == [] then None else Some(reasoning))
  }

  lemma MergedMerges(assistants: seq<Message>)
    ensures Merges(assistants, MergedAssistant(Texts(assistants), LastReasoning(assistants, [])))
  {
    hide Picked, LastOf, Joined, Join, Texts, LastReasoning;
    TextsAre(assistants);
    LastReasoningIs(assistants, []);
    JoinPlaces(Texts(assistants), [NL]);
  }

  // ----- the pair -----

  /** A pair tells a turn: its user message as it was, its assistants merged, its
      first twenty tool calls and first eight results and how many are missing. */
  ghost predicate Tells(p: TurnPair, user: Message, assistants: seq<Message>, results: seq<Bytes>) {
    && p.user == user
    && Merges(assistants, p.assistant)
    && (exists calls: seq<Bytes> ::
          && Picked(CallsOf(assistants), IsListed, ShowsCall, calls)
          && p.toolCalls == calls[..Min(20, |calls|)] && p.omittedToolCalls == |calls| - |p.toolCalls|)
    && p.results == results[..Min(8, |results|)] && p.omittedResults == |results| - |p.results|
  }

  /** An assistant step that shows text or makes a call. */
  ghost predicate Alive(m: Message) {
    ShowsSome(m) || exists call: ToolCall :: Makes(m, call)
  }

  lemma {:induction false} AnyAliveIff(assistants: seq<Message>)
    ensures AnyAlive(assistants) <==> exists k :: 0 <= k < |assistants| && Alive(assistants[k])
  {
    hide Alive, KeepsTurnAlive;
    if assistants == [] {
    } else {
      var rest := assistants[1..];
      AnyAliveIff(rest);
      AliveIff(assistants[0]);
      assert forall k :: 0 < k < |assistants| ==> rest[k - 1] == assistants[k];
      if k :| 0 <= k < |rest| && Alive(rest[k]) { assert Alive(assistants[k + 1]); }
      if k :| 0 <= k < |assistants| && Alive(assistants[k]) {
        if k > 0 { assert Alive(rest[k - 1]); }
      }
    }
  }

  lemma AliveIff(m: Message)
    ensures Alive(m) <==> KeepsTurnAlive(m)
  {
    hide Shows, Makes;
    KeepsTurnAliveIff(m);
  }

  /** A finished turn leaves its pair behind, and leaves one exactly when it has a
      user message and some assistant step shows text or makes a call. */
  lemma FlushTells(t: Turn)
    ensures Flush(t) != [] <==> t.user.Some? && exists k :: 0 <= k < |t.assistants| && Alive(t.assistants[k])
    ensures Flush(t) != [] ==> |Flush(t)| == 1 && Tells(Flush(t)[0], t.user.value, t.assistants, t.results)
  {
    hide Alive, Merges, Picked, AllCalls, Texts, LastReasoning, MergedAssistant, Pair;
    AnyAliveIff(t.assistants);
    MergedMerges(t.assistants);
    AllCallsAre(t.assistants);
    if t.user.Some? {
      PairParts(t.user.value, Texts(t.assistants), AllCalls(t.assistants), LastReasoning(t.assistants, []), t.results);
    }
  }

  lemma PairParts(user: Message, texts: seq<Bytes>, calls: seq<Bytes>, reasoning: Bytes, results: seq<Bytes>)
    ensures var p := Pair(user, texts, calls, reasoning, results);
            && p.user == user && p.assistant == MergedAssistant(texts, reasoning)
            && p.toolCalls == calls[..Min(20, |calls|)] && p.omittedToolCalls == |calls| - |p.toolCalls|
            && p.results == results[..Min(8, |results|)] && p.omittedResults == |results| - |p.results|
  {
    hide MergedAssistant;
  }

  /** When no step's text has a newline, the lines of the merged text are the
      steps' texts: no step is lost, the last one included. */
  lemma TextsReadBack(t: Turn, texts: seq<Bytes>)
    requires Flush(t) != [] && texts != [] && Picked(t.assistants, ShowsSome, Shows, texts)
    requires forall k :: 0 <= k < |texts| ==> NoNewline(texts[k])
    ensures var merged := Flush(t)[0].assistant;
            merged.Some? && merged.value.content.Str? && Split(merged.value.content.str) == texts
  {
    hide Shows, Picked, ShowsSome, AllCalls, LastReasoning, Join, Split;
    TextsAre(t.assistants);
    forall x, u: Bytes, v: Bytes | x in t.assistants && Shows(x, u) && Shows(x, v) ensures u == v {
      ShowsOnly(x);
    }
    SamePicks(t.assistants, ShowsSome, Shows, texts, Texts(t.assistants));
    SplitJoin(texts);
  }

  // ----- the turns of a context -----

  predicate IsAssistant(m: Message) {
    m.role == Assistant
  }

  /** The first opener at or behind `i`, or the end. */
  function NextOpener(ms: seq<Message>, i: nat): (e: nat)
    requires i <= |ms|
    ensures i <= e <= |ms| && (e < |ms| ==> OpensTurn(ms[e]))
    ensures forall k :: i <= k < e ==> !OpensTurn(ms[k])
    decreases |ms| - i
  {
    if i == |ms| || OpensTurn(ms[i]) then i else NextOpener(ms, i + 1)
  }

  /** The texts of the tool results in `ms`, in order, each cut. */
  function ResultsOf(ms: seq<Message>, cut: ResultCut): seq<Bytes> {
    if ms == [] then []
    else (if ms[0].role == User || ms[0].role == Tool then ToolResultTexts(ms[0], cut) else [])
         + ResultsOf(ms[1..], cut)
  }

  /** The turn that the opener at `o` opens: the assistants up to the next opener,
      and the results up to and including the ones that opener carries. */
  function TurnAt(ms: seq<Message>, o: nat, cut: ResultCut): Turn
    requires o < |ms|
  {
    var e := NextOpener(ms, o + 1);
    Turn(Some(ms[o]), Filter(ms[o + 1..e], IsAssistant), ResultsOf(ms[o + 1..Min(e + 1, |ms|)], cut))
  }

  /** The opener at `o` is answered before the next one. */
  ghost predicate AnsweredOpener(ms: seq<Message>, o: nat)
    requires o < |ms|
  {
    && OpensTurn(ms[o])
    && exists k :: o < k < NextOpener(ms, o + 1) && ms[k].role == Assistant && Alive(ms[k])
  }

  /** `t` with everything up to the end of its turn, the turn `ms` starts in. */
  function Rest(t: Turn, ms: seq<Message>, cut: ResultCut): Turn {
    var e := NextOpener(ms, 0);
    Turn(t.user, t.assistants + Filter(ms[..e], IsAssistant), t.results + ResultsOf(ms[..Min(e + 1, |ms|)], cut))
  }

  function TurnsOf(ms: seq<Message>, cut: ResultCut): seq<TurnPair> {
    if ms == [] then []
    else (if OpensTurn(ms[0]) then Flush(TurnAt(ms, 0, cut)) else []) + TurnsOf(ms[1..], cut)
  }

  lemma SliceOfRest(ms: seq<Message>, a: nat, b: nat)
    requires ms != [] && 0 < a <= b <= |ms|
    ensures ms[1..][a - 1..b - 1] == ms[a..b]
  {
    var left, right := ms[1..][a - 1..b - 1], ms[a..b];
    assert |left| == |right|;
    assert forall k :: 0 <= k < |left| ==> left[k] == right[k];
  }

  lemma NextOpenerShift(ms: seq<Message>, i: nat)
    requires 0 < i <= |ms|
    ensures NextOpener(ms, i) == 1 + NextOpener(ms[1..], i - 1)
    decreases |ms| - i
  {
    hide OpensTurn;
    if i < |ms| && !OpensTurn(ms[i]) { NextOpenerShift(ms, i + 1); }
  }

  lemma RestOfOpener(t: Turn, ms: seq<Message>, cut: ResultCut)
    requires ms != [] && OpensTurn(ms[0])
    ensures Rest(t, ms, cut) == Extend(t, ms[0], cut)
    ensures Rest(Turn(Some(ms[0]), [], []), ms[1..], cut) == TurnAt(ms, 0, cut)
  {
    assert ms[..1] == [ms[0]] && ms[..0] == [];
    ExtendAdds(t, ms[0], cut);
    hide ToolResultTexts, OpensTurn, ResultsOf, Extend;
    RestOfNew(ms, cut);
  }

  lemma RestOfNew(ms: seq<Message>, cut: ResultCut)
    requires ms != []
    ensures Rest(Turn(Some(ms[0]), [], []), ms[1..], cut) == TurnAt(ms, 0, cut)
  {
    hide OpensTurn, ResultsOf, Filter, NextOpener;
    var rest, e := ms[1..], NextOpener(ms, 1);
    NextOpenerShift(ms, 1);
    SliceOfRest(ms, 1, e);
    SliceOfRest(ms, 1, Min(e + 1, |ms|));
    assert rest[..e - 1] == rest[0..e - 1] && rest[..Min(e, |rest|)] == rest[0..Min(e, |rest|)];
  }

  lemma OneResult(m: Message, cut: ResultCut)
    ensures ResultsOf([m], cut) == if m.role == User || m.role == Tool then ToolResultTexts(m, cut) else []
  {
    assert [m][1..] == [];
  }

  lemma RestOfOther(t: Turn, ms: seq<Message>, cut: ResultCut)
    requires ms != [] && !OpensTurn(ms[0])
    ensures Rest(t, ms, cut) == Rest(Extend(t, ms[0], cut), ms[1..], cut)
  {
    hide ToolResultTexts, OpensTurn;
    var rest, e := ms[1..], NextOpener(ms, 1);
    NextOpenerShift(ms, 1);
    var upTo := Min(e + 1, |ms|);
    FilterFirst(ms[..e], IsAssistant);
    assert ms[..e][1..] == rest[..e - 1] && ms[..upTo][1..] == rest[..Min(e, |rest|)];
    assert ms[..e][0] == ms[0] && ms[..upTo][0] == ms[0];
    var next := Extend(t, ms[0], cut);
    hide Extend, ResultsOf;
    ExtendAdds(t, ms[0], cut);
    ResultsFirst(ms[..upTo], cut);
    Assoc(t.assistants, if IsAssistant(ms[0]) then [ms[0]] else [], Filter(rest[..e - 1], IsAssistant));
    Assoc(t.results, ResultsOf([ms[0]], cut), ResultsOf(rest[..Min(e, |rest|)], cut));
  }

  lemma ExtendAdds(t: Turn, m: Message, cut: ResultCut)
    ensures Extend(t, m, cut)
         == Turn(t.user, t.assistants + (if IsAssistant(m) then [m] else []), t.results + ResultsOf([m], cut))
  {
    hide ToolResultTexts;
    OneResult(m, cut);
    assert t.assistants + [] == t.assistants && t.results + [] == t.results;
  }

  lemma FilterFirst(ms: seq<Message>, p: Message -> bool)
    requires ms != []
    ensures Filter(ms, p) == (if p(ms[0]) then [ms[0]] else []) + Filter(ms[1..], p)
  {
  }

  lemma ResultsFirst(ms: seq<Message>, cut: ResultCut)
    requires ms != []
    ensures ResultsOf(ms, cut) == ResultsOf([ms[0]], cut) + ResultsOf(ms[1..], cut)
  {
    hide ToolResultTexts;
    OneResult(ms[0], cut);
  }

  lemma TurnsOfFirst(ms: seq<Message>, cut: ResultCut)
    requires ms != []
    ensures TurnsOf(ms, cut) == if OpensTurn(ms[0]) then Flush(TurnAt(ms, 0, cut)) + TurnsOf(ms[1..], cut)
                                else TurnsOf(ms[1..], cut)
  {
    hide Flush, TurnAt, OpensTurn;
  }

  lemma ExtractFirst(t: Turn, ms: seq<Message>, cut: ResultCut)
    requires ms != []
    ensures Extract(t, ms, cut)
         == if OpensTurn(ms[0]) then Flush(Extend(t, ms[0], cut)) + Extract(Turn(Some(ms[0]), [], []), ms[1..], cut)
            else Extract(Extend(t, ms[0], cut), ms[1..], cut)
  {
    hide Flush, Extend, OpensTurn;
  }

  lemma {:induction false} ExtractIs(t: Turn, ms: seq<Message>, cut: ResultCut)
    ensures Extract(t, ms, cut) == Flush(Rest(t, ms, cut)) + TurnsOf(ms, cut)
    decreases |ms|
  {
    hide *;
    if ms == [] {
      RestOfNone(t, cut);
      ExtractEnds(t, cut);
    } else {
      ExtractFirst(t, ms, cut);
      TurnsOfFirst(ms, cut);
      if OpensTurn(ms[0]) {
        RestOfOpener(t, ms, cut);
        ExtractIs(Turn(Some(ms[0]), [], []), ms[1..], cut);
      } else {
        RestOfOther(t, ms, cut);
        ExtractIs(Extend(t, ms[0], cut), ms[1..], cut);
      }
    }
  }

  lemma RestOfNone(t: Turn, cut: ResultCut)
    ensures Rest(t, [], cut) == t && TurnsOf([], cut) == []
  {
    assert t.assistants + [] == t.assistants && t.results + [] == t.results;
  }

  lemma {:induction false} FilterHas(ms: seq<Message>, p: Message -> bool, m: Message)
    ensures m in Filter(ms, p) <==> m in ms && p(m)
  {
    if ms == [] {
    } else {
      FilterHas(ms[1..], p, m);
    }
  }

  /** Some assistant of the stretch is alive exactly when some message in it is one. */
  lemma AliveInStretch(ms: seq<Message>, from: nat, to: nat)
    requires from <= to <= |ms|
    ensures (exists m :: m in Filter(ms[from..to], IsAssistant) && Alive(m))
       <==> exists k :: from <= k < to && ms[k].role == Assistant && Alive(ms[k])
  {
    hide Alive, Filter;
    var segment := ms[from..to];
    forall m: Message ensures m in Filter(segment, IsAssistant) <==> m in segment && IsAssistant(m) {
      FilterHas(segment, IsAssistant, m);
    }
    if m :| m in Filter(segment, IsAssistant) && Alive(m) {
      var i :| 0 <= i < |segment| && segment[i] == m;
      assert ms[from + i] == m;
    }
    if k :| from <= k < to && ms[k].role == Assistant && Alive(ms[k]) {
      assert segment[k - from] == ms[k];
    }
  }

  /** The turn at an opener leaves a pair behind exactly when it is answered. */
  lemma PairIffAnswered(ms: seq<Message>, o: nat, cut: ResultCut)
    requires o < |ms| && OpensTurn(ms[o])
    ensures Flush(TurnAt(ms, o, cut)) != [] <==> AnsweredOpener(ms, o)
  {
    var e := NextOpener(ms, o + 1);
    FlushTells(TurnAt(ms, o, cut));
    AliveInStretch(ms, o + 1, e);
    hide Flush, OpensTurn, Alive, Tells, Filter, NextOpener;
    var assistants := TurnAt(ms, o, cut).assistants;
    assert (exists k :: 0 <= k < |assistants| && Alive(assistants[k])) <==> exists m :: m in assistants && Alive(m);
  }

  lemma OpenerShift(ms: seq<Message>, o: nat, cut: ResultCut)
    requires 0 < o < |ms|
    ensures TurnAt(ms, o, cut) == TurnAt(ms[1..], o - 1, cut)
  {
    hide OpensTurn, ResultsOf, Filter, NextOpener;
    var e := NextOpener(ms, o + 1);
    NextOpenerShift(ms, o + 1);
    SliceOfRest(ms, o + 1, e);
    SliceOfRest(ms, o + 1, Min(e + 1, |ms|));
  }

  lemma AnsweredShift(ms: seq<Message>, o: nat)
    requires 0 < o < |ms|
    ensures AnsweredOpener(ms, o) <==> AnsweredOpener(ms[1..], o - 1)
  {
    hide OpensTurn, Alive, NextOpener;
    var rest, e := ms[1..], NextOpener(ms, o + 1);
    NextOpenerShift(ms, o + 1);
    assert forall k :: 0 < k < |ms| ==> rest[k - 1] == ms[k];
    if k :| o < k < e && ms[k].role == Assistant && Alive(ms[k]) {
      assert rest[k - 1].role == Assistant && Alive(rest[k - 1]);
    }
    if k :| o - 1 < k < e - 1 && rest[k].role == Assistant && Alive(rest[k]) {
      assert ms[k + 1].role == Assistant && Alive(ms[k + 1]);
    }
  }

  /** `at` lists the answered openers of `ms` in order, and no other. */
  ghost predicate AnsweredOpeners(ms: seq<Message>, at: seq<nat>) {
    && (forall k :: 0 <= k < |at| ==> at[k] < |ms| && AnsweredOpener(ms, at[k]))
    && (forall j, k :: 0 <= j < k < |at| ==> at[j] < at[k])
    && (forall o :: 0 <= o < |ms| && AnsweredOpener(ms, o) ==> o in at)
  }

  lemma AnsweredOpenersShift(ms: seq<Message>, rest: seq<nat>)
    requires ms != [] && AnsweredOpeners(ms[1..], rest)
    ensures AnsweredOpeners(ms, (if AnsweredOpener(ms, 0) then [0] else []) + Later(rest))
  {
    hide AnsweredOpener;
    var here: seq<nat> := if AnsweredOpener(ms, 0) then [0] else [];
    forall o | 0 < o < |ms| ensures AnsweredOpener(ms, o) <==> AnsweredOpener(ms[1..], o - 1) {
      AnsweredShift(ms, o);
    }
    forall o | 0 <= o < |ms| && AnsweredOpener(ms, o) ensures o in here + Later(rest) {
      if o > 0 { LaterHas(rest, o); } else { assert 0 in here; }
    }
  }

  /** `pairs` are what the turns at `at` leave behind, one each. */
  ghost predicate PairsAt(ms: seq<Message>, cut: ResultCut, at: seq<nat>, pairs: seq<TurnPair>) {
    |pairs| == |at| && forall k :: 0 <= k < |at| ==> at[k] < |ms| && [pairs[k]] == Flush(TurnAt(ms, at[k], cut))
  }

  lemma PairsAtShift(ms: seq<Message>, cut: ResultCut, at: seq<nat>, pairs: seq<TurnPair>)
    requires ms != [] && PairsAt(ms[1..], cut, at, pairs)
    ensures PairsAt(ms, cut, Later(at), pairs)
  {
    hide Flush, TurnAt, AnsweredOpener;
    forall k | 0 <= k < |at| ensures [pairs[k]] == Flush(TurnAt(ms, Later(at)[k], cut)) {
      OpenerShift(ms, at[k] + 1, cut);
    }
  }

  lemma PairsAtAppend(
    ms: seq<Message>, cut: ResultCut, at: seq<nat>, a: seq<TurnPair>, more: seq<nat>, b: seq<TurnPair>)
    requires PairsAt(ms, cut, at, a) && PairsAt(ms, cut, more, b)
    ensures PairsAt(ms, cut, at + more, a + b)
  {
    hide Flush, TurnAt;
  }

  lemma FirstPair(ms: seq<Message>, cut: ResultCut)
    requires ms != []
    ensures PairsAt(ms, cut, if AnsweredOpener(ms, 0) then [0] else [],
                    if OpensTurn(ms[0]) then Flush(TurnAt(ms, 0, cut)) else [])
  {
    hide Flush, OpensTurn, AnsweredOpener, TurnAt;
    AnsweredOpens(ms, 0);
    FlushIsOne(TurnAt(ms, 0, cut));
    if OpensTurn(ms[0]) { PairIffAnswered(ms, 0, cut); }
  }

  lemma {:induction false} TurnsAre(ms: seq<Message>, cut: ResultCut) returns (at: seq<nat>)
    ensures AnsweredOpeners(ms, at) && PairsAt(ms, cut, at, TurnsOf(ms, cut))
  {
    hide Flush, OpensTurn, AnsweredOpener, TurnAt, PairsAt, AnsweredOpeners;
    if ms == [] {
      at := [];
      NoTurns(cut);
    } else {
      var rest := TurnsAre(ms[1..], cut);
      var here: seq<nat> := if AnsweredOpener(ms, 0) then [0] else [];
      at := here + Later(rest);
      AnsweredOpenersShift(ms, rest);
      FirstPair(ms, cut);
      PairsAtShift(ms, cut, rest, TurnsOf(ms[1..], cut));
      PairsAtAppend(ms, cut, here, if OpensTurn(ms[0]) then Flush(TurnAt(ms, 0, cut)) else [],
                    Later(rest), TurnsOf(ms[1..], cut));
    }
  }

  lemma NoTurns(cut: ResultCut)
    ensures AnsweredOpeners([], []) && PairsAt([], cut, [], [])
  {
  }

  lemma AnsweredOpens(ms: seq<Message>, o: nat)
    requires o < |ms|
    ensures AnsweredOpener(ms, o) ==> OpensTurn(ms[o])
  {
  }

  lemma FlushIsOne(t: Turn)
    ensures |Flush(t)| <= 1
  {
  }

  /** The extracted pairs are, one for one and in order, the answered turns of
      the context, and each tells its whole turn. */
  lemma PairsAreTurns(ms: seq<Message>, cut: ResultCut) returns (at: seq<nat>)
    ensures AnsweredOpeners(ms, at) && |ExtractPairs(ms, cut)| == |at|
    ensures forall k :: 0 <= k < |at| ==>
              var turn := TurnAt(ms, at[k], cut);
              Tells(ExtractPairs(ms, cut)[k], ms[at[k]], turn.assistants, turn.results)
  {
    hide Extract, OpensTurn, AnsweredOpener, AnsweredOpeners, TurnAt, Tells, Alive, Flush;
    ExtractIs(NO_TURN, ms, cut);
    FlushTells(Rest(NO_TURN, ms, cut));
    at := TurnsAre(ms, cut);
    forall k | 0 <= k < |at|
      ensures var turn := TurnAt(ms, at[k], cut);
              Tells(ExtractPairs(ms, cut)[k], ms[at[k]], turn.assistants, turn.results)
    {
      FlushTells(TurnAt(ms, at[k], cut));
      TurnUser(ms, at[k], cut);
    }
  }

  lemma TurnUser(ms: seq<Message>, o: nat, cut: ResultCut)
    requires o < |ms|
    ensures TurnAt(ms, o, cut).user == Some(ms[o])
  {
  }

  // ----- tool results -----

  predicate HasResult(b: Block) {
    b.ToolResult? && b.result.Some?
  }

  predicate HoldsResult(b: Block, result: Bytes) {
    b.ToolResult? && b.result == Some(result)
  }

  /** The result texts a message carries: a tool message's own text, otherwise
      the texts of its tool_result blocks. A user's own words are none. */
  ghost predicate CarriesResults(m: Message, results: seq<Bytes>) {
    match m.content
    case NoContent => results == []
    case Str(s) => results == if m.role == Tool then [s] else []
    case Blocks(blocks) => Picked(blocks, HasResult, HoldsResult, results)
  }

  ghost predicate EachCut(results: seq<Bytes>, cut: Bytes -> Bytes, out: seq<Bytes>) {
    |out| == |results| && forall k :: 0 <= k < |out| ==> out[k] == cut(results[k])
  }

  lemma {:induction false} BlockResultsAre(blocks: seq<Block>, cut: Bytes -> Bytes) returns (results: seq<Bytes>)
    ensures Picked(blocks, HasResult, HoldsResult, results)
    ensures EachCut(results, cut, BlockResults(blocks, cut))
  {
    hide Picked;
    if blocks == [] {
      results := [];
      NothingPicked(blocks, HasResult, HoldsResult);
    } else {
      var rest := BlockResultsAre(blocks[1..], cut);
      var here := if HasResult(blocks[0]) then [blocks[0].result.value] else [];
      results := here + rest;
      PickedFirst(blocks, HasResult, HoldsResult, here, rest);
    }
  }

  /** Collected results are all the texts a message carries, in order, each cut. */
  lemma ToolResultTextsAre(m: Message, cut: ResultCut)
    ensures cut.None? ==> ToolResultTexts(m, cut) == []
    ensures cut.Some? ==>
              exists results: seq<Bytes> ::
                CarriesResults(m, results) && EachCut(results, cut.value, ToolResultTexts(m, cut))
  {
    hide Picked;
    if cut.Some? {
      match m.content
      case NoContent => assert CarriesResults(m, []);
      case Str(s) => assert CarriesResults(m, if m.role == Tool then [s] else []);
      case Blocks(blocks) =>
        var results := BlockResultsAre(blocks, cut.value);
        assert CarriesResults(m, results);
    }
  }
}
