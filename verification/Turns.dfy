/** Turns: extracting user/assistant pairs, counting them from the tail, and
    the slice of a journal that covers a requested depth. */
module Turns {
  import opened Basics
  import opened Messages
  import Utf8

  const TOOL_ARG_MAX: nat := 200
  const TOOL_CALLS_PER_TURN_MAX: nat := 20
  const TOOL_RESULTS_PER_TURN_MAX: nat := 8

  /** How collected tool results are cut; `None` skips collecting them. */
  type ResultCut = Option<Bytes -> Bytes>

  datatype TurnPair = TurnPair(
    user: Message,
    assistant: Option<Message>,
    toolCalls: seq<Bytes>,
    omittedToolCalls: nat,
    omittedResults: nat,
    results: seq<Bytes>)

  /** The turn being accumulated. */
  datatype Turn = Turn(user: Option<Message>, assistants: seq<Message>, results: seq<Bytes>)

  const NO_TURN: Turn := Turn(None, [], [])

  // ----- rendering and collecting, one message at a time -----

  function RenderFields(fields: seq<(Bytes, Bytes)>): seq<Bytes> {
    if fields == [] then []
    else [fields[0].0 + Ascii("=") + Utf8.TruncateText(fields[0].1, TOOL_ARG_MAX)] + RenderFields(fields[1..])
  }

  /** `name(k=v, ...)`, each long value cut on its own. */
  function RenderToolCall(call: ToolCall): Bytes {
    call.name + Ascii("(")
    + (match call.args
       case Fields(fields) => Join(RenderFields(fields), Ascii(", "))
       case Scalar(json) => Utf8.TruncateText(json, TOOL_ARG_MAX))
    + Ascii(")")
  }

  function RenderCalls(calls: seq<ToolCall>): seq<Bytes> {
    if calls == [] then []
    else (if calls[0].name == Ascii("jyc_reply_message") then [] else [RenderToolCall(calls[0])])
         + RenderCalls(calls[1..])
  }

  function BlockResults(blocks: seq<Block>, cut: Bytes -> Bytes): seq<Bytes> {
    if blocks == [] then []
    else (if blocks[0].ToolResult? && blocks[0].result.Some? then [cut(blocks[0].result.value)] else [])
         + BlockResults(blocks[1..], cut)
  }

  /** `tool_result_texts`: either wire shape, each text cut as it is collected. */
  function ToolResultTexts(m: Message, cut: ResultCut): seq<Bytes> {
    if cut.None? then []
    else if m.role == Tool && m.content.Str? then [cut.value(m.content.str)]
    else if m.content.Blocks? then BlockResults(m.content.blocks, cut.value)
    else []
  }

  // ----- closing a turn -----

  function AnyAlive(assistants: seq<Message>): bool {
    assistants != [] && (KeepsTurnAlive(assistants[0]) || AnyAlive(assistants[1..]))
  }

  function Texts(assistants: seq<Message>): seq<Bytes> {
    if assistants == [] then []
    else (if TranscriptText(assistants[0]) == [] then [] else [TranscriptText(assistants[0])]) + Texts(assistants[1..])
  }

  function AllCalls(assistants: seq<Message>): seq<Bytes> {
    if assistants == [] then [] else RenderCalls(Calls(assistants[0])) + AllCalls(assistants[1..])
  }

  /** The last non-empty reasoning, or `before`. */
  function LastReasoning(assistants: seq<Message>, before: Bytes): Bytes {
    if assistants == [] then before
    else
      var r := assistants[0].reasoning;
      LastReasoning(assistants[1..], if r.Some? && r.value != [] then r.value else before)
  }

  function MergedAssistant(texts: seq<Bytes>, reasoning: Bytes): Option<Message> {
    if texts == [] then None
    else Some(Message(Assistant, Str(Join(texts, [NL])), [], None, if reasoning == [] then None else Some(reasoning)))
  }

  function Pair(user: Message, texts: seq<Bytes>, calls: seq<Bytes>, reasoning: Bytes, results: seq<Bytes>): TurnPair {
    TurnPair(
      user,
      MergedAssistant(texts, reasoning),
      calls[..Min(|calls|, TOOL_CALLS_PER_TURN_MAX)],
      SatSub(|calls|, TOOL_CALLS_PER_TURN_MAX),
      SatSub(|results|, TOOL_RESULTS_PER_TURN_MAX),
      results[..Min(|results|, TOOL_RESULTS_PER_TURN_MAX)])
  }

  /** The pair a finished turn leaves behind, if any. */
  function Flush(t: Turn): (pairs: seq<TurnPair>)
    ensures |pairs| == if t.user.Some? && AnyAlive(t.assistants) then 1 else 0
  {
    if t.user.None? || !AnyAlive(t.assistants) then []
    else [Pair(t.user.value, Texts(t.assistants), AllCalls(t.assistants), LastReasoning(t.assistants, []), t.results)]
  }

  lemma SuffixStep<T>(s: seq<T>, i: nat)
    requires i < |s|
    ensures s[i..] != [] && s[i..][0] == s[i] && s[i..][1..] == s[i + 1..]
  {
  }

  /** What one pass over a turn's assistants gathers. */
  datatype Gathered = Gathered(texts: seq<Bytes>, calls: seq<Bytes>, alive: bool, reasoning: Bytes)

  function Gather(g: Gathered, m: Message): Gathered {
    Gathered(
      if TranscriptText(m) == [] then g.texts else g.texts + [TranscriptText(m)],
      g.calls + RenderCalls(Calls(m)),
      g.alive || KeepsTurnAlive(m),
      if m.reasoning.Some? && m.reasoning.value != [] then m.reasoning.value else g.reasoning)
  }

  function GatherAll(g: Gathered, assistants: seq<Message>): Gathered
    decreases |assistants|
  {
    if assistants == [] then g else GatherAll(Gather(g, assistants[0]), assistants[1..])
  }

  lemma {:induction false} GatherAllMeans(g: Gathered, assistants: seq<Message>)
    ensures GatherAll(g, assistants)
         == Gathered(g.texts + Texts(assistants), g.calls + AllCalls(assistants),
                     g.alive || AnyAlive(assistants), LastReasoning(assistants, g.reasoning))
    decreases |assistants|
  {
    if assistants == [] {
    } else {
      GatherAllMeans(Gather(g, assistants[0]), assistants[1..]);
      hide GatherAll;
      GatherFirst(g, assistants);
    }
  }

  lemma GatherFirst(g: Gathered, assistants: seq<Message>)
    requires assistants != []
    ensures var next, rest := Gather(g, assistants[0]), assistants[1..];
            && next.texts + Texts(rest) == g.texts + Texts(assistants)
            && next.calls + AllCalls(rest) == g.calls + AllCalls(assistants)
            && (next.alive || AnyAlive(rest)) == (g.alive || AnyAlive(assistants))
            && LastReasoning(rest, next.reasoning) == LastReasoning(assistants, g.reasoning)
  {
    hide RenderCalls, TranscriptText, KeepsTurnAlive, Calls, Texts, AllCalls;
    var m, rest := assistants[0], assistants[1..];
    TextsFirst(assistants);
    AllCallsFirst(assistants);
    Assoc(g.texts, if TranscriptText(m) == [] then [] else [TranscriptText(m)], Texts(rest));
    Assoc(g.calls, RenderCalls(Calls(m)), AllCalls(rest));
    if TranscriptText(m) == [] { assert g.texts + [] == g.texts; }
  }

  lemma TextsFirst(assistants: seq<Message>)
    requires assistants != []
    ensures Texts(assistants)
         == (if TranscriptText(assistants[0]) == [] then [] else [TranscriptText(assistants[0])])
            + Texts(assistants[1..])
  {
    hide TranscriptText;
  }

  lemma AllCallsFirst(assistants: seq<Message>)
    requires assistants != []
    ensures AllCalls(assistants) == RenderCalls(Calls(assistants[0])) + AllCalls(assistants[1..])
  {
    hide RenderCalls, Calls;
  }

  /** `flush_turn`: one pass over the turn's assistants. */
  method FlushTurn(pairs: seq<TurnPair>, turn: Turn) returns (out: seq<TurnPair>)
    ensures out == pairs + Flush(turn)
  {
    hide RenderCalls, TranscriptText, KeepsTurnAlive, Calls;
    if turn.assistants == [] || turn.user.None? {
      return pairs;
    }
    ghost var whole := GatherAll(Gathered([], [], false, []), turn.assistants);
    GatherAllMeans(Gathered([], [], false, []), turn.assistants);
    var texts, calls, hasPayload, lastReasoning := [], [], false, [];
    var i := 0;
    while i < |turn.assistants|
      invariant i <= |turn.assistants|
      invariant GatherAll(Gathered(texts, calls, hasPayload, lastReasoning), turn.assistants[i..]) == whole
    {
      var m := turn.assistants[i];
      SuffixStep(turn.assistants, i);
      if m.reasoning.Some? && m.reasoning.value != [] {
        lastReasoning := m.reasoning.value;
      }
      hasPayload := hasPayload || KeepsTurnAlive(m);
      calls := calls + RenderCalls(Calls(m));
      if TranscriptText(m) != [] {
        texts := texts + [TranscriptText(m)];
      }
      i := i + 1;
    }
    assert whole == Gathered(texts, calls, hasPayload, lastReasoning);
    assert [] + Texts(turn.assistants) == Texts(turn.assistants);
    assert [] + AllCalls(turn.assistants) == AllCalls(turn.assistants);
    if !hasPayload {
      return pairs;
    }
    out := pairs + [Pair(turn.user.value, texts, calls, lastReasoning, turn.results)];
  }

  // ----- extraction -----

  /** What a message that opens no turn adds to the current one. */
  function Extend(t: Turn, m: Message, cut: ResultCut): Turn {
    match m.role
    case Assistant => t.(assistants := t.assistants + [m])
    case OtherRole => t
    case _ => t.(results := t.results + ToolResultTexts(m, cut))
  }

  /** The pairs of `ms`, continuing the turn `t`. An opener's own tool results
      answer calls made before it, so they join the turn it closes. */
  function Extract(t: Turn, ms: seq<Message>, cut: ResultCut): seq<TurnPair>
    decreases |ms|
  {
    if ms == [] then Flush(t)
    else if OpensTurn(ms[0]) then
      Flush(Extend(t, ms[0], cut)) + Extract(Turn(Some(ms[0]), [], []), ms[1..], cut)
    else Extract(Extend(t, ms[0], cut), ms[1..], cut)
  }

  function ExtractPairs(ms: seq<Message>, cut: ResultCut): seq<TurnPair> {
    Extract(NO_TURN, ms, cut)
  }

  /** The turn behind message `m`. */
  function NextTurn(t: Turn, m: Message, cut: ResultCut): Turn {
    if OpensTurn(m) then Turn(Some(m), [], []) else Extend(t, m, cut)
  }

  lemma ExtractStep(t: Turn, ms: seq<Message>, cut: ResultCut)
    requires ms != []
    ensures Extract(t, ms, cut)
         == (if OpensTurn(ms[0]) then Flush(Extend(t, ms[0], cut)) else [])
            + Extract(NextTurn(t, ms[0], cut), ms[1..], cut)
  {
    hide Flush, Extend, OpensTurn;
  }

  /** `extract_pairs_inner`. */
  method ExtractPairsInner(rawContext: seq<Message>, cut: ResultCut) returns (pairs: seq<TurnPair>)
    ensures pairs == ExtractPairs(rawContext, cut)
  {
    hide Flush, Extract, OpensTurn, ToolResultTexts;
    pairs := [];
    var turn := NO_TURN;
    var i := 0;
    assert rawContext[0..] == rawContext;
    while i < |rawContext|
      invariant i <= |rawContext|
      invariant pairs + Extract(turn, rawContext[i..], cut) == ExtractPairs(rawContext, cut)
    {
      var m := rawContext[i];
      SuffixStep(rawContext, i);
      ExtractStep(turn, rawContext[i..], cut);
      OnlyUsersOpen(m);
      match m.role {
        case User =>
          turn := turn.(results := turn.results + ToolResultTexts(m, cut));
          if OpensTurn(m) {
            pairs := FlushTurn(pairs, turn);
            turn := Turn(Some(m), [], []);
          }
        case Assistant =>
          turn := turn.(assistants := turn.assistants + [m]);
        case Tool =>
          turn := turn.(results := turn.results + ToolResultTexts(m, cut));
        case OtherRole =>
      }
      i := i + 1;
    }
    assert rawContext[i..] == [];
    ExtractEnds(turn, cut);
    pairs := FlushTurn(pairs, turn);
  }

  lemma OnlyUsersOpen(m: Message)
    ensures OpensTurn(m) ==> m.role == User
  {
  }

  lemma ExtractEnds(t: Turn, cut: ResultCut)
    ensures Extract(t, [], cut) == Flush(t)
  {
  }

  // ----- the scan from the tail -----

  /** A payload-bearing assistant comes before the first opener. */
  function Lead(ms: seq<Message>): bool {
    ms != [] && !OpensTurn(ms[0]) && ((ms[0].role == Assistant && KeepsTurnAlive(ms[0])) || Lead(ms[1..]))
  }

  /** How many openers are answered before the next one. */
  function TurnCount(ms: seq<Message>): nat {
    if ms == [] then 0
    else TurnCount(ms[1..]) + if OpensTurn(ms[0]) && Lead(ms[1..]) then 1 else 0
  }

  /** Where the last `keep` answered turns begin. */
  function TailStart(ms: seq<Message>, keep: nat): (start: nat)
    ensures start <= |ms|
  {
    if keep == 0 then |ms|
    else if ms == [] || TurnCount(ms[1..]) < keep then 0
    else 1 + TailStart(ms[1..], keep)
  }

  /** `pairs_tail_start`: one pass backwards over the messages. */
  method PairsTailStart(rawContext: seq<Message>, keepPairs: nat) returns (start: nat, turns: nat)
    ensures start == TailStart(rawContext, keepPairs)
    ensures turns == if keepPairs == 0 then 0 else TurnCount(rawContext)
  {
    if keepPairs == 0 {
      return |rawContext|, 0;
    }
    turns := 0;
    var seenPayload := false;
    start := 0;
    var idx: nat := |rawContext|;
    while idx > 0
      invariant idx <= |rawContext|
      invariant turns == TurnCount(rawContext[idx..]) && seenPayload == Lead(rawContext[idx..])
      invariant start == if turns < keepPairs then 0 else idx + TailStart(rawContext[idx..], keepPairs)
      invariant turns < keepPairs ==> TailStart(rawContext[idx..], keepPairs) == 0
    {
      idx := idx - 1;
      var m := rawContext[idx];
      SuffixStep(rawContext, idx);
      if m.role == Assistant {
        seenPayload := seenPayload || KeepsTurnAlive(m);
      } else if OpensTurn(m) && seenPayload {
        turns := turns + 1;
        if turns == keepPairs && start == 0 {
          start := idx;
        }
        seenPayload := false;
      }
    }
    assert rawContext[0..] == rawContext;
  }

  lemma {:induction false} ExtractCount(t: Turn, ms: seq<Message>, cut: ResultCut)
    ensures |Extract(t, ms, cut)|
         == TurnCount(ms) + if t.user.Some? && (AnyAlive(t.assistants) || Lead(ms)) then 1 else 0
    decreases |ms|
  {
    if ms == [] {
    } else {
      var next := if OpensTurn(ms[0]) then Turn(Some(ms[0]), [], []) else Extend(t, ms[0], cut);
      ExtractCount(next, ms[1..], cut);
      AnyAliveSnoc(t.assistants, ms[0]);
    }
  }

  lemma AnyAliveSnoc(assistants: seq<Message>, m: Message)
    ensures AnyAlive(assistants + [m]) == (AnyAlive(assistants) || KeepsTurnAlive(m))
  {
    if assistants == [] {
      assert [m][1..] == [];
    } else {
      assert (assistants + [m])[1..] == assistants[1..] + [m];
      AnyAliveSnoc(assistants[1..], m);
    }
  }

  /** The scan counts exactly the pairs extraction produces. */
  lemma TailScanCountsPairs(ms: seq<Message>, cut: ResultCut)
    ensures TurnCount(ms) == |ExtractPairs(ms, cut)|
  {
    ExtractCount(NO_TURN, ms, cut);
  }

  /** Extraction from an opener on yields the last pairs of the whole extraction. */
  lemma {:induction false} ExtractSuffix(t: Turn, ms: seq<Message>, i: nat, cut: ResultCut)
    requires i < |ms| && OpensTurn(ms[i])
    ensures |ExtractPairs(ms[i..], cut)| <= |Extract(t, ms, cut)|
    ensures Extract(t, ms, cut)[|Extract(t, ms, cut)| - |ExtractPairs(ms[i..], cut)|..] == ExtractPairs(ms[i..], cut)
    decreases |ms|
  {
    hide Extract, Flush, Extend, OpensTurn;
    ExtractStep(t, ms, cut);
    var front := if OpensTurn(ms[0]) then Flush(Extend(t, ms[0], cut)) else [];
    if i == 0 {
      assert ms[0..] == ms;
      ExtractStep(NO_TURN, ms, cut);
      NothingToFlush(ms[0], cut);
    } else {
      ExtractSuffix(NextTurn(t, ms[0], cut), ms[1..], i - 1, cut);
      assert ms[1..][i - 1..] == ms[i..];
      BackOfConcat(front, Extract(NextTurn(t, ms[0], cut), ms[1..], cut), |ExtractPairs(ms[i..], cut)|);
    }
  }

  lemma NothingToFlush(m: Message, cut: ResultCut)
    ensures Flush(Extend(NO_TURN, m, cut)) == []
  {
  }

  lemma BackOfConcat<T>(front: seq<T>, back: seq<T>, k: nat)
    requires k <= |back|
    ensures (front + back)[|front + back| - k..] == back[|back| - k..]
  {
  }

  lemma {:induction false} TailStartIsOpener(ms: seq<Message>, keep: nat)
    requires 0 < keep <= TurnCount(ms)
    ensures TailStart(ms, keep) < |ms| && OpensTurn(ms[TailStart(ms, keep)])
    ensures TurnCount(ms[TailStart(ms, keep)..]) == keep
  {
    if TurnCount(ms[1..]) >= keep {
      TailStartIsOpener(ms[1..], keep);
      assert ms[1..][TailStart(ms[1..], keep)..] == ms[TailStart(ms, keep)..];
    } else {
      assert ms[0..] == ms;
    }
  }

  /** Extracting from the scan's start index yields exactly the last `keep`
      pairs, tool calls, omitted counts and collected results included. */
  lemma TailScanExtractsLastPairs(ms: seq<Message>, keep: nat, cut: ResultCut)
    ensures var all := ExtractPairs(ms, cut);
            ExtractPairs(ms[TailStart(ms, keep)..], cut) == all[|all| - Min(keep, |all|)..]
  {
    hide *;
    var start := TailStart(ms, keep);
    TailScanCountsPairs(ms, cut);
    if keep == 0 {
      NoneKept(ms, cut);
    } else if TurnCount(ms) < keep {
      TailStartShort(ms, keep);
      assert ms[0..] == ms;
    } else {
      TailStartIsOpener(ms, keep);
      ExtractSuffix(NO_TURN, ms, start, cut);
      ExtractPairsIs(ms, cut);
      TailScanCountsPairs(ms[start..], cut);
    }
    LesserIs(keep, |ExtractPairs(ms, cut)|);
  }

  lemma NoneKept(ms: seq<Message>, cut: ResultCut)
    ensures ms[TailStart(ms, 0)..] == [] && ExtractPairs([], cut) == []
  {
  }

  lemma ExtractPairsIs(ms: seq<Message>, cut: ResultCut)
    ensures ExtractPairs(ms, cut) == Extract(NO_TURN, ms, cut)
  {
  }

  lemma LesserIs(a: int, b: int)
    ensures Min(a, b) == if a < b then a else b
  {
  }

  lemma TailStartShort(ms: seq<Message>, keep: nat)
    requires TurnCount(ms) < keep
    ensures TailStart(ms, keep) == 0
  {
  }

  /** Every call of a kept turn is either listed or counted as omitted. */
  lemma CallsListedOrCounted(t: Turn)
    requires Flush(t) != []
    ensures var p := Flush(t)[0];
            && p.toolCalls <= AllCalls(t.assistants)
            && |p.toolCalls| + p.omittedToolCalls == |AllCalls(t.assistants)|
            && p.results <= t.results
            && |p.results| + p.omittedResults == |t.results|
            && (p.omittedToolCalls > 0 ==> |p.toolCalls| == TOOL_CALLS_PER_TURN_MAX)
  {
  }

  // ----- openers -----

  function CountOpeners(ms: seq<Message>): nat {
    if ms == [] then 0 else (if OpensTurn(ms[0]) then 1 else 0) + CountOpeners(ms[1..])
  }

  /** `turn_openers_start`: where the last `turns` openers begin. */
  function OpenersStart(ms: seq<Message>, turns: nat): (start: nat)
    ensures start <= |ms| && (turns > 0 && ms != [] ==> start < |ms|)
  {
    if turns == 0 then |ms|
    else if ms == [] || CountOpeners(ms[1..]) < turns then 0
    else 1 + OpenersStart(ms[1..], turns)
  }

  method TurnOpenersStart(rawContext: seq<Message>, turns: nat) returns (start: nat)
    ensures start == OpenersStart(rawContext, turns)
  {
    if turns == 0 {
      return |rawContext|;
    }
    var seen := 0;
    var idx: nat := |rawContext|;
    while idx > 0
      invariant idx <= |rawContext| && seen < turns
      invariant seen == CountOpeners(rawContext[idx..])
    {
      idx := idx - 1;
      SuffixStep(rawContext, idx);
      if OpensTurn(rawContext[idx]) {
        seen := seen + 1;
        if seen == turns {
          OpenersStartAt(rawContext, idx, turns);
          return idx;
        }
      }
    }
    assert rawContext[0..] == rawContext;
    return 0;
  }

  lemma {:induction false} OpenersStartAt(ms: seq<Message>, i: nat, turns: nat)
    requires i < |ms| && CountOpeners(ms[i..]) == turns > CountOpeners(ms[i + 1..])
    ensures OpenersStart(ms, turns) == i
  {
    if i == 0 {
      assert ms[0..] == ms && ms[0 + 1..] == ms[1..];
    } else {
      assert ms[1..][i - 1..] == ms[i..] && ms[1..][i - 1 + 1..] == ms[i + 1..];
      OpenersStartAt(ms[1..], i - 1, turns);
      CountOpenersSuffix(ms[1..], i - 1);
    }
  }

  lemma {:induction false} CountOpenersSuffix(ms: seq<Message>, i: nat)
    requires i <= |ms|
    ensures CountOpeners(ms[i..]) <= CountOpeners(ms)
    ensures CountOpeners(ms) == CountOpeners(ms[..i]) + CountOpeners(ms[i..])
  {
    if i == 0 {
      assert ms[0..] == ms;
    } else {
      assert ms[1..][i - 1..] == ms[i..] && ms[..i][1..] == ms[1..][..i - 1];
      CountOpenersSuffix(ms[1..], i - 1);
    }
  }

  lemma CountOpenersAppend(xs: seq<Message>, ys: seq<Message>)
    ensures CountOpeners(xs + ys) == CountOpeners(xs) + CountOpeners(ys)
  {
    CountOpenersSuffix(xs + ys, |xs|);
    assert (xs + ys)[..|xs|] == xs && (xs + ys)[|xs|..] == ys;
  }

  lemma OpenersAreFiltered(ms: seq<Message>)
    ensures CountOpeners(ms) == |Filter(ms, OpensTurn)|
  {
  }
}
