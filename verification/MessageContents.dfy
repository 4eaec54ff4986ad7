/** What the questions asked of one message find in it, told of its blocks and
    its text as they are stored. */
module MessageContents {
  import opened Basics
  import opened Parts
  import opened Messages

  // ----- text -----

  predicate IsText(b: Block) {
    b.TextBlock?
  }

  predicate HoldsText(b: Block, text: Bytes) {
    b == TextBlock(text)
  }

  /** `text` is the texts of the text blocks, in order and nothing between them. */
  ghost predicate TextOf(blocks: seq<Block>, text: Bytes) {
    exists texts: seq<Bytes> :: Picked(blocks, IsText, HoldsText, texts) && Joined(text, texts, [])
  }

  lemma {:induction false} BlocksTextIs(blocks: seq<Block>) returns (texts: seq<Bytes>)
    ensures Picked(blocks, IsText, HoldsText, texts) && BlocksText(blocks) == Join(texts, [])
  {
    hide Where, Picked;
    if blocks == [] {
      texts := [];
      NothingPicked(blocks, IsText, HoldsText);
    } else {
      var rest := BlocksTextIs(blocks[1..]);
      var here := if IsText(blocks[0]) then [blocks[0].text] else [];
      texts := here + rest;
      PickedFirst(blocks, IsText, HoldsText, here, rest);
      if IsText(blocks[0]) { JoinFirst(blocks[0].text, rest); } else { assert here + rest == rest; }
    }
  }

  lemma JoinFirst(first: Bytes, rest: seq<Bytes>)
    ensures Join([first] + rest, []) == first + Join(rest, [])
  {
    assert ([first] + rest)[1..] == rest;
    assert first + [] == first;
  }

  /** The message carries `text`, in either wire shape. */
  ghost predicate Says(m: Message, text: Bytes) {
    match m.content
    case NoContent => text == []
    case Str(s) => text == s
    case Blocks(blocks) => TextOf(blocks, text)
  }

  lemma MessageTextIff(m: Message, text: Bytes)
    ensures Says(m, text) <==> text == MessageText(m)
  {
    hide Picked, Joined;
    if m.content.Blocks? {
      var blocks := m.content.blocks;
      var texts := BlocksTextIs(blocks);
      JoinedIff(text, texts, []);
      if other: seq<Bytes> :| Picked(blocks, IsText, HoldsText, other) && Joined(text, other, []) {
        SamePicks(blocks, IsText, HoldsText, texts, other);
      }
    }
  }

  lemma SaysOnly(m: Message)
    ensures Says(m, MessageText(m)) && forall text: Bytes :: Says(m, text) ==> text == MessageText(m)
  {
    hide Says, MessageText;
    forall text: Bytes ensures Says(m, text) <==> text == MessageText(m) {
      MessageTextIff(m, text);
    }
    assert Says(m, MessageText(m));
  }

  /** `visible` is `text` without a leading block that repeats `reasoning`. */
  ghost predicate WithoutRepeat(text: Bytes, reasoning: Bytes, visible: Bytes) {
    var repeat := Ascii("<think>") + reasoning + Ascii("</think>");
    if reasoning != [] && repeat <= text
    then text == repeat + Ascii("\n\n") + visible || (text == repeat + visible && !(Ascii("\n\n") <= visible))
    else visible == text
  }

  lemma StrippedIff(text: Bytes, reasoning: Bytes, visible: Bytes)
    ensures WithoutRepeat(text, reasoning, visible) <==> visible == StripDuplicatedReasoning(text, reasoning)
  {
    var repeat := Ascii("<think>") + reasoning + Ascii("</think>");
    var gap: Bytes := Ascii("\n\n");
    assert gap == [NL, NL];
    if reasoning != [] && repeat <= text {
      var rest := text[|repeat|..];
      assert text == repeat + rest;
      if gap <= rest {
        assert rest == gap + rest[2..];
        assert text == repeat + gap + rest[2..];
      }
      if text == repeat + gap + visible {
        assert visible == text[|repeat| + 2..] && rest[..2] == gap;
      }
      if text == repeat + visible {
        assert visible == rest;
      }
    }
  }

  /** The assistant's text as a reader of the transcript sees it. */
  ghost predicate Shows(m: Message, text: Bytes) {
    exists whole: Bytes ::
      Says(m, whole) && (if m.reasoning.None? then text == whole else WithoutRepeat(whole, m.reasoning.value, text))
  }

  lemma TranscriptIff(m: Message, text: Bytes)
    ensures Shows(m, text) <==> text == TranscriptText(m)
  {
    hide Says, MessageText, WithoutRepeat, StripDuplicatedReasoning;
    SaysOnly(m);
    if m.reasoning.Some? { StrippedIff(MessageText(m), m.reasoning.value, text); }
  }

  lemma ShowsOnly(m: Message)
    ensures Shows(m, TranscriptText(m)) && forall text: Bytes :: Shows(m, text) ==> text == TranscriptText(m)
  {
    hide Shows, TranscriptText;
    forall text: Bytes ensures Shows(m, text) <==> text == TranscriptText(m) {
      TranscriptIff(m, text);
    }
    assert Shows(m, TranscriptText(m));
  }

  // ----- who opens -----

  const LEGACY_NOTE: Bytes := Ascii("[History note]")

  /** A turn opens exactly at a user message that carries some text, unless the
      text starts with the legacy note's. */
  lemma OpensTurnIff(m: Message)
    ensures OpensTurn(m) <==>
              m.role == User && exists text: Bytes :: Says(m, text) && text != [] && !(LEGACY_NOTE <= text)
  {
    hide Says, MessageText;
    SaysOnly(m);
  }

  /** A restart's history opens exactly at a user message, empty or not, that
      carries no tool result and is no legacy note. */
  lemma OpensRestartBoundaryIff(m: Message)
    ensures OpensRestartBoundary(m) <==>
              && m.role == User
              && (exists text: Bytes :: Says(m, text) && !(LEGACY_NOTE <= text))
              && (m.content.Blocks? ==>
                    forall id: Option<Bytes>, r: Option<Bytes> :: ToolResult(id, r) !in m.content.blocks)
  {
    hide Says, MessageText;
    SaysOnly(m);
    if m.content.Blocks? {
      var blocks := m.content.blocks;
      assert forall k :: 0 <= k < |blocks| && blocks[k].ToolResult? ==>
          ToolResult(blocks[k].callId, blocks[k].result) == blocks[k];
    }
  }

  // ----- calls and answers -----

  predicate IsUse(b: Block) {
    b.ToolUse?
  }

  predicate HoldsCall(b: Block, call: ToolCall) {
    b == ToolUse(call)
  }

  lemma {:induction false} BlockCallsAre(blocks: seq<Block>)
    ensures Picked(blocks, IsUse, HoldsCall, BlockCalls(blocks))
  {
    hide Where, Picked;
    if blocks == [] {
      NothingPicked(blocks, IsUse, HoldsCall);
    } else {
      BlockCallsAre(blocks[1..]);
      var here := if IsUse(blocks[0]) then [blocks[0].call] else [];
      PickedFirst(blocks, IsUse, HoldsCall, here, BlockCalls(blocks[1..]));
    }
  }

  /** The message makes the call, in either wire shape. */
  ghost predicate Makes(m: Message, call: ToolCall) {
    call in m.toolCalls || (m.content.Blocks? && ToolUse(call) in m.content.blocks)
  }

  lemma PickedCalls(blocks: seq<Block>, own: seq<ToolCall>, call: ToolCall)
    requires Picked(blocks, IsUse, HoldsCall, own)
    ensures call in own <==> ToolUse(call) in blocks
  {
    if ToolUse(call) in blocks {
      var i :| 0 <= i < |blocks| && blocks[i] == ToolUse(call);
      PickedHas(blocks, IsUse, HoldsCall, own, i);
    }
    if call in own {
      var k :| 0 <= k < |own| && own[k] == call;
      assert HoldsCall(blocks[Where(blocks, IsUse)[k]], call);
    }
  }

  /** A message's calls are the listed ones in order and behind them those of
      its tool_use blocks in order: the calls it makes and no other. */
  lemma CallsAre(m: Message)
    ensures exists own: seq<ToolCall> ::
              && Calls(m) == m.toolCalls + own
              && Picked(if m.content.Blocks? then m.content.blocks else [], IsUse, HoldsCall, own)
    ensures forall call: ToolCall :: call in Calls(m) <==> Makes(m, call)
  {
    hide Picked, BlockCalls;
    var blocks := if m.content.Blocks? then m.content.blocks else [];
    var own := if m.content.Blocks? then BlockCalls(blocks) else [];
    if m.content.Blocks? { BlockCallsAre(blocks); } else { NothingPicked(blocks, IsUse, HoldsCall); }
    assert Calls(m) == m.toolCalls + own;
    forall call: ToolCall ensures call in own <==> ToolUse(call) in blocks {
      PickedCalls(blocks, own, call);
    }
  }

  lemma CallsIdIff(m: Message, id: Bytes)
    ensures CallsId(m, id) <==> exists call: ToolCall :: Makes(m, call) && call.id == Some(id)
  {
    hide Calls, Makes;
    CallsAre(m);
    if CallsId(m, id) {
      var k :| 0 <= k < |Calls(m)| && Calls(m)[k].id == Some(id);
      assert Makes(m, Calls(m)[k]);
    }
  }

  /** The message is a result of the call `id`, in either wire shape. */
  ghost predicate IsResultOf(m: Message, id: Bytes) {
    || (m.role == Tool && m.toolCallId == Some(id))
    || (m.role == User && m.content.Blocks? && exists r: Option<Bytes> :: ToolResult(Some(id), r) in m.content.blocks)
  }

  lemma AnswersIff(m: Message, id: Bytes)
    ensures Answers(m, id) <==> IsResultOf(m, id)
  {
    if m.role == User && m.content.Blocks? {
      var blocks := m.content.blocks;
      forall k | 0 <= k < |blocks| && blocks[k].ToolResult? && blocks[k].callId == Some(id)
        ensures ToolResult(Some(id), blocks[k].result) in blocks
      {
      }
    }
  }

  // ----- what is worth keeping -----

  /** An assistant step keeps its turn when it shows text or makes a call. */
  lemma KeepsTurnAliveIff(m: Message)
    ensures KeepsTurnAlive(m) <==>
              (exists text: Bytes :: Shows(m, text) && text != []) || exists call: ToolCall :: Makes(m, call)
  {
    hide Shows, Makes, Calls, TranscriptText;
    CallsAre(m);
    ShowsOnly(m);
    if Calls(m) != [] { assert Calls(m)[0] in Calls(m); }
  }

  /** The reader refuses exactly the assistant messages without text and calls. */
  lemma IsValidIff(m: Message)
    ensures IsValid(m) <==>
              || m.role != Assistant
              || (exists text: Bytes :: Says(m, text) && text != [])
              || exists call: ToolCall :: Makes(m, call)
  {
    if m.role == Assistant { CarriesIffMeaningful(m); } else { OthersAreValid(m); }
    hide Says, Makes, Calls, MessageText, IsValid;
    CallsAre(m);
    SaysOnly(m);
    if Calls(m) != [] { assert Calls(m)[0] in Calls(m); }
  }

  lemma OthersAreValid(m: Message)
    requires m.role != Assistant
    ensures IsValid(m)
  {
  }

  lemma CarriesIffMeaningful(m: Message)
    requires m.role == Assistant
    ensures IsValid(m) <==> MessageText(m) != [] || Calls(m) != []
  {
    if m.content.Blocks? { MeaningfulIff(m.content.blocks); }
  }

  lemma {:induction false} MeaningfulIff(blocks: seq<Block>)
    ensures (exists k :: 0 <= k < |blocks| && MeaningfulBlock(blocks[k]))
       <==> BlocksText(blocks) != [] || BlockCalls(blocks) != []
  {
    if blocks == [] {
    } else {
      var rest := blocks[1..];
      MeaningfulIff(rest);
      assert forall k :: 0 < k < |blocks| ==> rest[k - 1] == blocks[k];
      if k :| 0 <= k < |rest| && MeaningfulBlock(rest[k]) {
        assert MeaningfulBlock(blocks[k + 1]);
      }
      if k :| 0 <= k < |blocks| && MeaningfulBlock(blocks[k]) {
        if k > 0 { assert MeaningfulBlock(rest[k - 1]); }
      }
    }
  }
}
