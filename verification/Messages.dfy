/** The journal's messages and the questions the session code asks of one message.

    A message keeps the fields the code reads; both wire shapes are present
    (OpenAI: string content and `toolCalls`; Anthropic: content blocks). */
module Messages {
  import opened Basics

  /** Call arguments: an object as its keys and serialised values, anything
      else as its serialised value. */
  datatype Args = Fields(fields: seq<(Bytes, Bytes)>) | Scalar(json: Bytes)

  datatype ToolCall = ToolCall(id: Option<Bytes>, name: Bytes, args: Args)

  datatype Block =
    | TextBlock(text: Bytes)
    | ToolUse(call: ToolCall)
    | ToolResult(callId: Option<Bytes>, result: Option<Bytes>)
    | OtherBlock

  datatype Content = NoContent | Str(str: Bytes) | Blocks(blocks: seq<Block>)

  datatype Role = User | Assistant | Tool | OtherRole

  datatype Message = Message(
    role: Role,
    content: Content,
    toolCalls: seq<ToolCall>,
    toolCallId: Option<Bytes>,
    reasoning: Option<Bytes>)

  /** "[History note]" */
  const HISTORY_NOTE_PREFIX: Bytes := Ascii("[History note]")

  function BlocksText(blocks: seq<Block>): Bytes {
    if blocks == [] then []
    else (if blocks[0].TextBlock? then blocks[0].text else []) + BlocksText(blocks[1..])
  }

  /** `extract_message_text`: string content, or the text blocks joined. */
  function MessageText(m: Message): Bytes {
    match m.content
    case NoContent => []
    case Str(s) => s
    case Blocks(bs) => BlocksText(bs)
  }

  function StripPrefix(s: Bytes, prefix: Bytes): Option<Bytes> {
    if StartsWith(s, prefix) then Some(s[|prefix|..]) else None
  }

  /** Drop one leading inline block that repeats `reasoning` exactly, and the
      blank line behind it. */
  function StripDuplicatedReasoning(text: Bytes, reasoning: Bytes): (visible: Bytes)
    ensures |visible| <= |text|
  {
    if reasoning == [] then text else
    match StripPrefix(text, Ascii("<think>") + reasoning + Ascii("</think>"))
    case None => text
    case Some(rest) => if StartsWith(rest, [NL, NL]) then rest[2..] else rest
  }

  /** The assistant's visible text: `extract_assistant_transcript_text`. */
  function TranscriptText(m: Message): Bytes {
    match m.reasoning
    case None => MessageText(m)
    case Some(r) => StripDuplicatedReasoning(MessageText(m), r)
  }

  /** A turn opens at a user message with text that is not a legacy note. */
  predicate OpensTurn(m: Message) {
    && m.role == User
    && MessageText(m) != []
    && !StartsWith(MessageText(m), HISTORY_NOTE_PREFIX)
  }

  predicate HasToolResultBlock(m: Message) {
    m.content.Blocks? && exists k :: 0 <= k < |m.content.blocks| && m.content.blocks[k].ToolResult?
  }

  /** A restart boundary also accepts a user message without text, but never a
      tool-result carrier. */
  predicate OpensRestartBoundary(m: Message) {
    && m.role == User
    && !StartsWith(MessageText(m), HISTORY_NOTE_PREFIX)
    && !HasToolResultBlock(m)
  }

  predicate MeaningfulBlock(b: Block) {
    b.ToolUse? || (b.TextBlock? && b.text != [])
  }

  /** `is_valid_message`: only an assistant message that carries nothing is refused. */
  predicate IsValid(m: Message) {
    || m.role != Assistant
    || (m.content.Str? && m.content.str != [])
    || (m.content.Blocks? && exists k :: 0 <= k < |m.content.blocks| && MeaningfulBlock(m.content.blocks[k]))
    || m.toolCalls != []
  }

  function BlockCalls(blocks: seq<Block>): seq<ToolCall> {
    if blocks == [] then []
    else (if blocks[0].ToolUse? then [blocks[0].call] else []) + BlockCalls(blocks[1..])
  }

  /** `collect_tool_calls`: the OpenAI calls, then the Anthropic ones. */
  function Calls(m: Message): seq<ToolCall> {
    m.toolCalls + if m.content.Blocks? then BlockCalls(m.content.blocks) else []
  }

  /** A call with an id that must be answered: `extract_tool_call_ids`. */
  predicate CallsId(m: Message, id: Bytes) {
    exists k :: 0 <= k < |Calls(m)| && Calls(m)[k].id == Some(id)
  }

  /** Whether `m` answers the call `id`: one message's share of `has_tool_result`. */
  predicate Answers(m: Message, id: Bytes) {
    match m.role
    case Tool => m.toolCallId == Some(id)
    case User => m.content.Blocks? &&
                 exists k :: 0 <= k < |m.content.blocks| &&
                             m.content.blocks[k].ToolResult? && m.content.blocks[k].callId == Some(id)
    case _ => false
  }

  /** `message_keeps_turn_alive`: text or a tool call. */
  predicate KeepsTurnAlive(m: Message) {
    TranscriptText(m) != [] || Calls(m) != []
  }

  lemma TextNeedsMeaningfulBlock(blocks: seq<Block>)
    requires BlocksText(blocks) != []
    ensures exists k :: 0 <= k < |blocks| && MeaningfulBlock(blocks[k])
  {
    if !MeaningfulBlock(blocks[0]) {
      TextNeedsMeaningfulBlock(blocks[1..]);
      var k :| 0 <= k < |blocks[1..]| && MeaningfulBlock(blocks[1..][k]);
      assert MeaningfulBlock(blocks[k + 1]);
    }
  }

  lemma CallNeedsMeaningfulBlock(blocks: seq<Block>)
    requires BlockCalls(blocks) != []
    ensures exists k :: 0 <= k < |blocks| && MeaningfulBlock(blocks[k])
  {
    if !MeaningfulBlock(blocks[0]) {
      CallNeedsMeaningfulBlock(blocks[1..]);
      var k :| 0 <= k < |blocks[1..]| && MeaningfulBlock(blocks[1..][k]);
      assert MeaningfulBlock(blocks[k + 1]);
    }
  }

  /** A message the reader refuses carries nothing any other question could see:
      it is an assistant with no text, no call and no answer. */
  lemma InvalidCarriesNothing(m: Message)
    requires !IsValid(m)
    ensures m.role == Assistant && !KeepsTurnAlive(m) && Calls(m) == [] && !OpensTurn(m)
    ensures forall id :: !CallsId(m, id) && !Answers(m, id)
  {
    if m.content.Blocks? {
      if MessageText(m) != [] {
        TextNeedsMeaningfulBlock(m.content.blocks);
        assert false;
      }
      if BlockCalls(m.content.blocks) != [] {
        CallNeedsMeaningfulBlock(m.content.blocks);
        assert false;
      }
    }
  }
}
