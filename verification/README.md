# Verified model of the conversation journal

jyc keeps every topic's conversation in an append-only file, one message a
line. This project models that file at the level of its bytes, together with
everything that writes it, reads it or remembers a position in it, and proves
that these parts agree. Around it stand the topic event bus, the byte-bounded
rendering of old turns, and four smaller stores.

`dafny verify dfyconfig.toml` checks the whole project.

## How it is built

The files follow the program:

- **The journal.** `Writer` (append point, append) and `CrashRuns` (saves that
  die after any byte); `BackwardScan`, `JournalScan`, `BackwardReader` (the
  block scan from the end), `BlockEdges` (which journals it reads as they are
  meant), `ScanFailures` (journals it does not); `ForwardReader` (the block scan
  from an offset); `Depth` (how much of it a caller gets); `ToolCallRepair` and `RepairSafety`
  (what is dropped when a tool call has no result), `WireSafety` (the same told of
  the stored calls and results); `Turns` (user/assistant pairs and the scan from
  the tail), `TurnContents` (what each pair holds); `MessageContents` (what is
  read from one message).
- **The session.** `Session` holds the class `Topic` with the journal, the two
  anchors and the pair count; every method is proved against a function of the
  old state. `Anchors`, `AnchorRuns`, `WindowRuns`, `RestartRuns`, `RestartCrash`,
  `StaleAnchors`, `ReusedIds`, `Corruption`, `SavedJournal`, `PairRecount`,
  `PairCache` prove properties of those functions and of all their runs; `SlideLaws`
  and `LoadLaws` of any single load or count, on any journal.
- **The bus.** `EventBus` and `EventBusDepth` take publish and subscribe as atomic;
  `EventBusSteps`, `EventBusInterleaving` and `EventBusOrder` take them as the
  steps between their lock operations.
- **Rendering.** `Utf8`, `Truncation`, `RenderCalls`, over UTF-8 bytes.
- **Smaller stores.** `RecordFiles`, `UidState`, `KeySets`, `Billing`, `ChatSeq`.
- **Shared.** `Basics`, `Lines`, `Decimal`, and `Parts`: what a pass picked from a
  sequence (`Picked`) and where the parts of a join stand (`Joined`).

The block size is a parameter `size >= 1` (65536 in the source). A message is a
datatype with the fields the code reads, in both wire shapes. JSON is a pair of
functions with four laws (`Codec.Lawful`): an encoded message is a non-empty
line, decodes to itself, no proper prefix of it decodes, and blanks decode to
nothing. `StaleAnchors` also asks that no end of a line decodes.
`LawfulCodecs`, over `Encodings`, gives a codec that meets all of it.
`est_message_tokens` is any function from messages to numbers; a strategy's
extension is any number of turns, and settings may change between loads.

A saved turn (`Anchors.GoodTurn`) opens with a user message, its text empty or
not. It may end anywhere behind it: with an answer, in a dangling call, or at
once. Where a turn must read back on its own (`WindowRuns.OwnTurn`) it also opens
with text and answers no call that dangles in front of it; ids of answered calls
may be reused.

## Where the code and its description part

Each of these is a lemma, most with the exact condition beside it.

- A load deletes the journal when it reads it from its head and finds no
  assistant message. That is meant for corruption, and it also hits a topic
  whose turns so far were all cancelled before an answer
  (`Anchors.LoadDeletesIff`, `AnchorRuns.CancelledFirstTurnIsLost`).
- "From its head" is not the same as all of it: a scan that a corrupt line stops
  inside the first block reports the head as reached, and the guard then deletes
  answered turns in front of that line (`BackwardReader.ReachesHeadIff`,
  `Corruption.LoadDeletesAnyIff`, `Corruption.GuardTakesAnsweredTurn`).
- A full load that deletes the journal leaves the window's anchor behind. In the
  next journal it is rejected or, at the wrong length, accepted, and then hides
  the turns in front of it (`StaleAnchors.StaleAnchorAcceptedIff`,
  `StaleAnchors.StaleAnchorHidesTurn`).
- A turn that reuses the id of a call left dangling, and answers it, brings that
  call back (`ToolCallRepair.RepairAppendIff`, `ReusedIds.ReuseRevivesDroppedCall`).
- The backward scan judges the requested depth before it repairs the tail. If
  the newest turn is a dangling call the caller can get fewer turns than the
  journal holds (`BackwardReader.ReadPrior`, `ScanFailures.DanglingTailLosesTurn`).
- The repair looks for results anywhere later, but drops whole runs. A result
  behind a later dangling call goes with that run, and the call it answered
  then dangles in the repaired context (`RepairSafety.RepairLeavesNoneIff`).
- A blank line inside a block is skipped; the same line at the end of a block
  stops the scan. An incomplete torn tail longer than a block hides the whole
  journal (`BlockEdges.ScanIsTrustedIff`, `ScanFailures.BlankEdgeLosesMessage`,
  `ScanFailures.OversizedTornTailHidesAll`). The pair count can then be wrong
  (`PairRecount.CountIsAdditiveIff`, `ScanFailures.BlankLastLineBreaksCount`).
- A restart on a journal that is one complete line without its newline does not
  hide that message from a full load, and deletes the journal if it is a user
  message (`RestartRuns.RestartEmptiesFullIff`, `RestartRuns.RestartCanLoseJournal`).
- A save that dies at the wrong byte right after a restart undoes the restart
  (`RestartCrash.AnchorLostIff`, `RestartCrash.CrashBringsTurnsBack`).
- The smallest bound that keeps both ends of every text is 138; the documented
  floor of 130 holds for ASCII (`Truncation.EdgesKeptForEveryTextIff`). The
  fallback below it exceeds the bound (`Truncation.BoundHeldIff`).
- A subscriber is offered live events in the order in which their forwards end,
  which is the log's order when publishes do not overlap
  (`EventBusOrder.LiveOrderIff`, `EventBusInterleaving.ForwardingCanReorder`).
- A chat row that lost only its newline is destroyed by the next row, and its
  id can be handed out again (`ChatSeq.WriteKeepsRowsIff`, `ChatSeq.ReadableIdCanComeBack`).

## Model

| member | source | states |
|---|---|---|
| CrashRuns.CrashRecovery | crates/jyc-agent/src/session.rs:258-305 | In every run of saves, each of which may die before the truncation or after any byte behind it, once a later save completes the journal is exactly, in order, a prefix of every batch and the whole of every completed one, all lines terminated; the reader gets back exactly their valid messages |
| CrashRuns.JournalStep | crates/jyc-agent/src/session.rs:30-59 | One save, completed or torn, behind any state a run can leave: the file is again the kept prefixes and at most one fragment of the message that would come next |
| CrashRuns.RunKeepsTerminatedLines | crates/jyc-agent/src/context_reader.rs:281-350 | No step of any run changes, drops or moves a byte of a line that was terminated before it |
| CrashRuns.CompletedRun | crates/jyc-agent/src/session.rs:258-305 | A run of completed saves leaves exactly the lines of all batches, in order |
| Writer.CleanEnd | crates/jyc-agent/src/context_reader.rs:281-317 | The block loop finds the end of the last newline, whatever the block size; behind a torn tail that is a complete message it asks for the missing newline; a file without a newline starts over |
| Writer.CleanEndOfTorn | crates/jyc-agent/src/context_reader.rs:281-350 | On whole lines plus a fragment the append point is in front of an incomplete fragment and behind a complete one, except when the fragment is the whole file |
| Writer.SerializeBatch | crates/jyc-agent/src/session.rs:30-41 | The buffer built by the loop is one line per message, in order |
| Writer.SavesKeepTerminatedLines | crates/jyc-agent/src/context_reader.rs:271-350 | Terminated lines are a prefix of the file after any save, completed or torn at any byte |
| Writer.SaveBehindLines | crates/jyc-agent/src/session.rs:30-59 | Behind whole lines a completed save adds the batch's lines and changes nothing else |
| BackwardScan.ParseBlock | crates/jyc-agent/src/context_reader.rs:525-653 | One block: the carry for the line that starts further back, the complete lines newest first up to a corrupt one, the torn tail of the first block, the joined spanning line |
| BackwardScan.ReadSpanning | crates/jyc-agent/src/context_reader.rs:571-611 | The line that spans a block edge is read whole; blank or corrupt, it stops the scan |
| BackwardScan.ReadComplete | crates/jyc-agent/src/context_reader.rs:613-640 | The lines inside a block are read from the newest on; the loop keeps the ones behind the last corrupt line, skips blank ones |
| BackwardReader.CarryIffMidLine | crates/jyc-agent/src/context_reader.rs:563-569 | After any number of blocks the running scan holds a carry exactly when the byte before its read offset exists and is not a newline, and the carry is the rest of that line |
| JournalScan.BlockStep | crates/jyc-agent/src/context_reader.rs:428-472 | One block adds exactly the messages of the journal lines it completes, and stops exactly when the whole-file reading of those lines stops |
| JournalScan.FoldIsTail | crates/jyc-agent/src/context_reader.rs:613-640 | Splitting one block at its newlines reads its inner lines as the whole file reads them |
| JournalScan.SpanningIsTail | crates/jyc-agent/src/context_reader.rs:571-611 | A block's last line joined with the carry is read as the file's line it is part of |
| JournalScan.EdgeInsideEndsBlock | crates/jyc-agent/src/context_reader.rs:428-458 | A line that a block edge falls into is the one the scan judges as a block's last line |
| JournalScan.InsideBlockEndsNone | crates/jyc-agent/src/context_reader.rs:428-458 | A line strictly inside a block never is |
| BackwardReader.ScanBlocks | crates/jyc-agent/src/context_reader.rs:428-458 | The loop over the blocks returns a tail of the whole-file reading that covers the requested depth, or all of it; unstopped and unbounded it reaches offset 0 |
| BackwardReader.ScanBackwards | crates/jyc-agent/src/context_reader.rs:428-458 | The scan with the repair behind it: exactly the repaired messages of the blocks read, which are the whole reading or a tail of it that covers the depth |
| BackwardReader.ScanValueCovers | crates/jyc-agent/src/context_reader.rs:428-451 | From any point of the scan on, what it ends with is the whole-file reading or a tail of it that covers the depth |
| BackwardReader.ReadAll | crates/jyc-agent/src/context_reader.rs:239-252 | The whole journal: the repaired messages of the whole-file reading, for every block size |
| BackwardReader.ReadPrior | crates/jyc-agent/src/context_reader.rs:126-146 | The slice of what the scan collected; it is the slice the whole journal gives if and only if the collected tail covers the depth after its repair, or the older lines do not change what the repair leaves; always so when no call dangles |
| BlockEdges.ScanIsTrustedIff | crates/jyc-agent/src/context_reader.rs:525-653 | On every journal and for every block size the scan returns exactly the valid messages behind the last corrupt line if and only if every blank line that ends a block has all of them behind it and the torn tail is complete or fits a block (or there are none) |
| BlockEdges.BlankEdgesDecide | crates/jyc-agent/src/context_reader.rs:596-640 | With a fitting torn tail the scan stops exactly at corrupt lines and at blank lines that end a block; unstopped it reads what the journal means; it loses messages exactly when such a blank line has some in front of it |
| BlockEdges.BlocksReadTail | crates/jyc-agent/src/context_reader.rs:428-458 | With a fitting torn tail, whatever the block edges do, the scan returns an end of the messages the journal means |
| BlockEdges.BlockSizeIrrelevantIff | crates/jyc-agent/src/context_reader.rs:25 | All block sizes return the same messages if and only if blocks of one byte read the journal as it is meant, or the last line is blank and all return nothing |
| BlockEdges.OneByteIsHardest | crates/jyc-agent/src/context_reader.rs:25 | What blocks of one byte read as it is meant, blocks of every size do |
| BlockEdges.EdgedSplits | crates/jyc-agent/src/context_reader.rs:428-458 | A file is read as its first lines, in blocks counted from its end, in front of the rest |
| BlockEdges.EndsBlankReadsNothing | crates/jyc-agent/src/context_reader.rs:596-611 | A journal whose last line is blank reads as nothing, for every block size |
| BlockEdges.OversizedTornStops | crates/jyc-agent/src/context_reader.rs:540-611 | An incomplete torn tail longer than a block stops the scan before it has read anything |
| BlockEdges.BlankLineInsideIsSkipped | crates/jyc-agent/src/context_reader.rs:621-640 | With a blank line strictly inside a block the scan from offset 0 is the lines in front of it read onto the lines behind it |
| BlockEdges.BlankLineAtEdgeStops | crates/jyc-agent/src/context_reader.rs:596-611 | A blank line that ends a block drops everything in front of it |
| Codec.IsBlankIff | crates/jyc-agent/src/context_reader.rs:621 | Blank lines are those of blanks, tabs, line feeds, form feeds and carriage returns only |
| ScanFailures.BlankEdgeLosesMessage | crates/jyc-agent/src/context_reader.rs:596-611 | For every codec: two messages with a blank line between them, read in blocks as long as the second line, give the second only; in one block, both |
| ScanFailures.OversizedTornTailHidesAll | crates/jyc-agent/src/context_reader.rs:540-611 | For every codec: one message and a save that died deeper in its line than a block is long read as nothing |
| BackwardReader.UnstoppedReachesHead | crates/jyc-agent/src/context_reader.rs:428-458 | When no line stops the scan it reads down to offset 0 |
| BackwardReader.ReachesHeadIff | crates/jyc-agent/src/context_reader.rs:66-72 | On any journal the whole scan reports the head as reached if and only if no line that starts behind the block at offset 0 stops it: it may have stopped inside that block, with older lines unread |
| BackwardReader.OlderLinesInFront | crates/jyc-agent/src/context_reader.rs:126-146 | Older lines only ever go in front of newer ones, and a stop makes them invisible: the early stop sees a suffix of the full scan |
| Depth.EarlyStopIsSound | crates/jyc-agent/src/context_reader.rs:428-458 | Stopping the scan early gives the same slice as the whole journal, whatever came before, when the tail covers the depth after its repair |
| Depth.EarlyStopIsSoundIff | crates/jyc-agent/src/context_reader.rs:428-458 | For all older and newer messages, also when a dangling run is cut in two between them: both slices are equal if and only if the repaired tail covers the depth or the repair leaves the same of the tail and of the whole |
| Depth.SliceStartsAtOpener | crates/jyc-agent/src/context_reader.rs:509-518 | A slice that leaves something out starts at a turn opener |
| Depth.DanglingTailDefeatsEarlyStop | crates/jyc-agent/src/context_reader.rs:428-458 | The depth is judged before the repair: a newest turn that is a dangling call satisfies it, is then repaired away, and the older answered turn is missing from the slice |
| ScanFailures.ScanStopsInFront | crates/jyc-agent/src/context_reader.rs:428-451 | When the newest lines fill exactly one block and cover the depth, the scan returns their valid messages and the offset in front of them |
| ScanFailures.DanglingTailLosesTurn | crates/jyc-agent/src/context_reader.rs:126-146 | The journal of an answered turn and a newest turn that dangles, byte for byte: read in blocks as long as the newest turn the caller gets one user message, the whole journal gives three messages |
| ScanFailures.EarlyStopCanFail | crates/jyc-agent/src/context_reader.rs:428-458 | For every codec there are a journal and a block size on which the slice misses what the whole journal gives |
| Depth.TurnCountAppend | crates/jyc-agent/src/session.rs:1931-1955 | Answered turns add up over a concatenation whose second part starts its own turn |
| Depth.CountsIgnoreInvalid | crates/jyc-agent/src/session.rs:1931-1989 | Filtering refused messages changes neither the answered turns nor the openers |
| Depth.StartsBehindPrefix | crates/jyc-agent/src/context_reader.rs:509-518 | Both start indices depend only on the suffix that covers the count: any prefix shifts them by its length |
| Depth.SliceOfCoveringTail | crates/jyc-agent/src/context_reader.rs:495-518 | A tail that covers the depth holds the whole slice, whatever precedes it |
| Depth.SliceOfShortTail | crates/jyc-agent/src/context_reader.rs:495-518 | A tail that does not is its own slice, and equals the longer journal's slice only when nothing precedes it |
| ForwardReader.ReadForwardBlock | crates/jyc-agent/src/context_reader.rs:183-222 | One forward block: lines completed in it are read with the offset they started at, the rest is carried on |
| ForwardReader.ReadLinesFrom | crates/jyc-agent/src/context_reader.rs:163-224 | The block loop reads exactly the valid terminated lines from the offset on, each with its line start, for every block size |
| ForwardReader.ReadFrom | crates/jyc-agent/src/context_reader.rs:163-237 | The repaired slice with every offset still beside its own message; nothing at or past the end |
| ForwardReader.ForwardIsExact | crates/jyc-agent/src/context_reader.rs:148-237 | Every returned offset is the line start of a terminated line that decodes to the message beside it; offsets increase |
| ForwardReader.ForwardIsComplete | crates/jyc-agent/src/context_reader.rs:148-237 | Every terminated line that decodes to a valid message is returned, with its line start |
| ForwardReader.ForwardResumes | crates/jyc-agent/src/context_reader.rs:148-162 | Reading again from the offset of message i returns exactly the slice from i on |
| ForwardReader.ReadersAgree | crates/jyc-agent/src/context_reader.rs:126-237 | On a journal without corrupt lines the backward reading is the forward reader's messages plus a complete torn tail; the backward reading stops if and only if a line is corrupt |
| ForwardReader.ForwardAppend | crates/jyc-agent/src/context_reader.rs:163-237 | Appending behind whole lines adds entries and moves none |
| ForwardReader.ForwardReadsWritten | crates/jyc-agent/src/context_reader.rs:163-237 | What a save wrote is what is read: the valid messages, each at the offset its predecessors fill |
| ForwardReader.RepairedIsKept | crates/jyc-agent/src/context_reader.rs:224-237 | Repairing messages and realigning offsets separately keeps them pairwise together |
| ForwardReader.AnchorMoveIsStable | crates/jyc-agent/src/session.rs:561-601 | After the anchor moves to a kept opener, reading from it gives exactly the window that was kept, on any journal |
| ToolCallRepair.RepairDanglingToolCalls | crates/jyc-agent/src/provider/mod.rs:147-201 | The two-pass loop with its index map: kept messages in order, each origin index pointing at the message it came from, increasing |
| ToolCallRepair.MarkDropped | crates/jyc-agent/src/provider/mod.rs:151-183 | The outer loop that jumps from run to run marks the same messages as the one-step walk with a flag |
| ToolCallRepair.RunEnd | crates/jyc-agent/src/provider/mod.rs:167-170 | A dropped run ends at the next opener or at the end, and everything in it is dropped |
| ToolCallRepair.RepairAppend | crates/jyc-agent/src/provider/mod.rs:123-146 | The drop is turn-local: a turn that opens with text and answers no call left dangling is repaired on its own, behind any context, and leaves what was there as it was |
| ReusedIds.ReuseExists | crates/jyc-agent/src/provider/mod.rs:155-161 | Messages that make up such a run exist |
| ToolCallRepair.KeepsDanglingAt | crates/jyc-agent/src/provider/mod.rs:155-161 | Answering no dangling call, said of every position: each message that dangles in front still does with the turn behind it |
| ToolCallRepair.UnrelatedKeepsDangling | crates/jyc-agent/src/provider/mod.rs:155-161 | A turn with fresh call ids answers no dangling call |
| ToolCallRepair.RepairAppendIff | crates/jyc-agent/src/provider/mod.rs:123-146 | A turn that opens with text is repaired on its own, and what was there as before, if and only if it revives nothing the repair had dropped |
| ToolCallRepair.KeptStaysKept | crates/jyc-agent/src/provider/mod.rs:123-146 | What the repair keeps it still keeps with anything behind it |
| ReusedIds.ReuseRevivesDroppedCall | crates/jyc-agent/src/provider/mod.rs:155-161 | A run in which a turn reuses the id of a dangling call and answers it: the next full load is not the last prior and that turn, the dropped call is back |
| ToolCallRepair.RepairSplit | crates/jyc-agent/src/provider/mod.rs:147-201 | A suffix of the context is repaired by its own content and one incoming flag |
| ToolCallRepair.FlagEatsNoOpener | crates/jyc-agent/src/provider/mod.rs:167-170 | That flag can only eat messages up to the next opener |
| ToolCallRepair.RepairKeepsOpeners | crates/jyc-agent/src/provider/mod.rs:131-141 | Every turn opener survives, in order: no later turn is lost |
| ToolCallRepair.RepairIsIdentityIff | crates/jyc-agent/src/provider/mod.rs:147-201 | The repair changes nothing if and only if no call dangles |
| ToolCallRepair.RepairFilterCommute | crates/jyc-agent/src/provider/mod.rs:147-201 | Repairing before or after the validity filter is the same, so the writer's count of an unfiltered batch agrees with the reader's |
| ToolCallRepair.OriginRealigns | crates/jyc-agent/src/provider/mod.rs:193-201 | Any per-message data taken through the index map lines up with the kept messages |
| RepairSafety.FlagsMean | crates/jyc-agent/src/provider/mod.rs:151-183 | A message is dropped if and only if a dangling call stands at or before it with no opener in between |
| RepairSafety.RepairLeavesNoneIff | crates/jyc-agent/src/provider/mod.rs:123-146 | The repaired context has no dangling call, and a second repair changes nothing, if and only if every call outside the dropped runs has an answer outside them |
| WireSafety.UnansweredIff | crates/jyc-agent/src/provider/mod.rs:151-163 | A message dangles exactly when it is an assistant with a listed call or a tool_use block whose id no later tool message and no later tool_result block carries |
| WireSafety.DroppedIff | crates/jyc-agent/src/provider/mod.rs:151-183 | The messages dropped are exactly those with such a call at or in front of them and no opener in between; the others stay, in order |
| WireSafety.RepairedIsAnsweredIff | crates/jyc-agent/src/provider/mod.rs:123-146 | In the repaired context every listed call and every tool_use block with an id has its result behind it if and only if every such call that stays has a result that stays |
| RepairSafety.InTimeLeavesNone | crates/jyc-agent/src/provider/mod.rs:123-146 | When results are written before the next assistant step, one repair always leaves no dangling call |
| RepairSafety.RepairCanLeaveDangling | crates/jyc-agent/src/provider/mod.rs:151-183 | An answer written behind a later dangling call is dropped with it: the earlier call dangles in the repaired context |
| RepairSafety.OneRepairCanFail | crates/jyc-agent/src/provider/mod.rs:123-146 | A concrete context whose repair still has a dangling call and changes again when repaired again |
| Messages.InvalidCarriesNothing | crates/jyc-agent/src/provider/mod.rs:91-121 | A refused message opens no turn, keeps none alive, makes no call and answers none |
| MessageContents.IsValidIff | crates/jyc-agent/src/provider/mod.rs:91-121 | Exactly the assistant messages that carry neither text nor a call, in either wire shape, are refused |
| LoadLaws.NoEmptyAssistant | crates/jyc-agent/src/provider/mod.rs:91-121 | No load, of any journal and with any anchors, returns an assistant message without text and calls |
| MessageContents.MessageTextIff | crates/jyc-agent/src/session.rs:1254-1271 | A message's text is its string, or the texts of all its text blocks in order with nothing between them; no other text is |
| MessageContents.StrippedIff | crates/jyc-agent/src/session.rs:1301-1323 | One leading block that repeats the reasoning exactly goes, with the blank line behind it; any other text stays as it is |
| MessageContents.TranscriptIff | crates/jyc-agent/src/session.rs:1285-1290 | What the transcript shows of an assistant is its text without such a repeat of its own reasoning |
| MessageContents.OpensTurnIff | crates/jyc-agent/src/session.rs:1732-1738 | A turn opens exactly at a user message that carries some text, in either wire shape, not starting with `[History note]` |
| MessageContents.OpensRestartBoundaryIff | crates/jyc-agent/src/session.rs:1746-1760 | A restart's history opens exactly at a user message, its text empty or not, that has no tool_result block and no `[History note]` in front |
| MessageContents.CallsAre | crates/jyc-agent/src/session.rs:1384-1425 | The calls of a message are all its listed calls in order, then the calls of all its tool_use blocks in order; it makes these and no others |
| MessageContents.CallsIdIff | crates/jyc-agent/src/provider/mod.rs:594-624 | An id has to be answered exactly when some call of the message, in either wire shape, carries it |
| MessageContents.AnswersIff | crates/jyc-agent/src/provider/mod.rs:212-230 | A message answers an id exactly when it is a tool message for it or a user message with some tool_result block for it |
| MessageContents.KeepsTurnAliveIff | crates/jyc-agent/src/session.rs:1769-1779 | An assistant step keeps its turn exactly when it shows text or makes a call |
| Turns.ExtractPairsInner | crates/jyc-agent/src/session.rs:1836-1890 | The loop over the messages gives the pairs of the recursive definition, an opener's own tool results included in the turn it closes |
| Turns.FlushTurn | crates/jyc-agent/src/session.rs:1633-1719 | Closing a turn appends its pair, or nothing when the turn has no user or no payload |
| Turns.GatherAllMeans | crates/jyc-agent/src/session.rs:1650-1685 | One pass gathers the texts, the calls, the payload flag and the last non-empty reasoning of the turn |
| TurnContents.PairsAreTurns | crates/jyc-agent/src/session.rs:1836-1890 | The pairs of a context are, one for one and in order, its answered openers, those with a live assistant step in front of the next opener; each pair tells the opener, all assistants up to the next opener and all results up to and including the ones that opener carries |
| TurnContents.FlushTells | crates/jyc-agent/src/session.rs:1633-1719 | A turn leaves a pair behind exactly when it has a user message and some step shows text or makes a call; the pair holds the user message as it was, the shown texts of all steps joined by newlines (none exactly when no step shows text), the last non-empty reasoning, the first 20 listed calls and first 8 results, and how many are missing |
| TurnContents.TextsReadBack | crates/jyc-agent/src/session.rs:1699-1711 | When no text has a newline, the lines of the merged content are the steps' texts, every one, in order |
| TurnContents.LastReasoningIs | crates/jyc-agent/src/session.rs:1668-1672 | The reasoning is that of the last step that has any |
| TurnContents.AllCallsAre | crates/jyc-agent/src/session.rs:1673-1681 | The turn's calls are those of all its steps in order, the legacy reply call left out, each rendered |
| TurnContents.RenderToolCallShows | crates/jyc-agent/src/session.rs:1430-1441 | A rendered call is its name and, in brackets, all its arguments in order, each a key and its value, a value above 200 bytes as its longest head and the count of what is missing |
| TurnContents.ToolResultTextsAre | crates/jyc-agent/src/session.rs:1903-1919 | Collected results are a tool message's own text or the texts of all tool_result blocks in order, each cut; a user's own words are none |
| Turns.PairsTailStart | crates/jyc-agent/src/session.rs:1931-1955 | The backward loop returns where the last `keep` answered turns begin and how many there are |
| Turns.TurnOpenersStart | crates/jyc-agent/src/session.rs:1975-1989 | The backward loop returns where the last openers begin |
| Turns.ExtractCount | crates/jyc-agent/src/session.rs:1836-1890 | From any open turn, extraction yields one pair per answered opener and one for the open turn if it is or will be answered |
| Turns.TailScanCountsPairs | crates/jyc-agent/src/session.rs:1931-1955 | The tail scan counts exactly the pairs extraction produces |
| Turns.ExtractSuffix | crates/jyc-agent/src/session.rs:1836-1890 | Extraction from an opener on is the tail of the whole extraction, contents included |
| Turns.TailScanExtractsLastPairs | crates/jyc-agent/src/session.rs:1931-1955 | For every context and every `keep`, extracting from the scan's start index yields exactly the last `keep` pairs with calls, omitted counts and results |
| Turns.CallsListedOrCounted | crates/jyc-agent/src/session.rs:1685-1689 | Listed calls are the turn's first ones and listed plus omitted is all of them; the same for results; something is omitted only behind a full list |
| Turns.OpenersAreFiltered | crates/jyc-agent/src/session.rs:1963-1969 | The opener count is the number of messages that open a turn, in any position |
| Session.Topic.SaveRawContext | crates/jyc-agent/src/session.rs:258-305 | The save in place: new file contents and the pair count kept or dropped beside it |
| Session.Topic.ExtendCount | crates/jyc-agent/src/context_reader.rs:358-386 | The count is extended only when it belongs to the file as it was before the append, dropped otherwise |
| Session.Topic.RestartContextWindow | crates/jyc-agent/src/session.rs:1172-1198 | Both anchors move to the clean end; the journal is not touched; nothing happens without session and journal |
| Session.Topic.ReadAnchoredSlice | crates/jyc-agent/src/session.rs:482-529 | Which stored offsets are accepted and what is read from them |
| Session.Topic.LoadContextFull | crates/jyc-agent/src/session.rs:448-466 | The full load: from the restart anchor when it is accepted, otherwise the anchor is cleared and the whole journal read |
| Session.Topic.ReadWindow | crates/jyc-agent/src/session.rs:538-560 | The window's slice: from its anchor when accepted, otherwise from the head with the anchor cleared |
| Session.Topic.SlideWindow | crates/jyc-agent/src/session.rs:561-601 | When the slide is due the anchor and the returned slice move to the same opener |
| Session.Topic.LoadContextWindowed | crates/jyc-agent/src/session.rs:538-602 | The sliding load as a whole: new state and returned prior |
| Session.Topic.LoadContext | crates/jyc-agent/src/session.rs:406-443 | Dispatch of both modes and the empty results without session or journal |
| Session.Topic.CountPairs | crates/jyc-agent/src/context_reader.rs:258-269 | The kept count when length and time match the file, a recount otherwise |
| Session.FindWindowStart | crates/jyc-agent/src/session.rs:713-732 | The opener `keep` from the end and its offset; none when there are not more openers than that |
| Session.TotalWeight | crates/jyc-agent/src/session.rs:561-580 | The loop sums the weights of all messages of the window |
| Session.CollectOpeners | crates/jyc-agent/src/session.rs:719-724 | The positions of the openers, in order |
| AnchorRuns.AnchorsStayTrustworthy | crates/jyc-agent/src/session.rs:482-643 | In every run of completed saves, loads in any mode with any settings, token writes and restarts: the journal is exactly the saved turns it still holds, each anchor is a line start or the clean end, no load rejects or clears one, and the next load deletes the journal exactly under the stated condition |
| AnchorRuns.AnchorsNeverDecrease | crates/jyc-agent/src/session.rs:561-601 | Over any run neither anchor ever moves backwards |
| AnchorRuns.RunInvariant | crates/jyc-agent/src/session.rs:448-643 | After every run, deletions included, the journal is the lines of the turns it holds and both anchors point at openers or at its end |
| AnchorRuns.AnsweredRunsKeepAll | crates/jyc-agent/src/session.rs:610-643 | When the first turn of a topic reads back with an assistant message, no load of any run deletes the journal and it holds every saved turn |
| AnchorRuns.UnansweredFirstTurnIsLost | crates/jyc-agent/src/session.rs:610-643 | A first turn that reads back without an assistant message is deleted by the next load of either mode that does not slide |
| AnchorRuns.CancelledFirstTurnIsLost | crates/jyc-agent/src/session.rs:610-643 | A first turn cancelled before any answer, saved as its user message alone, is deleted by the next load whatever its settings |
| AnchorRuns.StaleAnchorIsRejected | crates/jyc-agent/src/session.rs:505-529 | A full load that deletes the journal after the window had slid leaves an anchor past the end; a sliding load over a new journal no longer than it rejects and clears it |
| StaleAnchors.CancelledSlideLeavesAnchor | crates/jyc-agent/src/session.rs:610-643 | A run that gets there: two turns cancelled before any answer, a sliding load, a full load |
| StaleAnchors.AnchorAcceptedIff | crates/jyc-agent/src/session.rs:505-529 | A window anchor at any offset behind the head of a journal of completed saves is accepted if and only if it lies in front of the end and the first message kept from it on opens a turn; then the window is what follows, otherwise the whole journal |
| StaleAnchors.StaleAnchorAcceptedIff | crates/jyc-agent/src/session.rs:505-529 | So it is for every stale anchor and any completed saves after the deletion |
| StaleAnchors.StaleAnchorHidesTurn | crates/jyc-agent/src/session.rs:538-560 | When the same two turns come again, every sliding load accepts the old anchor and returns the second one alone |
| StaleAnchors.ForwardFromAnywhere | crates/jyc-agent/src/context_reader.rs:163-224 | Reading a journal of completed saves from any byte gives the valid messages whose lines start there or behind it |
| Anchors.AnchorIsTrusted | crates/jyc-agent/src/session.rs:505-529 | An anchor at an opener, or a restart anchor at the clean end, is always accepted |
| Anchors.AnchorsNeverRejected | crates/jyc-agent/src/session.rs:448-560 | Both loads read from exactly the stored offsets |
| LoadLaws.LoadKeepsOtherAnchor | crates/jyc-agent/src/session.rs:664-703 | A load in one mode never touches the other mode's anchor, whatever becomes of its own, and changes the journal only by deleting it; on any journal with any anchors |
| Anchors.LoadDeletesIff | crates/jyc-agent/src/session.rs:610-643 | In every state a run of completed saves leaves, with every setting, a load deletes the journal if and only if both files exist, its mode's anchor is absent or 0, it does not slide, and the turns held are some and read back without an assistant; otherwise it returns what is behind its anchor |
| Corruption.LoadDeletesAnyIff | crates/jyc-agent/src/session.rs:604-643 | On any journal, corrupt or torn, a load deletes it if and only if its anchor is absent, 0 or rejected, what it reads from the head is some messages without an assistant, and: in full mode no line behind the block at the head stopped the scan, in sliding mode the window does not slide |
| Corruption.GuardTakesAnsweredTurn | crates/jyc-agent/src/session.rs:604-643 | An answered turn, a corrupt line and a cancelled turn in one block: a full load deletes all of it, a sliding load returns the three messages |
| Corruption.CorruptScan | crates/jyc-agent/src/context_reader.rs:428-653 | On that journal the backward scan returns the cancelled turn alone and has reached the head |
| Corruption.CorruptForward | crates/jyc-agent/src/context_reader.rs:163-224 | The forward reader skips the corrupt line and returns all three messages |
| Anchors.ScanReadsWritten | crates/jyc-agent/src/context_reader.rs:428-653 | On a journal of completed saves the block scan reads every valid message and reaches the head, for every block size |
| Anchors.ReadBackAppend | crates/jyc-agent/src/provider/mod.rs:123-146 | A further turn that opens with text and answers no dangling call is read back behind, and independently of, what was there |
| Anchors.SlideTarget | crates/jyc-agent/src/session.rs:713-732 | The slide moves the anchor to an opener behind the old anchor |
| Anchors.InvSave | crates/jyc-agent/src/session.rs:258-305 | A completed save of any turn that opens with a user message, its text empty or not, keeps both anchors valid and only extends the journal |
| Anchors.InvLoad | crates/jyc-agent/src/session.rs:538-643 | A load keeps the invariant for the turns left and never moves an anchor back; a deleting load keeps it if and only if the window's anchor was absent or 0 |
| Anchors.InvRestart | crates/jyc-agent/src/session.rs:1172-1198 | A restart puts both anchors at the end of the journal |
| WindowRuns.RunRefinesView | crates/jyc-agent/src/session.rs:406-643 | Every run whose turns open with text and answer no dangling call is a run of a machine on two message lists: saves append, slides cut to a suffix, restarts and the corruption guard empty them |
| WindowRuns.LoadRefinesPrior | crates/jyc-agent/src/session.rs:406-602 | Every load in every such run returns exactly what the list machine returns |
| WindowRuns.TrimLaws | crates/jyc-agent/src/session.rs:561-601 | A load returns the window unchanged or a strictly shorter suffix starting at an opener with exactly max(1, window) openers; never more than that and the extension; it cuts if and only if there are more than max(1, window) openers and they are above the bound, or at the bound with a budget set and exceeded |
| SlideLaws.OverBudgetCuts | crates/jyc-agent/src/session.rs:563-601 | On any journal and with any anchor: a window of at least max(1, window) + extend openers, more than max(1, window), that weighs more than a budget above 0 is cut to exactly max(1, window) openers, and the anchor stored reads back exactly what was returned |
| SlideLaws.OverBoundCuts | crates/jyc-agent/src/session.rs:561-601 | So is a window above its bound, whatever it weighs |
| SlideLaws.OtherwiseKept | crates/jyc-agent/src/session.rs:561-601 | Otherwise, below the bound, at the bound without a budget, with budget 0 or within it, or with no opener to cut at, the window is returned as it is and no other anchor stored, unless the corruption guard deletes the journal |
| SlideLaws.WeightAdds | crates/jyc-agent/src/session.rs:565-574 | What the budget is compared with adds up over a concatenation: with the weight of one message, the sum of the estimates of all messages |
| SlideLaws.WeightOfOne | crates/jyc-agent/src/session.rs:565-574 | One message weighs its own estimate |
| WindowRuns.SlidesAreSpaced | crates/jyc-types/src/channel.rs:999-1009 | On the list machine, between two slides with the same settings at least max(1, max_window - window) new openers are saved, even when the token budget is always exceeded |
| WindowRuns.RunSlidesAreSpaced | crates/jyc-agent/src/session.rs:561-601 | The same of the topic itself, over every such run: between two loads that move the window's anchor |
| WindowRuns.NextLoadFrozenOrCut | crates/jyc-agent/src/session.rs:538-602 | In every such run, after a load and a saved turn the next load returns the earlier prior and the turn behind it unchanged, or an end of that with exactly `window` openers, or finds no assistant and deletes the journal; never more than `max_window` openers |
| WindowRuns.WindowGrowsBySaves | crates/jyc-agent/src/session.rs:538-602 | Loads, restarts and token writes never add an opener to the window; saves add their own |
| WindowRuns.ViewSlide | crates/jyc-agent/src/session.rs:538-602 | A sliding load that keeps the journal returns what the list machine cuts, and the moved anchor leaves exactly that behind it |
| WindowRuns.MovesWindowIff | crates/jyc-agent/src/session.rs:561-601 | A load moves the window's anchor exactly when it is a sliding one, both files exist, and it cuts the window |
| WindowRuns.ReadBackKeepsOpeners | crates/jyc-agent/src/provider/mod.rs:131-141 | Filtering and repairing a saved turn keeps its opener count, so the slide trigger sees every turn |
| RestartRuns.RestartEmptiesWindow | crates/jyc-agent/src/session.rs:1172-1198 | After a restart the next sliding load is empty and changes nothing, on every journal whatsoever |
| RestartRuns.RestartEmptiesFullIff | crates/jyc-agent/src/session.rs:448-466 | After a restart the next full load is empty and changes nothing if and only if the journal is not a single unterminated line that decodes and survives the repair |
| RestartRuns.RestartEmptiesBoth | crates/jyc-agent/src/session.rs:1172-1198 | On every journal that is empty or has a newline both modes load nothing next and the journal bytes stay |
| RestartRuns.RestartCanLoseJournal | crates/jyc-agent/src/session.rs:610-643 | A journal of one unterminated user message: restart, then a full load, deletes it |
| RestartRuns.RestartThenTurns | crates/jyc-agent/src/session.rs:1172-1198 | After a restart on any journal and any further completed turns both modes return those turns read back and nothing from before; only a restart anchor at offset 0 with no assistant behind it, and no slide, makes the load delete them instead |
| RestartCrash.AnchorLostIff | crates/jyc-agent/src/session.rs:505-529 | After a restart with something in front of the anchor, a save that dies makes the anchor unreadable if and only if it wrote the recovered line's newline without a whole first line behind it, or exactly the first line without its newline |
| RestartCrash.LostAnchorReadsAll | crates/jyc-agent/src/session.rs:448-466 | Then the next full load clears the anchor and reads the whole journal |
| RestartCrash.CrashBringsTurnsBack | crates/jyc-agent/src/session.rs:448-466 | On a journal of completed saves it returns every turn from before the restart again, and the message behind them |
| Anchors.CleanTurnsReadBackExactly | crates/jyc-agent/src/session.rs:448-529 | Turns whose calls are answered and whose messages are valid read back unchanged |
| SavedJournal.TrustedAppended | crates/jyc-agent/src/context_reader.rs:271-350 | Whole lines followed by written lines read as the old reading followed by the written messages |
| SavedJournal.TrustedTorn | crates/jyc-agent/src/context_reader.rs:323-350 | A torn fragment behind whole lines adds its message if complete and nothing otherwise |
| PairCache.TotalPairsIsRecount | crates/jyc-agent/src/context_reader.rs:258-269 | Over every history of saves, saves that die, invalidations, removals and outside rewrites, `total_pairs` equals a fresh recount, when saved turns open with text and answer no dangling call, nobody writes a blank line, no fragment outgrows a block, and different contents have different length/time stamps |
| PairCache.CleanIsLegal | crates/jyc-agent/src/context_reader.rs:358-386 | In every such history the journal never holds a blank line or an oversized fragment, so every extension of the count is right |
| PairCache.TotalPairsOnAnyJournal | crates/jyc-agent/src/context_reader.rs:258-269 | The same with blank lines in the journal, when at each save the old lines show as many pairs with blocks counted from the new end as before |
| PairCache.CountIsAlwaysOfPast | crates/jyc-agent/src/context_reader.rs:358-424 | In these histories the kept count is always the recount of some journal the topic really had, with that journal's stamp |
| LoadLaws.FailedSaveRecounts | crates/jyc-agent/src/session.rs:294-304 | After a save that failed the pairs are counted afresh, whatever the file's length and stamp |
| LoadLaws.DeletedRecounts | crates/jyc-agent/src/session.rs:625-640 | After a load that deleted the journal the next journal is counted afresh, whatever its length and stamp |
| LoadLaws.RewrittenRecounts | crates/jyc-agent/src/context_reader.rs:395-405 | A file rewritten from outside is counted afresh when its length or its stamp alone differs |
| LoadLaws.RewrittenIsNotExtended | crates/jyc-agent/src/context_reader.rs:358-372 | And a save behind such a rewrite drops the old count instead of extending it |
| PairRecount.SavedReading | crates/jyc-agent/src/context_reader.rs:428-458 | A saved file is read as the old lines, in blocks counted from the new end, and the batch behind them |
| PairRecount.SavedRecount | crates/jyc-agent/src/context_reader.rs:358-386 | On any journal the recount after a save is the pairs the old lines show with blocks counted from the new end, plus the batch's own |
| PairRecount.CountIsAdditiveIff | crates/jyc-agent/src/context_reader.rs:358-386 | On any journal the extended count is right if and only if the old lines show as many pairs with blocks counted from the new end as the recount of the old file: a condition on the old file and the new length |
| PairRecount.CountIsAdditive | crates/jyc-agent/src/context_reader.rs:358-386 | So it is whenever both files are read as they are meant |
| PairRecount.AdditiveWithoutBlanksIff | crates/jyc-agent/src/context_reader.rs:358-386 | Without blank lines: if and only if the torn tail fits a block or there was nothing to count |
| ScanFailures.BlankLastLineBreaksCount | crates/jyc-agent/src/context_reader.rs:358-386 | One answered turn and a blank last line: the kept count is 0, a second turn makes it 1, a recount gives 2 |
| PairRecount.PairsAppend | crates/jyc-agent/src/session.rs:1931-1955 | Pairs are additive over an appended batch that starts with an opener and answers no dangling call, refused messages and repair included |
| PairRecount.BaseReadsLikeJournal | crates/jyc-agent/src/context_reader.rs:281-350 | Recovering the torn tail does not change what any journal means, unless it has no newline |
| EventBus.SimpleThreadEventBus.PublishEvent | crates/jyc-core/src/topic_event_bus.rs:94-109 | The log drops its oldest entry at twenty and takes the event; closed subscribers go; every open one is offered the event |
| EventBus.SimpleThreadEventBus.ForwardToSubscribers | crates/jyc-core/src/topic_event_bus.rs:68-89 | Exactly the open listed channels are offered the event, each once; a full one drops it |
| EventBus.SimpleThreadEventBus.SubscribeChannel | crates/jyc-core/src/topic_event_bus.rs:112-137 | A new channel with the log replayed into it, listed behind the others |
| EventBus.ReplayKeepsAll | crates/jyc-core/src/topic_event_bus.rs:112-130 | Replaying into a fresh channel never drops: the log is shorter than the channel is deep |
| EventBusDepth.ChannelStep | crates/jyc-core/src/topic_event_bus.rs:68-89 | In every run an event reaches an open subscriber if and only if fewer than 40 others wait for it; nothing anybody else does touches its channel |
| EventBusDepth.NeverDeeper | crates/jyc-core/src/topic_event_bus.rs:112-119 | No channel ever holds more than 40 unread events |
| EventBusDepth.ChannelOpens | crates/jyc-core/src/topic_event_bus.rs:112-137 | A new subscriber starts with the last 20 events of the history, unread, and other channels stay as they are |
| EventBusDepth.FirstTwentyArrive | crates/jyc-core/src/topic_event_bus.rs:112-119 | The first 20 events behind a subscribe all arrive, in order behind the replay, even if nothing is read, whatever others do in between |
| EventBusDepth.ClosedGetsNothing | crates/jyc-core/src/topic_event_bus.rs:71-72 | A subscriber that left gets nothing any more |
| EventBus.DeliveryInRuns | crates/jyc-core/src/topic_event_bus.rs:68-137 | In every run the log is the last min(20, n) events; what a subscriber accepted is a subsequence, in order, of the history from twenty events before it subscribed; if its channel was never full it is exactly that history |
| EventBus.SubscribersAreIndependent | crates/jyc-core/src/topic_event_bus.rs:68-89 | Leaving out everything other receivers do, lag and departure included, changes nothing for a subscriber |
| EventBusSteps.Reachable | crates/jyc-core/src/topic_event_bus.rs:68-137 | In every interleaving each lock has at most one holder, the log is the last twenty pushes, exactly the finished subscribes are listed, and a subscriber was offered an event once per replayed log and forward that included it |
| EventBusInterleaving.NoGapOneDuplicate | crates/jyc-core/src/topic_event_bus.rs:68-137 | In every interleaving of the lock-separated steps: an event in the replayed log is offered once or twice, a later one that was forwarded exactly once, never more than twice; twice if and only if it was forwarded and the subscribe fell between its two steps |
| EventBusInterleaving.StraddlesIff | crates/jyc-core/src/topic_event_bus.rs:94-137 | The state records exactly whether, at some time in the run, the subscriber had replayed an event not yet forwarded |
| EventBusInterleaving.NeverStuck | crates/jyc-core/src/topic_event_bus.rs:94-137 | The holder of the log lock never waits, and while any call is unfinished some call can move |
| EventBusInterleaving.EveryMoveCounts | crates/jyc-core/src/topic_event_bus.rs:94-137 | Every call takes four moves: no schedule of moves runs forever |
| EventBusInterleaving.ForwardingCanReorder | crates/jyc-core/src/topic_event_bus.rs:68-109 | Two overlapping publishes can reach a subscriber in the opposite order to the log |
| EventBusOrder.LiveOrderIff | crates/jyc-core/src/topic_event_bus.rs:68-89 | In every interleaving, of two events forwarded to a subscriber one is offered before the other if and only if at some time its forward had ended and the other's had not |
| EventBusOrder.LiveInLogOrder | crates/jyc-core/src/topic_event_bus.rs:68-109 | When no two publishes are between push and forward at once, a subscriber is offered live events in the order of the log |
| EventBusOrder.LiveReachable | crates/jyc-core/src/topic_event_bus.rs:68-137 | What a subscriber is offered starts with its replay; behind it comes each event forwarded to it, once |
| Truncation.KeepingEdgesBound | crates/jyc-agent/src/session.rs:1477-1503 | When both ends are kept the result is at most `max` bytes: a head and a tail of the text, cut between characters, around a marker whose count reads back as exactly the missing bytes |
| Truncation.KeepingEdgesMeans | crates/jyc-agent/src/session.rs:1477-1503 | The result is the text exactly when it fits; otherwise both ends around the counting marker, or the head-only cut |
| Truncation.BoundHeldIff | crates/jyc-agent/src/session.rs:1477-1503 | For valid text the result is at most `max` bytes if and only if the text fits or both ends are kept: the head-only fallback always exceeds the bound |
| Truncation.EdgesFillBudget | crates/jyc-agent/src/session.rs:1484-1489 | The head is at most three bytes short of two thirds of the content budget, the tail at most three short of the rest |
| Truncation.MarkerFitsReserve | crates/jyc-agent/src/session.rs:1477-1503 | 87 fixed marker bytes and the count of any `usize` fit the reserve with 21 bytes to spare |
| Truncation.EdgesKeptForEveryTextIff | crates/jyc-types/src/channel.rs:802-830 | Both ends survive for every text if and only if the bound is at least 138 |
| Truncation.WideTailLosesItsEnd | crates/jyc-types/src/channel.rs:822-829 | Below 138 a text ending in a four-byte character loses its end |
| Truncation.FloorForAscii | crates/jyc-types/src/channel.rs:813-830 | For ASCII text both ends survive if and only if the bound is at least the documented 130 |
| Truncation.KeepingEdgesIsUtf8 | crates/jyc-agent/src/session.rs:1477-1503 | The result is valid UTF-8 whenever the text is |
| Utf8.TruncateTextIsUtf8 | crates/jyc-agent/src/session.rs:1447-1455 | So is the head-only cut |
| Utf8.TruncateTextKeepsHead | crates/jyc-agent/src/session.rs:1447-1455 | Text that fits comes back as it is; longer text as its longest head of at most `max` bytes that ends between characters, and a note whose count reads back as exactly the missing bytes |
| Utf8.CutAtBoundary | crates/jyc-agent/src/session.rs:1477-1503 | Cutting valid text at a boundary leaves valid text on both sides |
| Utf8.EncodedIsOneCharacter | crates/jyc-agent/src/session.rs:1447-1455 | Every code point's UTF-8 bytes are valid text with a boundary at their ends only, whatever follows |
| Utf8.BoundaryNearby | crates/jyc-agent/src/session.rs:1488-1489 | A boundary is at most three bytes away in either direction |
| RenderCalls.RenderBounded | crates/jyc-agent/src/session.rs:1579-1621 | The note never exceeds the limit; it is the largest number of whole calls that fits with its marker; when not even one fits, the longest head of the first call with the marker behind it if the limit can hold the marker; valid UTF-8 for valid calls |
| RenderCalls.NothingUnaccounted | crates/jyc-agent/src/session.rs:1562-1570 | The note's body is the turn's first calls, and its count reads back as every call of the turn that is not shown, dropped by the cap or by the note |
| RenderCalls.NoteTells | crates/jyc-agent/src/session.rs:1583-1600 | A note is its whole calls in order with a comma and a blank between each two, then, if any are hidden, a marker that counts them, in the singular for one |
| Parts.JoinedIff | crates/jyc-agent/src/session.rs:1593-1594 | A join holds every part at the place its predecessors and their separators fill, a separator between each two and nothing else; only the join does |
| RenderCalls.NameIsShown | crates/jyc-agent/src/session.rs:1571-1578 | A cut call still shows its whole name as soon as the name fits |
| UidState.StateManager.TrackUid | crates/jyc-channels/src/state_manager.rs:121-157 | One tracked UID: set and file both grow by it, and both are compacted beyond the threshold |
| UidState.StateManager.Compact | crates/jyc-channels/src/state_manager.rs:164-191 | Compaction keeps exactly the UIDs from the floor on and rewrites the file in any order, or leaves both alone |
| UidState.DiskMatchesMemory | crates/jyc-channels/src/state_manager.rs:101-191 | In every run of tracking, cursor moves, saves, resets and restarts the file parses to the set in memory |
| UidState.ForgetStep | crates/jyc-channels/src/state_manager.rs:160-177 | A known or just tracked UID is gone after a step if and only if the step was a reset or a track that overfilled the set with the cursor more than 1000 ahead of it |
| UidState.ForgottenOnlyByCompaction | crates/jyc-channels/src/state_manager.rs:160-177 | Over whole runs a tracked UID is missing only behind such a step; a restart never loses one |
| UidState.CursorStays | crates/jyc-channels/src/state_manager.rs:204-210 | In every run the cursor last moved to stays, over tracking, compaction, saves and updates without a UID |
| UidState.RestartResumes | crates/jyc-channels/src/state_manager.rs:69-97 | A restart goes on from the cursor as it was last saved, from none when nothing was saved behind the last reset |
| UidState.ParseUidIff | crates/jyc-channels/src/state_manager.rs:107-110 | A line is a UID exactly when, without the white space around it, it is a numeral below 2^32 |
| KeySets.PersistentKeySet.InsertKey | crates/jyc-channels/src/git_host.rs:52-66 | A new key goes to set and file, a known one to neither |
| KeySets.PersistentKeySet.CompactKeys | crates/jyc-channels/src/git_host.rs:70-112 | Exactly `max` keys stay, none with a lower id than a dropped one, and the file lists them |
| KeySets.SortById | crates/jyc-channels/src/git_host.rs:87 | Sorted by id with the same keys, ties in any order |
| KeySets.NewestOf | crates/jyc-channels/src/git_host.rs:88-92 | The last `max` of the sorted entries are the newest keys |
| KeySets.KeyIdIs | crates/jyc-channels/src/git_host.rs:79-83 | A key's id is the number in front of its first colon, or all of it without one, if that is a numeral below 2^64, and 0 otherwise |
| KeySets.KeyIdOfNumber | crates/jyc-channels/src/git_host.rs:75-83 | A key written as number, colon and anything has that number for its id |
| KeySets.ParseKeyIff | crates/jyc-channels/src/git_host.rs:35-39 | A line is a key exactly when something is left of it without the white space around it |
| KeySets.InsertAgreesIff | crates/jyc-channels/src/git_host.rs:52-66 | After an insert the file reads back as the set if and only if the key was known or is a line of its own: not blank, no newline, no blanks around it |
| KeySets.DiskMatchesMemory | crates/jyc-channels/src/git_host.rs:30-112 | In every run over such keys the file parses to the set in memory |
| KeySets.ForgottenOnlyForNewer | crates/jyc-channels/src/git_host.rs:70-95 | A key is missing later only behind a compaction that kept `max` keys, all with ids at least as high |
| RecordFiles.ParsedAppend | crates/jyc-channels/src/state_manager.rs:104-111 | Behind whole lines, appended records are read on their own |
| RecordFiles.ListingParses | crates/jyc-channels/src/state_manager.rs:178-186 | A rewritten file parses to exactly the listed values, whatever their order |
| RecordFiles.TrimIff | crates/jyc-channels/src/state_manager.rs:110 | Trimming leaves exactly what is between the white space at both ends |
| Decimal.ParseBelowIff | crates/jyc-channels/src/git_host.rs:82 | What parses is exactly a run of digits, perhaps behind one plus sign, whose value is below the bound |
| Billing.TodayTotals | crates/jyc-core/src/billing_log_store.rs:244-267 | One pass: for every topic the row equals the per-topic query, mixed label included, and is absent exactly when the query finds nothing; every currency row is the sum of its entries; both columns sum to the whole ledger |
| Billing.LabelMeans | crates/jyc-core/src/billing_log_store.rs:269-288 | The label is a real currency if and only if all the topic's entries are in it, and the mixed marker if and only if two differ or all carry the marker's text |
| Billing.DateTotalNext | crates/jyc-core/src/billing_log_store.rs:269-288 | How one more entry changes the query's answer |
| ChatSeq.Counters.Next | crates/jyc-core/src/chat_seq.rs:51-60 | The next number, seeded from the file on a topic's first use; other topics' counters stay |
| ChatSeq.IdsStayDistinct | crates/jyc-core/src/chat_seq.rs:14-20 | In every run of allocations, out-of-order writes, writes torn at any byte and restarts over one file, readable rows have different ids and the next id exceeds every id on disk and every pending one |
| ChatSeq.WriteKeepsRowsIff | crates/jyc-core/src/chat_seq.rs:80-103 | A write keeps every readable id readable if and only if it writes nothing or the open last line carries no id |
| ChatSeq.ReadableIdCanComeBack | crates/jyc-core/src/chat_seq.rs:51-103 | A row that lost only its newline is readable, is destroyed by the next write, and its id is handed out again after a restart |
| LawfulCodecs.LawfulJournalCodec | crates/jyc-agent/src/session.rs:30-41 | The laws assumed of a journal line, and that no end of a line decodes, can be met for all messages at once |
| LawfulCodecs.LawfulRowCodec | crates/jyc-core/src/chat_seq.rs:85-103 | So can the laws assumed of a chat row |

## Left out

- File system failures other than a write cut short: permissions, failed reads, failed truncation, time stamp precision. A file is its bytes and an abstract stamp; the session file is written whole or not at all.
- AnchorsStayTrustworthy: its runs are of completed saves. A save that dies right after a restart is the subject of `RestartCrash`; any other torn save leaves every terminated line, and so every anchor in front of one, where it was (`Writer.SavesKeepTerminatedLines`).
- RunInvariant: the runs end where a full load deletes a journal in which the window had slid. The anchor it leaves is outside the invariant (`Anchors.InvLoad` says exactly when); `StaleAnchors` says what the next load makes of it.
- The JSON text itself, and message fields no modelled code reads. Only the laws of `Codec.Lawful` and `ChatSeq.Lawful` are used.
- Order of map iteration in call arguments: a call's arguments are given as the list of fields in the order they are rendered.
- The locks around the pair-count cache and the chat counters: their methods are single steps.
- `f64` rounding: billed amounts are reals; `extend_rate` times `window`, rounded, is given as the resulting number of turns.
- Malformed billing lines, and reading the ledger file: `TodayTotals` starts from the parsed entries.
- The change of the chat log file at midnight: one log file, as the source's own comment allows.
- Unicode white space in `trim` for key files: ASCII white space only. Torn writes to the UID and key files.
- Sequence numbers, timestamps and UIDVALIDITY of the IMAP state: stored and returned, nothing decides on them.
- Closed topics, state directories, wire dumps, token and cost counters, access rules, model and strategy precedence, topic paths, HTTP, WebSocket, CLI, vision and mail parsing: input and output, or single branches.
