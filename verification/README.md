# vai-gateway: a verified model of its streaming, run-loop and billing core

The gateway and its Go SDK spend most of their logic on data that arrives in
pieces: tool arguments in JSON fragments, server-sent events in chunks, model
answers as block events, Stripe webhooks that are delivered twice. In each case
an incremental, stateful piece of code has to agree with a simple meaning of the
whole. This project models that code in Dafny, method by method, and proves that
it does, or says exactly when it does not.

| component | files | what is proved |
|---|---|---|
| incremental tool-argument decoder | `Unicode`, `Utf8Text`, `ToolArgScanner`, `ToolArgStability`, `ToolArgDecoder`, `JsonText`, `ToolArgGrammar`, `ToolArgGuarantees`, `ToolArgPrefixes`, `ToolArgText` | cutting the input into fragments never matters; on every well-formed object the scanners find and decode the first allowed root-level string member exactly if no lone surrogate stands in front of it, and as early as its bytes allow; what is delivered is UTF-8 and reads as the text that was written |
| chat runtime | `ChatRuntime`, `Trimming`, `LineEnds`, `CaptureAgreement`, `ChatStreams` | the chunked capture writer agrees with the batch parser for every cut of every stream without a line of carriage returns; a stream is read as the events that were sent, and passed on as early as possible |
| SSE frames | `SseFrames`, `FrameStreams` | two independently written parsers agree on every input, and deliver exactly what its lines say; which frames survive printing and reading |
| stream accumulators | `StreamTypes`, `Accumulators`, `AccumulatorProperties`, `AccumulatorAgreement`, `AccumulatorContent` | independence from interleaving; when the SDK and the gateway build the same response; every block is what was sent for it |
| tool-execution run loop | `RunTypes`, `RunLoop`, `RunStream`, `RunProperties`, `InterruptedRuns`, `RunAnswers`, `RunReports` | streaming refines blocking; history replay; budgets; tool pairing, also in interrupted runs; every call is answered under its id by its own handler; what a run tells its caller |
| canonical JSON and fingerprints | `CanonicalJson`, `CanonicalJsonProperties`, `CanonicalText` | the printed bytes determine the value, and are a JSON text of RFC 8259 with its keys in byte order |
| pricing | `Pricing`, `PricingProperties`, `PricingSelection` | accuracy, no discount for splitting, no overflow; which rates can change a charge at all |
| wallet | `Wallet`, `WalletProperties`, `WalletEffects` | conservation over every history of calls; what each call does to the rows it finds |

Code that changes things step by step is modelled by methods and classes with the
source's own loops and fields; each is proved equal to a specification function,
and the theorems are about runs of those functions. `GoStrings` holds the parts
of Go's `strings` package involved. A Go string is a sequence of bytes (`Bytes`);
canonical JSON alone is over Unicode scalar values. Clocks, the network, random
identifiers, SHA-256 and `json.Unmarshal` of tool input are parameters. The
outside world of a run (`World`, `StreamWorld`) is an arbitrary function from turn
and messages to an answer, and a database failure is an arbitrary `Fault` at any
statement.

## Where the code is not what one might expect

The model follows the code.

- An interrupt is documented to inject a message and continue the conversation
  (`sdk/run.go:861-863`), and a comment in the loop says that the next turn
  follows. The `break` behind it leaves the event loop and falls through into the
  processing of the interrupted turn's response. The loop goes round if and only
  if that response asks for tools within the limit
  (`RunProperties.InterruptedTurnContinuesIff`), and the conversation continues,
  with another stream, if and only if in addition the context, the turn limit and
  the token limit leave room for a turn (`InterruptedRuns.InterruptedRunContinuesIff`).
  What is in the history in every case in which the stream ends says
  `RunProperties.InterruptedTurnFallsThrough`.
- The capture writer normalizes line ends again and again in the text it holds
  back, and each time takes one more carriage return from before a line end. It is
  sufficient for agreement that no line consists of two or more carriage returns
  and nothing else (`CaptureAgreement.WriterAgreesWithParser`); such a line can
  become a blank one. Between two events, agreement holds for all event texts and
  all cuts if and only if the line has at most one carriage return
  (`CaptureAgreement.CRLineBetweenEventsIff`). The normalized text itself stays
  the same under every cut exactly if there is no CR CR LF
  (`LineEnds.RenormalizingKeepsTextIff`).
- A lone surrogate escape (section 8.2 of RFC 8259) stops the decoder for good. A
  string literal is decoded as a whole if and only if it has none
  (`ToolArgGrammar.ScanToken`), and a member is found if and only if none stands
  in front of it (`ToolArgGrammar.SearchFindsFirstStringMember`,
  `ToolArgGuarantees.DecoderDecodesObject`).
- On a stop event for an index beyond the slots opened so far, for which input has
  been received, the SDK throws the input away and the gateway keeps it. Exactly
  then can a block that is opened there next differ
  (`AccumulatorProperties.StopIsHarmlessIff`). Over a whole stream the two sides
  agree, however inputs are decoded, if and only if every slot that ends as a tool
  call was filled with the same inputs since it was last opened, each counted at
  its last time (`AccumulatorAgreement.AgreeAlwaysIff`).
- A frame whose event name contains a line feed, or in which a line ends in CR, is
  not read back as it was written; all others are
  (`SseFrames.PrintedFrameIsReadIff`).
- Two requests merged into one can cost more than apart. Whatever the rates, they
  do not if and only if merging lifts no tokens into the long prompt tier that were
  not in it (`PricingProperties.MergingNeverDearerIff`).
- Usage debits and top-up credits share one unique index on organization and
  external reference. A completed session is credited if and only if no debited
  usage has its name (`WalletProperties.CreditedIffNameIsFree`); the names of usages
  are generated with a prefix of their own, so conservation is stated for histories
  that keep the names apart.
- Both SSE parsers differ from section 9.2.6 of the WHATWG HTML standard: they
  deliver a partial frame at the end of the input and a frame that only names an
  event, and a lone CR ends no line.

## Model

| member | source | states |
|---|---|---|
| ToolArgScanner.ParseJSONStringToken | sdk/tool_arg_decoder.go:208-260 | a complete token is decoded and ends just past its closing quote; an open, escaped-off or undecodable one is incomplete, with what could be decoded and where decoding stopped; what it decodes to is fixed, down to the bytes, by `ToolArgGrammar.ScanToken` and `ToolArgText.LiteralReadsAsItsText` |
| ToolArgScanner.DecodeJSONStringPrefixFrom | sdk/tool_arg_decoder.go:262-309 | the second, separately written string scanner decodes the same text as the first |
| ToolArgScanner.EscapeMeaning | sdk/tool_arg_decoder.go:311-339 | an escape is decoded to the scalar value whose one or two UTF-16 code units are escaped there, 6 or 12 bytes wide, and to nothing exactly for malformed, lone or incomplete units |
| ToolArgScanner.HexRuneMeaning | sdk/tool_arg_decoder.go:341-350 | exactly four hexadecimal digits give a value, and they are its digits; anything else gives none |
| ToolArgScanner.SkipJSONWhitespace | sdk/tool_arg_decoder.go:360-370 | the first position at or after the given one that is not JSON white space |
| ToolArgScanner.FindRootStringFieldValueStart | sdk/tool_arg_decoder.go:156-206 | the loop with its depth counter computes the search over the rest of the input; a key at depth 1 is tested for a colon and a string value |
| ToolArgScanner.ExtractFirstRootStringFieldPrefix | sdk/tool_arg_decoder.go:129-142 | key and decoded text of the first hit among the given keys, blank keys not among them |
| ToolArgScanner.ExtractRootStringFieldPrefix | sdk/tool_arg_decoder.go:144-154 | the same for one key |
| ToolArgStability.ScanStable | sdk/tool_arg_decoder.go:208-309 | appending bytes never changes a complete string, and only extends the text of an open one |
| ToolArgStability.HitStable | sdk/tool_arg_decoder.go:156-206 | a hit at a key and position is the same hit in every extension of the input |
| ToolArgStability.HitSurvivesLocking | sdk/tool_arg_decoder.go:41-82 | a hit stays the same hit after the allowed keys shrink to the key that was found |
| ToolArgStability.ExtractStable | sdk/tool_arg_decoder.go:129-154 | a found field keeps its key, and its text only grows, in every extension, for all keys or the found one alone |
| ToolArgDecoder.DistinctKeysMeaning | sdk/tool_arg_decoder.go:102-127 | the keys searched for are exactly the trimmed non-blank ones, each once |
| ToolArgDecoder.NormalizeToolArgStringKeys | sdk/tool_arg_decoder.go:102-127 | those keys in the order of first occurrence, or the three default keys if there are none |
| ToolArgDecoder.CommonPrefix | sdk/tool_arg_decoder.go:386-396 | the length of the longest common prefix: equal up to it, different behind it |
| ToolArgDecoder.DecodedDelta | sdk/tool_arg_decoder.go:372-384 | what the current text adds to the previous one, from the common prefix on if it is no extension |
| ToolArgDecoder.ToolArgStringDecoder.constructor | sdk/tool_arg_decoder.go:34-38 | a fresh decoder has normalized, non-blank keys and no state |
| ToolArgDecoder.ToolArgStringDecoder.Push | sdk/tool_arg_decoder.go:41-82 | the whole new state and the report of one push: search for all keys until one is locked, then for that key only |
| ToolArgDecoder.ToolArgStringDecoder.Reset | sdk/tool_arg_decoder.go:85-92 | back to the fresh state, keys kept |
| ToolArgDecoder.PushIsBatch | sdk/tool_arg_decoder.go:41-82 | a push onto a state that equals the batch search of the bytes so far gives the batch search of all bytes; key unchanged, old text a prefix, delta exactly the rest, so the common-prefix fallback is never reached |
| ToolArgDecoder.FragmentationIndependence | sdk/tool_arg_decoder.go:41-82 | for all bytes and all ways to cut them into fragments, locked key and text equal one batch search over the concatenation |
| ToolArgDecoder.DeltaConcatenation | sdk/tool_arg_decoder.go:41-82 | over every run from a fresh decoder all deltas put together are the last full text |
| ToolArgDecoder.ReportsGrow | sdk/tool_arg_decoder.go:41-82 | once found, always found, under the same key, each full text a prefix of every later one |
| ToolArgGrammar.ScanBody | sdk/tool_arg_decoder.go:208-339 | for all legal spellings of a text without lone surrogates, scanning gives the UTF-8 of its scalar values and goes on just behind it |
| ToolArgGrammar.StuckIffLone | sdk/tool_arg_decoder.go:311-339 | with both halves in view, an escaped code unit cannot be decoded if and only if it is a lone surrogate |
| ToolArgGrammar.ScanToken | sdk/tool_arg_decoder.go:208-260 | every string literal of RFC 8259, with any code units escaped, is complete and ends just past its quote if and only if it has no lone surrogate; its text is decoded up to there |
| ToolArgGrammar.OpenStringDecodes | sdk/tool_arg_decoder.go:262-309 | a string literal still open, without lone surrogates, decodes to the UTF-8 of everything received of it |
| ToolArgGrammar.PassValue | sdk/tool_arg_decoder.go:156-206 | any well-formed value at any depth leaves the search where it was, unless a lone surrogate anywhere in it ends the search; braces and keys inside strings and nested objects are never taken for the root's |
| ToolArgGrammar.SearchFindsFirstStringMember | sdk/tool_arg_decoder.go:129-206 | on every well-formed JSON object the search returns exactly the start of the first root-level member with an allowed key and a string value, decoded, if and only if no lone surrogate stands in front of it; otherwise, or if there is none, nothing |
| ToolArgGuarantees.EscapeRoundTrip | sdk/tool_arg_decoder.go:208-358 | for all scalar values and every choice of raw, short-escape, `\uXXXX` or surrogate-pair spelling of each, the literal decodes to the encoding of the original and ends just past its quote; that the encoding is UTF-8 says `ToolArgText.LiteralReadsAsItsText` |
| ToolArgGuarantees.DecoderDecodesObject | sdk/tool_arg_decoder.go:41-82 | the decoder fed a well-formed object in any fragments ends with that member's key and text, and its deltas spell that text, if no lone surrogate stands in front of it; otherwise it never reports anything |
| ToolArgGuarantees.LoneSurrogateHidesTheRest | sdk/tool_arg_decoder.go:311-339 | as soon as a lone surrogate can be seen in an open string, the string is incomplete whatever follows, and nothing behind it is ever found |
| ToolArgText.EncodedTextIsRead | sdk/tool_arg_decoder.go:208-309 | what either scanner writes is valid UTF-8: a separately defined reader (section 3 of RFC 3629: lead byte ranges, continuation bytes, no surrogates, no overlong forms) reads it as the scalar values that were written |
| ToolArgText.LiteralReadsAsItsText | sdk/tool_arg_decoder.go:208-358 | for every spelling of every text the literal is decoded to bytes that this reader reads as exactly that text |
| ToolArgText.DecodedTextReadsAsTheValue | sdk/tool_arg_decoder.go:41-82 | the decoder fed a well-formed object in any fragments ends with bytes that this reader reads as the scalar values of the wanted member, and its deltas are these bytes |
| ToolArgPrefixes.HitLocal | sdk/tool_arg_decoder.go:156-206 | a hit needs nothing behind its opening quote: every beginning of the input that reaches there has the same hit |
| ToolArgPrefixes.NothingBeforeTheQuote | sdk/tool_arg_decoder.go:41-82 | fed a beginning of a well-formed object that ends before the wanted value's opening quote, in any fragments, the decoder has reported nothing |
| ToolArgPrefixes.ReportsAsItArrives | sdk/tool_arg_decoder.go:41-82 | from that quote on it has locked the key, and its text and its deltas are every spelling received in full and, of an unescaped character, the bytes that have come, up to a lone surrogate in the value |
| ToolArgPrefixes.ReportsTheWholeText | sdk/tool_arg_decoder.go:41-82 | from the last byte of the value's content on the text is whole, whatever of the rest has come |
| ChatRuntime.ParseSSEChunk | internal/chatruntime/runtime.go:280-295 | the event name and data lines of a chunk, provided the name is not blank; which lines these are says `ChatStreams.AnyLinesMean` |
| ChatRuntime.ParseSSE | internal/chatruntime/runtime.go:216-229 | the events of all blank-line separated chunks of the normalized stream; what they are on a stream in so many bytes says `ChatStreams.StreamIsReadAsSent` |
| ChatRuntime.StreamCaptureWriter.Write | internal/chatruntime/runtime.go:329-339 | the body grows by the bytes written; a listening writer's pending text and emitted events are the new capture state |
| ChatRuntime.StreamCaptureWriter.WriteHeader | internal/chatruntime/runtime.go:325-327 | the status is recorded and nothing else changes |
| ChatRuntime.StreamCaptureWriter.EmitCompleteEvents | internal/chatruntime/runtime.go:351-375 | emits the events of the chunks that are complete and keeps the last one unless the text ends in a blank line |
| LineEnds.NormalizeIncrementally | internal/chatruntime/runtime.go:351-352 | without CR CR LF, normalizing a prefix first and the rest later is normalizing at once, also when a cut falls inside CR LF |
| LineEnds.RenormalizingKeepsTextIff | internal/chatruntime/runtime.go:351-352 | a stream has no CR CR LF if and only if no cut of it changes its normalized text |
| LineEnds.NoCRCRLFHasNoCRLine | internal/chatruntime/runtime.go:351-352 | a stream without CR CR LF has no line of two or more carriage returns and nothing else |
| CaptureAgreement.CollapsingKeepsEvents | internal/chatruntime/runtime.go:216-229 | carriage returns before line ends, unless they are all of a line, change no event |
| CaptureAgreement.EmitKeepsEvents | internal/chatruntime/runtime.go:351-375 | whatever is written later, the events of the buffer are those emitted now and those of the text kept pending |
| CaptureAgreement.WriterAgreesWithParser | internal/chatruntime/runtime.go:329-375 | for every stream without a line of two or more carriage returns and nothing else, and every split into writes, events emitted so far followed by those of the pending text are `ParseSSE` of everything written |
| CaptureAgreement.WriterDisagreesOnCRLine | internal/chatruntime/runtime.go:351-375 | for any two event texts with a line of k > 1 carriage returns between them, a cut behind that line and the second text written in any k - 1 pieces give both events while `ParseSSE` gives at most one |
| CaptureAgreement.CRLineBetweenEventsIff | internal/chatruntime/runtime.go:329-375 | with a line of k carriage returns between two events, writer and parser agree on all event texts and all writes if and only if k is at most one |
| ChatStreams.SpaceRunesAreWhiteSpace | internal/chatruntime/runtime.go:216-295 | the byte strings taken for white space are exactly the UTF-8 encodings of the code points with the Unicode property White_Space |
| ChatStreams.TrimSpaceMeaning | internal/chatruntime/runtime.go:216-295 | trimming takes white space runes, by their UTF-8 encodings, off both ends, all of them and nothing else |
| ChatStreams.AnyLinesMean | internal/chatruntime/runtime.go:280-295 | of any lines, the last one that begins with the bytes `event:` gives the name, and those that begin with `data:`, picked by strictly increasing positions, give the lines of data, each without that prefix and trimmed; all other lines say nothing |
| ChatStreams.StreamIsReadAsSent | internal/chatruntime/runtime.go:216-229 | for every list of events with clean names and data lines, each written as `event: ` and the name, then `data: ` and each line, with LF or CR LF at the line ends and a blank line behind, `ParseSSE` gives exactly these events in order, their data lines joined by line feeds |
| ChatStreams.WriterPassesOnWhatWasSent | internal/chatruntime/runtime.go:329-375 | the same for the capture writer under every cut into writes: what it has emitted and what it still holds are the events sent |
| ChatStreams.NothingCompleteIsHeldBack | internal/chatruntime/runtime.go:351-375 | behind no write does the pending text contain a blank line: every event is emitted with the write that completes it |
| SseFrames.SplitSSEField | sdk/proxy_sse.go:90-101 | the field before the first colon, and the value behind it without one leading space |
| SseFrames.SplitField | pkg/core/sseframe/parser.go:81-90 | the same, computed by cutting instead of indexing |
| SseFrames.SSEParser.Next | sdk/proxy_sse.go:28-88 | one call returns the next frame, the end or the read error, and leaves the rest of the input |
| SseFrames.Parser.Next | pkg/core/sseframe/parser.go:27-79 | the same for the core parser |
| SseFrames.ParsersAgree | sdk/proxy_sse.go:28-101 | reading any input to its end, be it io.EOF itself or another error, the two parsers yield the same frames and end the same way |
| SseFrames.Send | pkg/gateway/sse/sse.go:24-41 | a sent event is its frame printed behind what was sent before |
| SseFrames.PrintedFrameIsReadIff | sdk/proxy_sse.go:28-101 | a printed frame, whatever follows, is read back as it was if and only if its event name has no line feed and neither it nor any data line ends in CR |
| SseFrames.PrintedFramesAreRead | pkg/core/sseframe/parser.go:27-94 | a printed list of such frames is read back as that list and then the end |
| FrameStreams.InputIsReadAsSent | sdk/proxy_sse.go:28-101 | on lines given as comments, fields with or without a space, names alone and blank lines, each with LF or CR LF, both parsers yield one frame for each block that says anything, with its last `event` and all `data` in order; then, at the end of the input, the lines that no blank line follows, the last with or without its line end; then the end, or the read error instead of that partial frame |
| FrameStreams.EveryInputIsLines | pkg/core/sseframe/parser.go:27-94 | every byte string is such an input, so the row before holds for all inputs |
| Accumulators.CompactContentBlocks | sdk/stream.go:361-373 | the slots without the holes |
| Accumulators.SdkApplyToolInput | sdk/stream.go:138-171 | the buffered input is used up and, if it parses and the slot is a tool call, becomes its input |
| Accumulators.ReadEvents | sdk/stream.go:97-338 | the event loop, and the flush of the remaining buffers in any map order, compute the SDK's fold; what its content is says `AccumulatorContent.ContentIsWhatWasSent` |
| Accumulators.GatewayApplyToolInput | cmd/server/observability.go:310-376 | as in the SDK, but without a slot the buffer stays |
| Accumulators.MaterializeMessageResponse | cmd/server/observability.go:310-376 | the gateway's loop, in any map order, computes its fold, and nothing if no message was seen; its content is that of `AccumulatorContent.ContentIsWhatWasSent` |
| AccumulatorProperties.CellsAreIndependent | sdk/stream.go:189-247 | slot and buffer of an index are the fold of that index's own start, delta and stop events alone |
| AccumulatorProperties.InterleavingIndependence | sdk/stream.go:97-338 | two streams with the same events for each index and the same message events, interleaved in any way, give the same response |
| AccumulatorProperties.CompactKeepsOccupied | sdk/stream.go:361-373 | compaction keeps exactly the occupied slots, in index order |
| AccumulatorProperties.AccumulatorsAgree | cmd/server/observability.go:310-376 | on every error-free stream in which no stop event names an index beyond the slots opened so far after input for it, SDK and gateway produce the same response |
| AccumulatorProperties.PrematureStopDiverges | sdk/stream.go:138-171 | behind such a stop, opening the slot as a tool call makes the two responses differ if the input parses to something else than the block was opened with |
| AccumulatorProperties.StopIsHarmlessIff | sdk/stream.go:138-171 | whatever block is opened next and however inputs are decoded, both sides have the same content if and only if the stop was not premature |
| AccumulatorAgreement.FinalSlots | sdk/stream.go:97-338 | each final slot is its block as last opened, filled with the inputs of its own trail, in the SDK and in the gateway |
| AccumulatorAgreement.AgreeAlwaysIff | cmd/server/observability.go:310-376 | over a whole stream SDK and gateway have the same content for every decoding of inputs if and only if every slot that ends as a tool call was filled with the same inputs since it was last opened, each counted at its last time |
| AccumulatorContent.ContentIsWhatWasSent | sdk/stream.go:97-373 | the content of both responses: for exactly the indices that were opened, in increasing order, a text as last opened with its own text deltas since then behind it in order of arrival, a thought with its thinking deltas, a tool call with the last of its inputs that can be decoded, anything else as it was opened |
| AccumulatorContent.ResponseIsAsReported | cmd/server/observability.go:310-376 | the rest of both responses: id and type of the last message start, stop reason and usage of the last message start or delta; the gateway has no response exactly if no id, no type and no block was sent |
| RunTypes.ExecuteToolCalls | sdk/run.go:551-578 | the results array is the sequential one for every order in which the goroutines finish |
| RunTypes.ToolResultsToBlocks | sdk/message_history.go:21-35 | one tool-result block for each result, in order, marked as error where it is one |
| RunTypes.AppendToolResultsMessage | sdk/message_history.go:38-44 | one user message with those blocks, or none without results |
| RunLoop.RunBlocking | sdk/run.go:270-548 | the blocking loop returns the result and error of the run, turn by turn; what a run's messages, usage and stop reason are says the module `RunAnswers` |
| RunStream.Stream.Send | sdk/run.go:1754-1767 | an event reaches the channel exactly if the stream is not closed yet |
| RunStream.Stream.AppendHistoryDelta | sdk/run.go:1266-1276 | a non-empty delta is appended and announced with the length before it |
| RunStream.Stream.Inject | sdk/run.go:1429-1503 | an interrupt adds the partial answer as its behaviour says, then its message, and says so |
| RunStream.Stream.ReadStream | sdk/run.go:1388-1573 | the select loop of one turn: events, interrupt, cancel and context expiry |
| RunStream.Stream.ExecuteTools | sdk/run.go:1716-1724 | the tool results, each call between its start and its result event |
| RunStream.Stream.HandleResponse | sdk/run.go:1607-1751 | usage, turn and step, the four ways to stop, or the tools and both messages |
| RunStream.Stream.Run | sdk/run.go:1145-1752 | the streaming loop's history, events, result and error are those of the run |
| RunStream.History.Handle | sdk/history.go:14-27 | the permissive handler appends every delta |
| RunStream.History.HandleStrict | sdk/history.go:31-47 | the strict handler appends a delta, or panics exactly when it is not empty and was announced for another length |
| RunProperties.StreamingRefinesBlocking | sdk/run.go:1145-1752 | with the same answers and tool outcomes and no interrupts, `run` ends with the same steps, messages, counts, usage, stop reason and error as `runLoop` |
| RunProperties.HistoryReplays | sdk/run.go:1266-1284 | in every run, with any interrupts and wherever closing cuts off the events, the strict handler never sees a wrong length; if nothing is cut off it ends with the result's messages |
| RunProperties.InterruptedTurnContinuesIff | sdk/run.go:1403-1748 | behind an interrupt the loop goes round if and only if the interrupted turn's stream is not broken and its response asks for tools within the limit, without the custom stop |
| InterruptedRuns.InterruptedRunContinuesIff | sdk/run.go:1288-1748 | behind an interrupt another stream is opened if and only if the loop goes round and the context, the turn limit and the token limit leave room for a turn |
| RunProperties.InterruptedTurnFallsThrough | sdk/run.go:1403-1618 | the history of an interrupted turn in every case in which its stream ends: the text received before the interrupt as its behaviour says, the injected message, then the response with its tool results, or alone with the stop reason of the run, or nothing if the stream was broken |
| RunProperties.RunsStayWithinBudget | sdk/run.go:332-548 | turns equal steps, numbered 0, 1, 2, ...; the tool-call count is their sum and within its limit; at most `maxTurns` and at most `maxToolCalls` + 1 model calls |
| RunProperties.ToolResultsFollowTheirCalls | sdk/run.go:529-548 | the history is the initial messages and then each response directly followed by the results of its tool calls, in order; only the last step may be a response alone; which results these are says `RunAnswers.EveryCallIsAnswered` |
| InterruptedRuns.InterruptedRunsStayWithinBudget | sdk/run.go:1288-1751 | the same budgets for the streaming loop in every run, whatever interrupts it |
| InterruptedRuns.InterruptsKeepToolPairs | sdk/run.go:1716-1748 | in every streaming run each response is directly followed by its tool results; what interrupts inject stands between such pairs, never inside one |
| RunAnswers.EveryCallIsAnswered | sdk/run.go:529-640 | told from the blocks alone: strictly increasing positions pick exactly the tool-use blocks of each response; the k-th call of the step has that block's id, name and input, and the k-th tool result carries that block's id and the output of the handler registered under that block's name, or the text that none is registered, or the handler's error |
| RunAnswers.EveryStreamedCallIsAnswered | sdk/run.go:1716-1748 | the same in every streaming run, whatever interrupts it |
| RunAnswers.EveryResponseAnswersTheHistory | sdk/run.go:369-378 | the k-th response is the model's answer to the messages built for turn k from the initial messages and all that the steps before have added |
| RunAnswers.UsageIsTheSum | pkg/core/types/usage.go:14-60 | the usage of a run is the sum over its responses, for input, output and total, where a response without a total has its tokens counted, provided no response reports negative tokens |
| RunAnswers.StopReasonIsTrue | sdk/run.go:332-548 | every stop reason of a blocking run is explained by its result: the turn limit before the token limit, the custom stop before the end of the turn, the call limit by the calls still asked for, and cancellation, timeout and other errors told apart |
| RunAnswers.InterruptLeaves | sdk/run.go:1425-1474 | an interrupt adds nothing but its message, or before it the partial answer as it is, or with ` [interrupted]` behind it; never an empty one |
| RunAnswers.ToolEventsInOrder | sdk/run.go:1716-1724 | tool calls are announced one after the other, each right before its own result |
| RunReports.PartialIsWhatWasReceived | sdk/run.go:1534-1551 | the partial answer is all text deltas received in the turn, in order |
| RunReports.EventsArePassedOn | sdk/run.go:1388-1573 | the model's events are passed on as they come, each once, up to the first interrupt, cancellation or end of the context |
| RunReports.WebSearchIsReported | sdk/run.go:1553-1571 | a web search result, and nothing else, is reported right behind its event as the result of `web_search`, with `Found n results` in decimal digits if there are hits |
| RunReports.StepsAreReported | sdk/run.go:1288-1752 | in every streaming run the steps of the result are begun, their tools called and they are completed, one after the other, numbered from 0, with their own responses; at most one more is begun; the last such event hands over the result exactly if the run did not fail |
| RunReports.DeltasFollowTheirSteps | sdk/run.go:787-792 | in every streaming run the completion of a step is followed at once by the history delta that appends its response |
| CanonicalJson.SortIsSorted | internal/services/observability.go:750-758 | sorting keys gives an ascending list of the same keys; ascending means the byte order of `CanonicalText.KeysAreInByteOrder` |
| CanonicalJson.AnyOrderSortsAlike | internal/services/observability.go:750-758 | whatever order the map yields its keys in, sorting gives the same list |
| CanonicalJson.WriteCanonicalJSON | internal/services/observability.go:725-779 | a value is printed behind what the buffer holds, objects with sorted keys, for every map iteration order |
| CanonicalJson.CanonicalJSON | internal/services/observability.go:709-723 | the printed value |
| CanonicalJson.ContextFingerprint | internal/services/observability.go:668-679 | the digest of the canonical context of system and messages |
| CanonicalJson.AssistantResponseFingerprint | internal/services/observability.go:681-691 | the digest of the context with the response appended as an assistant message; empty without a response |
| CanonicalJsonProperties.RoundTrip | internal/services/observability.go:725-779 | a parser undoes the printer: every printed value is read back, with whatever delimiter and text follow left over |
| CanonicalJsonProperties.PrintIsInjective | internal/services/observability.go:725-779 | values in any delimited context print alike exactly when they and what follows are equal |
| CanonicalJsonProperties.CanonicalIsUnambiguous | internal/services/observability.go:709-779 | two values have the same canonical text if and only if they are equal |
| CanonicalJsonProperties.ContextBytesDetermineContext | internal/services/observability.go:668-679 | the bytes hashed for a context are the same if and only if system and messages are |
| CanonicalJsonProperties.ResponseFingerprintNamesNextContext | internal/services/observability.go:668-691 | corollary of the row before: a response's fingerprint equals a later context's if and only if that is this context with the response appended, or the two different hashed texts collide |
| CanonicalText.KeysAreInByteOrder | internal/services/observability.go:750-758 | one key sorts before another exactly if its UTF-8 bytes do: they agree up to a position where it ends or has the smaller byte |
| CanonicalText.CanonicalTextIsJson | internal/services/observability.go:725-779 | the UTF-8 bytes of the canonical text are a JSON text in the grammar of RFC 8259, without white space, that stands for the value, every object with each field once in strictly ascending byte order of its keys |
| CanonicalText.ContextText | internal/services/observability.go:668-679 | what is hashed of a context, byte for byte: `{"messages":`, the messages, `,"system":`, the system prompt, `}` |
| CanonicalText.MessageText | internal/services/observability.go:681-691 | what is hashed of the appended response, byte for byte: `{"content":`, its content, `,"role":`, its role, `}` |
| Pricing.SelectPricingTiers | internal/services/pricing.go:673-712 | the loop-free cascade of overrides computes the selection; which rate it leaves for which request say the rows of `PricingSelection` |
| Pricing.EstimateUsage | internal/services/pricing.go:590-661 | a known model's usage is charged what `PricingSelection.ChargeAtTheRatesThatApply` says; an unknown model or no catalog is an error |
| PricingProperties.ChargeIsAccurate | internal/services/pricing.go:604-629 | the billed cents cover the exact cost if and only if no negative minimum charge replaces a cost of nothing; where the minimum was not applied they exceed it by less than one cent and four micro-dollars |
| PricingProperties.MergingNeverCostsMore | internal/services/pricing.go:604-629 | at the same rates the combined usage costs at most the sum of the parts, through five ceilings, the cache clamp and the minimum charge |
| PricingProperties.MergingInATierNeverCostsMore | internal/services/pricing.go:590-712 | the same at the rates selected from any price list and context, if merging lifts no tokens into the long tier |
| PricingProperties.MergingNeverDearerIff | internal/services/pricing.go:590-712 | merging two usages costs no more at all rates if and only if it lifts no tokens into the long tier that were not in it: a check of the token counts and the threshold |
| PricingProperties.CrossingATierCostsMore | internal/services/pricing.go:687-697 | an instance: at one price list with a dearer long tier two requests of 150000 tokens cost less apart than merged |
| PricingProperties.MachineChargeIsExact | internal/services/pricing.go:604-629 | up to 10^9 tokens of each kind at rates up to 6*10^8 micros every intermediate sum, difference and product fits into 64 bits, and 64-bit arithmetic gives the exact charge |
| PricingProperties.MergedTokens | pkg/core/types/usage.go:14-60 | adding usages bills no more tokens of any kind than both apart; the clamp of uncached input only helps |
| PricingSelection.AudioRatesAreForAudio | internal/services/pricing.go:698-705 | changing the audio rates never changes the charge of a request without audio input |
| PricingSelection.ImageRateIsForImages | internal/services/pricing.go:707-709 | changing the image rate never changes the charge of a request without image output |
| PricingSelection.LongRatesAreForLongPrompts | internal/services/pricing.go:685-697 | changing the long rates never changes the charge of a request at or below the threshold, or without one |
| PricingSelection.ModalityRatesComeFirst | internal/services/pricing.go:685-709 | where the modality's own rate is listed, changing the standard and the long rate changes nothing, for input, cached input and output |
| PricingSelection.LongRatesReplaceStandardOnes | internal/services/pricing.go:685-697 | above the threshold, where a long rate is listed, changing the standard one changes nothing |
| PricingSelection.ChargeAtTheRatesThatApply | internal/services/pricing.go:590-712 | the charge item by item, without the selection: input that was not cached, cached input, cache writes and output, each at the one rate that applies and rounded up to a micro-dollar, their sum rounded up to a cent, and the minimum charge for a request with tokens; the snapshot names these rates, the modalities and the tier |
| PricingSelection.EqualRatesEqualCharge | internal/services/pricing.go:590-661 | these items settle the charge: requests with equal rates, usage and minimum are charged alike, whatever else differs in price list and modality |
| Wallet.AppServices.CurrentBalance | internal/services/service.go:1045-1056 | the sum of the organization's ledger rows |
| Wallet.AppServices.RecordUsage | internal/services/service.go:1123-1165 | the new tables and the outcome of one usage record, under any database failure |
| Wallet.AppServices.ApplyStripeCheckoutCompleted | internal/services/service.go:1219-1280 | the new tables and the outcome of one completion, under any database failure |
| WalletProperties.BooksBalance | internal/db/migrations/001_private_beta_init.sql:70 | after every history the ledger's references are the completed sessions and debited usages, and its balance the credits of the sessions whose names are free minus the debits |
| WalletProperties.WalletConservation | internal/services/service.go:1123-1280 | after every history of calls, with duplicates, reordering and failures, in which no usage is named like a session, the balance is the credits of the distinct completed sessions, each once, minus the cents of recorded platform-hosted usages |
| WalletProperties.CreditedIffNameIsFree | internal/services/service.go:1247-1279 | after every history a session has its credit row if and only if it was completed and no debited usage of the organization has its name |
| WalletProperties.FailureRollsBack | internal/services/service.go:1123-1280 | corollary of the outcomes above: a call that fails, or finds its event processed, leaves every table as it was |
| WalletProperties.CustomerKeyUsageNeverDebits | internal/services/service.go:1123-1165 | corollary of the outcomes above: usage with the customer's own key never touches the ledger |
| WalletProperties.RedeliveryChangesNothing | internal/services/service.go:1247-1279 | once an event has gone through, every later delivery with its id changes nothing |
| WalletProperties.RetryAfterFailure | internal/services/service.go:1247-1279 | corollary of the rollback: after a failed attempt a delivery has its full effect |
| WalletProperties.DeliveriesCommute | internal/services/service.go:1219-1280 | deliveries of different events give the same balances in either order, if those for one session carry one amount |
| WalletProperties.DeliveriesAreASet | internal/services/service.go:1219-1280 | two lists of deliveries of the same completions, in any order and each repeated any number of times, give the same balances, if one event says one thing and one session has one amount |
| WalletEffects.CompletionCommitsIff | internal/services/service.go:1219-1280 | a completion that names its top-up, itself or through the first top-up of its session, goes through if and only if its event is new, that top-up exists in that organization and no statement that is executed fails |
| WalletEffects.CompletionPays | internal/services/service.go:1219-1280 | what it does then: the matching top-ups are completed, the event is remembered, and the organization's balance grows by the event's amount, taken from the session's top-up only if that was looked up and the event has none, unless the session has a row already; otherwise no table changes |
| WalletEffects.UsagePays | internal/services/service.go:1123-1165 | a usage gets its row with its charge, the organization's balance falls by exactly that charge, nothing with the customer's key, and no other balance changes; when this happens, exactly, and that otherwise no table changes |

## Left out

- ToolArgDecoder.ToolArgStringDecoder.Push: nil receivers, which the source answers with empty results.
- PricingProperties.MergingNeverCostsMore: negative minimum charges, which no price in the catalog has and under which it fails; nor do the other statements about merging.
- RunLoop.RunBlocking: does not cover runs that never end, because the context of a modelled world is done after some number of turns, however large; the durations of steps are not recorded.
- RunStream.Stream.Send: a channel that is full and a sender that waits are not modelled; closing takes effect between two sends.
- RunStream.Stream.ReadStream: the choice of the select statement is the order of the modelled items; the reply to the caller of an interrupt is not modelled, and a cancel is an item of its own instead of an empty message.
- RunProperties.InterruptedTurnFallsThrough: an interrupt that comes while the goroutine reading the stream waits to hand over an event; nobody takes that event any more, the loop waits for the stream to end, and the run hangs.
- SseFrames.ParsersAgree: a reader whose error wraps io.EOF, which the SDK takes for the end of the input and the core parser for an error.
- Accumulators.ReadEvents: negative block indices, which panic, the audio and transcript events, and the error that ends a broken stream.
- Accumulators.MaterializeMessageResponse: parsing of the events and error events; nil and pointer blocks, which decoding an event never produces.
- CanonicalJson.CanonicalJSON: marshalling and decoding before printing, numbers as anything but their text, and strings that are not valid UTF-8.
- CanonicalJson.ContextFingerprint: SHA-256 and its hexadecimal form are one function parameter.
- RunAnswers.UsageIsTheSum: negative token counts in a response, which no provider reports.
- SseFrames.Send: marshalling of the data and flushing.
- Pricing.EstimateUsage: the concrete price table, the conversion of dollar texts to micros, the floating-point cost and the part of the snapshot that copies the price list.
- Wallet.AppServices.RecordUsage: row ids, timestamps, metadata and foreign keys; the identifier of a usage row is a parameter, not a random one.
- Hooks (`beforeCall`, `afterResponse`, `onToolCall`, `onStop`) and the fields of a turn's request other than its messages, with the merging of tools: they do not feed back into the loop.
- Voice: speech to text, text to speech and audio output in the run loop and the stream.
- Live sessions and websocket chains (`sdk/live.go`, `sdk/chains.go`): dialing, reconnecting and goroutine plumbing.
- Provider adapters, HTTP transport, asset upload, login and vault calls: thin wrappers over libraries.
- `ReservePlatformHostedUsage`, the creation of checkouts and the listings: reads and single inserts that would only add easy members.
- The user interface.
