/** The messages and stream events of the API that the accumulators and the run
    loop exchange. */
module StreamTypes {
  import opened GoStrings

  datatype Option<+T> = None | Some(value: T)

  /** A decoded tool input.  Two inputs are equal when their JSON texts are. */
  type Input = Bytes

  datatype Block =
    | Text(text: Bytes)
    | Thinking(text: Bytes)
    | ToolUse(id: Bytes, name: Bytes, input: Input)
    | ServerToolUse(id: Bytes, name: Bytes, input: Input)
    | ToolResult(id: Bytes, content: Bytes, isError: bool)
    | WebSearchResult(id: Bytes, hits: nat)
    | OtherBlock(raw: Bytes)

  datatype StopReason = EndTurn | MaxTokens | StopSequence | ToolUseStop | OtherStop(name: Bytes)

  datatype Usage = Usage(input: int, output: int, total: int, cacheRead: Option<int>, cacheWrite: Option<int>)

  /** `Usage.Add`. */
  function Add(a: Usage, b: Usage): Usage {
    Usage(a.input + b.input, a.output + b.output, Total(a) + Total(b),
          AddOption(a.cacheRead, b.cacheRead), AddOption(a.cacheWrite, b.cacheWrite))
  }

  function Total(u: Usage): int {
    if u.total == 0 && (u.input > 0 || u.output > 0) then u.input + u.output else u.total
  }

  function AddOption(a: Option<int>, b: Option<int>): Option<int> {
    if a.None? && b.None? then None
    else Some((if a.Some? then a.value else 0) + (if b.Some? then b.value else 0))
  }

  datatype Response = Response(id: Bytes, kind: Bytes, content: seq<Block>, stopReason: StopReason, usage: Usage)

  datatype Delta = TextDelta(text: Bytes) | ThinkingDelta(text: Bytes) | InputJSONDelta(partial: Bytes) | OtherDelta

  /** A stream event.  Block indices index a slice, so they are not negative. */
  datatype Event =
    | MessageStart(message: Response)
    | BlockStart(index: nat, block: Block)
    | BlockDelta(index: nat, delta: Delta)
    | BlockStop(index: nat)
    | MessageDelta(stopReason: StopReason, usage: Usage)
    | OtherEvent(raw: Bytes)
}
