/** What the blocking and the streaming tool loop have in common: messages, steps
    and results, and the outside world as both see it. */
module RunTypes {
  import opened GoStrings
  import opened StreamTypes

  datatype Role = User | Assistant | OtherRole(name: Bytes)

  datatype Message = Message(role: Role, content: seq<Block>)

  type Messages = seq<Message>

  datatype CallError = Canceled | DeadlineExceeded | OtherError(text: Bytes)

  datatype RunStop =
    | StopEndTurn | StopMaxToolCalls | StopMaxTurns | StopMaxTokens
    | StopTimeout | StopCustom | StopCancelled | StopError

  /** `stopReasonFromContextErr`, with `error` for everything else. */
  function StopFor(err: CallError): RunStop {
    match err
    case Canceled => StopCancelled
    case DeadlineExceeded => StopTimeout
    case OtherError(_) => StopError
  }

  datatype ToolCall = ToolCall(id: Bytes, name: Bytes, input: Input)

  datatype ToolExecutionResult = ToolExecutionResult(id: Bytes, content: Bytes, error: Option<Bytes>)

  /** A step of a run, its duration aside. */
  datatype Step = Step(index: nat, response: Response, toolCalls: seq<ToolCall>, toolResults: seq<ToolExecutionResult>)

  datatype RunResult = RunResult(
    response: Option<Response>, steps: seq<Step>, toolCallCount: nat, turnCount: nat,
    usage: Usage, stopReason: RunStop, messages: Messages)

  /** `runConfig`, without the hooks that only observe. */
  datatype Config = Config(
    maxToolCalls: int, maxTurns: int, maxTokens: int, handlers: set<Bytes>, parallelTools: bool,
    stopWhen: Response -> bool, buildTurnMessages: (nat, Messages) -> Messages)

  /** A registered handler either produces output or fails. */
  datatype HandlerOutcome = Output(content: Bytes) | HandlerError(text: Bytes)

  datatype Reply = CallFailed(err: CallError) | Answer(response: Response)

  /** The outside world of one run: what the model answers to the messages of a
      turn, what the handler of the k-th tool call of a turn does, and the turn at
      whose beginning the context is found done.  Every run that ends is a run of
      some world with a large enough horizon. */
  datatype World = World(
    horizon: nat, contextError: CallError,
    reply: (nat, Messages) -> Reply,
    handle: (nat, nat, ToolCall) -> HandlerOutcome)

  const NO_USAGE := Usage(0, 0, 0, None, None)

  /** `ToolUses`: the tool calls of a response, in order. */
  function ToolUses(content: seq<Block>): seq<ToolCall> {
    if content == [] then []
    else
      var n := |content| - 1;
      ToolUses(content[..n]) +
      match content[n]
      case ToolUse(id, name, input) => [ToolCall(id, name, input)]
      case _ => []
  }

  // ---------- executing tools ----------

  const NO_HANDLER_BEFORE := Ascii("Tool '")
  const NO_HANDLER_AFTER := Ascii("' was called but no handler is registered.")
  const TOOL_ERROR := Ascii("Error executing tool: ")

  /** `executeToolCall`. */
  function ExecuteToolCall(w: World, cfg: Config, turn: nat, k: nat, call: ToolCall): ToolExecutionResult {
    if call.name !in cfg.handlers then
      ToolExecutionResult(call.id, NO_HANDLER_BEFORE + call.name + NO_HANDLER_AFTER, None)
    else
      match w.handle(turn, k, call)
      case Output(content) => ToolExecutionResult(call.id, content, None)
      case HandlerError(text) => ToolExecutionResult(call.id, TOOL_ERROR + text, Some(text))
  }

  function Executed(w: World, cfg: Config, turn: nat, calls: seq<ToolCall>): seq<ToolExecutionResult> {
    seq(|calls|, k requires 0 <= k < |calls| => ExecuteToolCall(w, cfg, turn, k, calls[k]))
  }

  /** `executeToolCalls`: whichever goroutine finishes next writes its own slot, so
      the results do not depend on the order in which they finish. */
  method ExecuteToolCalls(w: World, cfg: Config, turn: nat, calls: seq<ToolCall>)
    returns (out: seq<ToolExecutionResult>)
    ensures out == Executed(w, cfg, turn, calls)
  {
    hide ExecuteToolCall;
    var results := new ToolExecutionResult[|calls|];
    if cfg.parallelTools && |calls| > 1 {
      var running: set<nat> := {};
      for n := 0 to |calls|
        invariant forall k :: k in running <==> 0 <= k < n
      {
        running := running + {n};
      }
      while running != {}
        invariant forall k :: k in running ==> 0 <= k < |calls|
        invariant forall k :: 0 <= k < |calls| && k !in running ==>
          results[k] == ExecuteToolCall(w, cfg, turn, k, calls[k])
        decreases running
      {
        var k :| k in running;
        results[k] := ExecuteToolCall(w, cfg, turn, k, calls[k]);
        running := running - {k};
      }
    } else {
      for n := 0 to |calls|
        invariant forall k :: 0 <= k < n ==> results[k] == ExecuteToolCall(w, cfg, turn, k, calls[k])
      {
        results[n] := ExecuteToolCall(w, cfg, turn, n, calls[n]);
      }
    }
    out := results[..];
  }

  // ---------- history ----------

  function ResultBlock(r: ToolExecutionResult): Block {
    ToolResult(r.id, r.content, r.error.Some?)
  }

  function ResultBlocks(rs: seq<ToolExecutionResult>): seq<Block> {
    seq(|rs|, k requires 0 <= k < |rs| => ResultBlock(rs[k]))
  }

  /** `ToolResultsToBlocks`. */
  method ToolResultsToBlocks(toolResults: seq<ToolExecutionResult>) returns (blocks: seq<Block>)
    ensures blocks == ResultBlocks(toolResults)
  {
    if |toolResults| == 0 {
      return [];
    }
    blocks := [];
    for n := 0 to |toolResults|
      invariant blocks == ResultBlocks(toolResults[..n])
    {
      blocks := blocks + [ToolResult(toolResults[n].id, toolResults[n].content, toolResults[n].error.Some?)];
    }
    assert toolResults[..|toolResults|] == toolResults;
  }

  /** `AppendAssistantMessage`. */
  function AppendAssistantMessage(history: Messages, content: seq<Block>): Messages {
    history + [Message(Assistant, content)]
  }

  /** `AppendToolResultsMessage`. */
  method AppendToolResultsMessage(history: Messages, toolResults: seq<ToolExecutionResult>) returns (out: Messages)
    ensures out == history + if toolResults == [] then [] else [Message(User, ResultBlocks(toolResults))]
  {
    var blocks := ToolResultsToBlocks(toolResults);
    if |blocks| == 0 {
      return history;
    }
    return history + [Message(User, blocks)];
  }
}
