/** The blocking tool loop `runLoop` (without voice). */
module RunLoop {
  import opened StreamTypes
  import opened RunTypes

  /** The loop's own state between two turns. */
  datatype Progress = Progress(history: Messages, steps: seq<Step>, toolCallCount: nat, turnCount: nat, usage: Usage)

  function Start(initial: Messages): Progress {
    Progress(initial, [], 0, 0, NO_USAGE)
  }

  function Result(p: Progress, response: Option<Response>, stop: RunStop): RunResult {
    RunResult(response, p.steps, p.toolCallCount, p.turnCount, p.usage, stop, p.history)
  }

  /** How a turn ends: with another turn to come, or with the run. */
  datatype Turn = Continue(next: Progress) | Finish(result: RunResult, err: Option<CallError>)

  /** The limits that are checked before a turn. */
  function Exhausted(cfg: Config, p: Progress): Option<RunStop> {
    if cfg.maxTurns > 0 && p.turnCount >= cfg.maxTurns then Some(StopMaxTurns)
    else if cfg.maxTokens > 0 && p.usage.total >= cfg.maxTokens then Some(StopMaxTokens)
    else None
  }

  /** Why a response is the last one, if it is. */
  function Terminal(cfg: Config, p: Progress, r: Response): Option<RunStop> {
    if cfg.stopWhen(r) then Some(StopCustom)
    else if r.stopReason != ToolUseStop || ToolUses(r.content) == [] then Some(StopEndTurn)
    else if cfg.maxToolCalls > 0 && p.toolCallCount + |ToolUses(r.content)| > cfg.maxToolCalls
    then Some(StopMaxToolCalls)
    else None
  }

  function Counted(p: Progress, r: Response): Progress {
    p.(usage := Add(p.usage, r.usage), turnCount := p.turnCount + 1)
  }

  /** A turn that has its response. */
  function Respond(w: World, cfg: Config, p: Progress, r: Response): Turn {
    var q := Counted(p, r);
    match Terminal(cfg, q, r)
    case Some(stop) =>
      var step := Step(|p.steps|, r, [], []);
      var last := q.(history := AppendAssistantMessage(p.history, r.content), steps := p.steps + [step]);
      Finish(Result(last, Some(r), stop), None)
    case None =>
      var calls := ToolUses(r.content);
      var results := Executed(w, cfg, p.turnCount, calls);
      Continue(q.(
        history := p.history + [Message(Assistant, r.content), Message(User, ResultBlocks(results))],
        steps := p.steps + [Step(|p.steps|, r, calls, results)],
        toolCallCount := p.toolCallCount + |calls|))
  }

  function TakeTurn(w: World, cfg: Config, p: Progress): Turn {
    if p.turnCount >= w.horizon then Finish(Result(p, None, StopFor(w.contextError)), Some(w.contextError))
    else
      match Exhausted(cfg, p)
      case Some(stop) => Finish(Result(p, None, stop), None)
      case None =>
        match w.reply(p.turnCount, cfg.buildTurnMessages(p.turnCount, p.history))
        case CallFailed(err) => Finish(Result(p, None, StopFor(err)), Some(err))
        case Answer(r) => Respond(w, cfg, p, r)
  }

  /** The whole run. */
  function Run(w: World, cfg: Config, p: Progress): (RunResult, Option<CallError>)
    decreases w.horizon - p.turnCount
  {
    match TakeTurn(w, cfg, p)
    case Finish(result, err) => (result, err)
    case Continue(next) => Run(w, cfg, next)
  }

  /** `runLoop`. */
  method RunBlocking(w: World, cfg: Config, messages: Messages) returns (result: RunResult, err: Option<CallError>)
    ensures (result, err) == Run(w, cfg, Start(messages))
  {
    hide Executed, ToolUses, ResultBlocks, Add;
    result := RunResult(None, [], 0, 0, NO_USAGE, StopError, []);
    err := None;
    var history := messages;
    ghost var p := Start(messages);
    while true
      invariant p == Progress(history, result.steps, result.toolCallCount, result.turnCount, result.usage)
      invariant result.response == None && err == None
      invariant Run(w, cfg, Start(messages)) == Run(w, cfg, p)
      decreases w.horizon - result.turnCount
    {
      if result.turnCount >= w.horizon {
        result := result.(stopReason := StopFor(w.contextError), messages := history);
        return result, Some(w.contextError);
      }
      if cfg.maxTurns > 0 && result.turnCount >= cfg.maxTurns {
        result := result.(stopReason := StopMaxTurns, messages := history);
        return;
      }
      if cfg.maxTokens > 0 && result.usage.total >= cfg.maxTokens {
        result := result.(stopReason := StopMaxTokens, messages := history);
        return;
      }
      var messagesForTurn := cfg.buildTurnMessages(result.turnCount, history);
      var reply := w.reply(result.turnCount, messagesForTurn);
      if reply.CallFailed? {
        result := result.(stopReason := StopFor(reply.err), messages := history);
        return result, Some(reply.err);
      }
      var resp := reply.response;
      var turn := result.turnCount;
      result := result.(usage := Add(result.usage, resp.usage), turnCount := result.turnCount + 1);
      var step := Step(|result.steps|, resp, [], []);
      if cfg.stopWhen(resp) {
        history := AppendAssistantMessage(history, resp.content);
        result := result.(
          response := Some(resp), steps := result.steps + [step], stopReason := StopCustom, messages := history);
        return;
      }
      if resp.stopReason != ToolUseStop {
        history := AppendAssistantMessage(history, resp.content);
        result := result.(
          response := Some(resp), steps := result.steps + [step], stopReason := StopEndTurn, messages := history);
        return;
      }
      var toolUses := ToolUses(resp.content);
      if |toolUses| == 0 {
        history := AppendAssistantMessage(history, resp.content);
        result := result.(
          response := Some(resp), steps := result.steps + [step], stopReason := StopEndTurn, messages := history);
        return;
      }
      if cfg.maxToolCalls > 0 && result.toolCallCount + |toolUses| > cfg.maxToolCalls {
        history := AppendAssistantMessage(history, resp.content);
        result := result.(
          response := Some(resp), steps := result.steps + [step], stopReason := StopMaxToolCalls, messages := history);
        return;
      }
      var toolResults := ExecuteToolCalls(w, cfg, turn, toolUses);
      assert |toolResults| == |toolUses| by { ExecutedLength(w, cfg, turn, toolUses); }
      step := step.(toolCalls := toolUses, toolResults := toolResults);
      result := result.(steps := result.steps + [step], toolCallCount := result.toolCallCount + |toolUses|);
      ghost var before := history;
      history := AppendAssistantMessage(history, resp.content);
      history := AppendToolResultsMessage(history, toolResults);
      assert history == before + [Message(Assistant, resp.content), Message(User, ResultBlocks(toolResults))];
      p := TakeTurn(w, cfg, p).next;
    }
  }

  lemma ExecutedLength(w: World, cfg: Config, turn: nat, calls: seq<ToolCall>)
    ensures |Executed(w, cfg, turn, calls)| == |calls|
  {
  }
}
