/** The streaming tool loop `RunStream.run` (without voice), the events it sends,
    and the history handlers that replay them. */
module RunStream {
  import opened GoStrings
  import opened StreamTypes
  import opened RunTypes
  import opened RunLoop

  datatype InterruptBehavior = Discard | SavePartial | SaveMarked

  /** What arrives while a turn is being streamed.  `Cancel` and `Interrupt` are
      the two requests a caller can make. */
  datatype Item =
    | Received(event: Event)
    | Interrupt(message: Message, behavior: InterruptBehavior)
    | Cancel
    | ContextDone(err: CallError)

  /** How the underlying stream stands once it is no longer read. */
  datatype StreamEnd = Broken(err: CallError) | Complete(response: Response)

  datatype Script = OpenFailed(err: CallError) | Opened(items: seq<Item>, end: StreamEnd)

  /** The world of a streaming run: `reply` is replaced by the streams. */
  datatype StreamWorld = StreamWorld(world: World, script: (nat, Messages) -> Script)

  datatype RunEvent =
    | StepStart(index: nat)
    | StreamEvent(event: Event)
    | ToolCallStart(call: ToolCall)
    | ToolResultEvent(id: Bytes, name: Bytes, content: Bytes, error: Option<Bytes>)
    | StepComplete(stepIndex: nat, response: Response)
    | HistoryDelta(expectedLen: nat, append: Messages)
    | Interrupted(partial: Bytes, behavior: InterruptBehavior)
    | RunComplete(result: RunResult)

  // ---------- the effect of a run, step by step ----------

  /** The shared history and everything sent so far. */
  datatype Log = Log(messages: Messages, sent: seq<RunEvent>) {
    function Send(e: RunEvent): Log {
      this.(sent := sent + [e])
    }

    /** `appendHistoryDelta`. */
    function Append(delta: Messages): Log {
      if delta == [] then this else Log(messages + delta, sent + [HistoryDelta(|messages|, delta)])
    }
  }

  const WEB_SEARCH := Ascii("web_search")
  const INTERRUPTED := Ascii(" [interrupted]")
  const FOUND := Ascii("Found ")
  const RESULTS := Ascii(" results")

  function Decimal(n: nat): Bytes {
    if n < 10 then [48 + n] else Decimal(n / 10) + [48 + n % 10]
  }

  /** An event of the model is passed on; a web search result is also reported as
      a tool result. */
  function Forward(log: Log, e: Event): Log {
    var log := log.Send(StreamEvent(e));
    match e
    case BlockStart(_, WebSearchResult(id, hits)) =>
      log.Send(ToolResultEvent(id, WEB_SEARCH, if hits > 0 then FOUND + Decimal(hits) + RESULTS else [], None))
    case _ => log
  }

  function PartialText(partial: Bytes, e: Event): Bytes {
    match e
    case BlockDelta(_, TextDelta(text)) => partial + text
    case _ => partial
  }

  /** What an interrupt adds to the history. */
  function InterruptDelta(partial: Bytes, message: Message, behavior: InterruptBehavior): Messages {
    (match behavior
     case Discard => []
     case SavePartial => if partial == [] then [] else [Message(Assistant, [Text(partial)])]
     case SaveMarked => if partial == [] then [] else [Message(Assistant, [Text(partial + INTERRUPTED)])])
    + [message]
  }

  /** Reading a stream either comes to an end, or ends the run. */
  datatype Reading = Drained(log: Log) | Aborted(log: Log, stop: RunStop, err: Option<CallError>)

  /** The streaming of one turn.  After an interrupt the rest of the stream is not
      read, and the turn goes on as if it had ended. */
  function Read(log: Log, partial: Bytes, items: seq<Item>): Reading
    decreases |items|
  {
    if items == [] then Drained(log)
    else
      match items[0]
      case Received(e) => Read(Forward(log, e), PartialText(partial, e), items[1..])
      case Interrupt(message, behavior) =>
        Drained(log.Append(InterruptDelta(partial, message, behavior)).Send(Interrupted(partial, behavior)))
      case Cancel => Aborted(log.Send(Interrupted(partial, Discard)), StopCancelled, None)
      case ContextDone(err) => Aborted(log, StopFor(err), Some(err))
  }

  /** The counters of the loop, as in the blocking form but with the history in
      the log. */
  datatype Counters = Counters(stepIndex: nat, steps: seq<Step>, toolCallCount: nat, turnCount: nat, usage: Usage)

  datatype StreamProgress = StreamProgress(log: Log, c: Counters) {
    function Blocking(): Progress {
      Progress(log.messages, c.steps, c.toolCallCount, c.turnCount, c.usage)
    }
  }

  function StreamStart(initial: Messages): StreamProgress {
    StreamProgress(Log(initial, []), Counters(0, [], 0, 0, NO_USAGE))
  }

  datatype StreamTurn =
    | StreamContinue(next: StreamProgress)
    | StreamFinish(log: Log, result: RunResult, err: Option<CallError>)

  function StreamResult(p: StreamProgress, response: Option<Response>, stop: RunStop): RunResult {
    Result(p.Blocking(), response, stop)
  }

  /** The run is over and says so with a last event. */
  function Announce(p: StreamProgress, response: Option<Response>, stop: RunStop): StreamTurn {
    var result := StreamResult(p, response, stop);
    StreamFinish(p.log.Send(RunComplete(result)), result, None)
  }

  /** The run is over because of an error, without an event. */
  function Abandon(p: StreamProgress, err: CallError): StreamTurn {
    StreamFinish(p.log, StreamResult(p, None, StopFor(err)), Some(err))
  }

  function SendTools(log: Log, calls: seq<ToolCall>, results: seq<ToolExecutionResult>): Log
    requires |calls| == |results|
  {
    if calls == [] then log
    else
      var n := |calls| - 1;
      var r := results[n];
      SendTools(log, calls[..n], results[..n]).Send(ToolCallStart(calls[n]))
        .Send(ToolResultEvent(calls[n].id, calls[n].name, r.content, r.error))
  }

  function StreamRespond(w: World, cfg: Config, p: StreamProgress, r: Response): StreamTurn {
    var c := p.c.(usage := Add(p.c.usage, r.usage), turnCount := p.c.turnCount + 1);
    match Terminal(cfg, p.(c := c).Blocking(), r)
    case Some(stop) =>
      var log := p.log.Send(StepComplete(c.stepIndex, r)).Append([Message(Assistant, r.content)]);
      Announce(StreamProgress(log, c.(steps := c.steps + [Step(c.stepIndex, r, [], [])])), Some(r), stop)
    case None =>
      var calls := ToolUses(r.content);
      var results := Executed(w, cfg, p.c.turnCount, calls);
      var log := SendTools(p.log, calls, results).Send(StepComplete(c.stepIndex, r))
                   .Append([Message(Assistant, r.content), Message(User, ResultBlocks(results))]);
      StreamContinue(StreamProgress(log, c.(
        steps := c.steps + [Step(c.stepIndex, r, calls, results)],
        toolCallCount := c.toolCallCount + |calls|,
        stepIndex := c.stepIndex + 1)))
  }

  function TakeStreamTurn(w: StreamWorld, cfg: Config, p: StreamProgress): StreamTurn {
    if p.c.turnCount >= w.world.horizon then Abandon(p, w.world.contextError)
    else
      match Exhausted(cfg, p.Blocking())
      case Some(stop) => Announce(p, None, stop)
      case None =>
        var started := p.(log := p.log.Send(StepStart(p.c.stepIndex)));
        match w.script(p.c.turnCount, cfg.buildTurnMessages(p.c.turnCount, p.log.messages))
        case OpenFailed(err) => Abandon(started, err)
        case Opened(items, end) =>
          match Read(started.log, [], items)
          case Aborted(log, stop, err) =>
            var aborted := p.(log := log);
            if err.None? then Announce(aborted, None, stop)
            else StreamFinish(log, StreamResult(aborted, None, stop), err)
          case Drained(log) =>
            match end
            case Broken(err) => Abandon(p.(log := log), err)
            case Complete(r) => StreamRespond(w.world, cfg, p.(log := log), r)
  }

  datatype Ended = Ended(log: Log, result: RunResult, err: Option<CallError>)

  /** The whole run. */
  function RunStreaming(w: StreamWorld, cfg: Config, p: StreamProgress): Ended
    decreases w.world.horizon - p.c.turnCount
  {
    match TakeStreamTurn(w, cfg, p)
    case StreamFinish(log, result, err) => Ended(log, result, err)
    case StreamContinue(next) => RunStreaming(w, cfg, next)
  }

  lemma SendNoTools(log: Log)
    ensures SendTools(log, [], []) == log
  {
  }

  lemma SendOneMore(
    log: Log, calls: seq<ToolCall>, call: ToolCall, results: seq<ToolExecutionResult>, r: ToolExecutionResult)
    requires |calls| == |results|
    ensures SendTools(log, calls + [call], results + [r]) ==
            SendTools(log, calls, results).Send(ToolCallStart(call))
              .Send(ToolResultEvent(call.id, call.name, r.content, r.error))
  {
    assert (calls + [call])[..|calls|] == calls && (results + [r])[..|calls|] == results;
  }

  // ---------- the class ----------

  /** A run stream.  `sent` is what the loop has sent; `delivered` is what reached
      the channel: from the moment the stream is closed, nothing does. */
  class Stream {
    var messages: Messages
    ghost var sent: seq<RunEvent>
    var delivered: seq<RunEvent>
    var sends: nat
    const closedAfter: Option<nat>  // the number of sends after which another goroutine closes the stream
    var partialContent: Bytes
    var result: Option<RunResult>
    var err: Option<CallError>

    constructor (initial: Messages, closedAfter: Option<nat>)
      ensures messages == initial && sent == [] && delivered == [] && sends == 0
      ensures result == None && err == None && this.closedAfter == closedAfter
    {
      messages, sent, delivered, sends := initial, [], [], 0;
      partialContent, result, err := [], None, None;
      this.closedAfter := closedAfter;
    }

    ghost function Value(): Log
      reads this`messages, this`sent
    {
      Log(messages, sent)
    }

    /** What has reached the channel is a prefix of what was sent, and all of it
        unless the stream was closed. */
    ghost predicate Valid()
      reads this`sent, this`delivered, this`sends
    {
      && sends == |sent|
      && delivered == (if closedAfter.Some? && closedAfter.value < |sent| then sent[..closedAfter.value] else sent)
    }

    /** `send`. */
    method Send(event: RunEvent)
      requires Valid()
      modifies this`sent, this`delivered, this`sends
      ensures Valid() && sent == old(sent) + [event]
    {
      if !(closedAfter.Some? && closedAfter.value <= sends) {
        delivered := delivered + [event];
      }
      sent, sends := sent + [event], sends + 1;
    }

    /** `appendHistoryDelta`. */
    method AppendHistoryDelta(delta: Messages)
      requires Valid()
      modifies this`messages, this`sent, this`delivered, this`sends
      ensures Valid() && Value() == old(Value()).Append(delta)
    {
      if |delta| == 0 {
        return;
      }
      var expectedLen := |messages|;
      messages := messages + delta;
      Send(HistoryDelta(expectedLen, delta));
    }

    /** Passes one event of the model on. */
    method Receive(event: Event)
      requires Valid()
      modifies this`sent, this`delivered, this`sends, this`partialContent
      ensures Valid() && Value() == Forward(old(Value()), event)
      ensures partialContent == PartialText(old(partialContent), event)
    {
      hide Decimal;
      Send(StreamEvent(event));
      match event {
        case BlockDelta(_, TextDelta(text)) => partialContent := partialContent + text;
        case BlockStart(_, WebSearchResult(id, hits)) =>
          var summary: Bytes := [];
          if hits > 0 {
            summary := FOUND + Decimal(hits) + RESULTS;
          }
          Send(ToolResultEvent(id, WEB_SEARCH, summary, None));
        case _ =>
      }
    }

    /** Injects the message of an interrupt, behind what was received so far. */
    method Inject(partialText: Bytes, message: Message, behavior: InterruptBehavior)
      requires Valid()
      modifies this`messages, this`sent, this`delivered, this`sends
      ensures Valid()
      ensures Value() ==
              old(Value()).Append(InterruptDelta(partialText, message, behavior))
                .Send(Interrupted(partialText, behavior))
    {
      var delta: Messages := [];
      match behavior {
        case SavePartial =>
          if partialText != [] {
            delta := delta + [Message(Assistant, [Text(partialText)])];
          }
        case SaveMarked =>
          if partialText != [] {
            delta := delta + [Message(Assistant, [Text(partialText + INTERRUPTED)])];
          }
        case Discard =>
      }
      delta := delta + [message];
      assert delta == InterruptDelta(partialText, message, behavior);
      hide InterruptDelta;
      AppendHistoryDelta(delta);
      Send(Interrupted(partialText, behavior));
    }

    /** The loop labelled `streamLoop`: reads the stream of one turn. */
    method ReadStream(items: seq<Item>) returns (stop: Option<RunStop>, failure: Option<CallError>)
      requires Valid()
      modifies this`messages, this`sent, this`delivered, this`sends, this`partialContent
      ensures Valid()
      ensures match Read(old(Value()), [], items)
              case Drained(log) => stop == None && failure == None && Value() == log
              case Aborted(log, why, e) => stop == Some(why) && failure == e && Value() == log
    {
      hide Forward, PartialText, InterruptDelta, Valid, Log.Append;
      partialContent := [];
      for n := 0 to |items|
        invariant Valid()
        invariant Read(old(Value()), [], items) == Read(Value(), partialContent, items[n..])
      {
        assert items[n..][0] == items[n] && items[n..][1..] == items[n + 1..];
        var item := items[n];
        if item.ContextDone? {
          return Some(StopFor(item.err)), Some(item.err);
        } else if item.Cancel? {
          var partialText := partialContent;
          partialContent := [];
          Send(Interrupted(partialText, Discard));
          return Some(StopCancelled), None;
        } else if item.Interrupt? {
          var partialText := partialContent;
          partialContent := [];
          Inject(partialText, item.message, item.behavior);
          return None, None;
        } else {
          Receive(item.event);
        }
      }
      return None, None;
    }

    /** Runs the tool calls of a response one after the other, each between its two
        events. */
    method ExecuteTools(w: World, cfg: Config, turn: nat, toolUses: seq<ToolCall>)
      returns (toolResults: seq<ToolExecutionResult>)
      requires Valid()
      modifies this`sent, this`delivered, this`sends
      ensures Valid() && toolResults == Executed(w, cfg, turn, toolUses)
      ensures Value() == SendTools(old(Value()), toolUses, toolResults)
    {
      hide ExecuteToolCall, SendTools, Valid;
      SendNoTools(Value());
      toolResults := [];
      for n := 0 to |toolUses|
        invariant Valid() && |toolResults| == n
        invariant forall k :: 0 <= k < n ==> toolResults[k] == ExecuteToolCall(w, cfg, turn, k, toolUses[k])
        invariant Value() == SendTools(old(Value()), toolUses[..n], toolResults)
      {
        var tu := toolUses[n];
        Send(ToolCallStart(tu));
        var tr := ExecuteToolCall(w, cfg, turn, n, tu);
        SendOneMore(old(Value()), toolUses[..n], tu, toolResults, tr);
        assert toolUses[..n] + [tu] == toolUses[..n + 1];
        toolResults := toolResults + [tr];
        Send(ToolResultEvent(tu.id, tu.name, tr.content, tr.error));
      }
      assert toolUses[..|toolUses|] == toolUses;
    }

    /** The end of a run whose last response is `resp`. */
    method FinishWith(res: RunResult, step: Step, stop: RunStop)
      requires Valid()
      modifies this`messages, this`sent, this`delivered, this`sends, this`result
      ensures Valid()
      ensures var log := old(Value()).Send(StepComplete(step.index, step.response))
                .Append([Message(Assistant, step.response.content)]);
              var final := res.(response := Some(step.response), steps := res.steps + [step], stopReason := stop,
                                messages := log.messages);
              result == Some(final) && Value() == log.Send(RunComplete(final))
    {
      var final := res.(response := Some(step.response), steps := res.steps + [step], stopReason := stop);
      Send(StepComplete(step.index, step.response));
      AppendHistoryDelta([Message(Assistant, step.response.content)]);
      final := final.(messages := messages);
      result := Some(final);
      Send(RunComplete(final));
    }

    /** The counters of a result under construction. */
    static function CountersOf(stepIndex: nat, res: RunResult): Counters {
      Counters(stepIndex, res.steps, res.toolCallCount, res.turnCount, res.usage)
    }

    /** What `run` does with the response of a turn; `done` says that it returns. */
    method HandleResponse(w: World, cfg: Config, res: RunResult, stepIndex: nat, resp: Response)
      returns (next: RunResult, done: bool)
      requires Valid() && res.response == None
      modifies this`messages, this`sent, this`delivered, this`sends, this`result
      ensures Valid()
      ensures match StreamRespond(w, cfg, StreamProgress(old(Value()), CountersOf(stepIndex, res)), resp)
              case StreamFinish(log, final, e) => done && result == Some(final) && e == None && Value() == log
              case StreamContinue(p) =>
                !done && next.response == None && p == StreamProgress(Value(), CountersOf(stepIndex + 1, next))
    {
      hide Executed, ToolUses, ResultBlocks, Add, SendTools;
      var turn := res.turnCount;
      next := res.(usage := Add(res.usage, resp.usage), turnCount := res.turnCount + 1);
      var step := Step(stepIndex, resp, [], []);
      if cfg.stopWhen(resp) {
        FinishWith(next, step, StopCustom);
        return next, true;
      }
      if resp.stopReason != ToolUseStop {
        FinishWith(next, step, StopEndTurn);
        return next, true;
      }
      var toolUses := ToolUses(resp.content);
      if |toolUses| == 0 {
        FinishWith(next, step, StopEndTurn);
        return next, true;
      }
      if cfg.maxToolCalls > 0 && next.toolCallCount + |toolUses| > cfg.maxToolCalls {
        FinishWith(next, step, StopMaxToolCalls);
        return next, true;
      }
      var toolResults := ExecuteTools(w, cfg, turn, toolUses);
      step := step.(toolCalls := toolUses, toolResults := toolResults);
      next := next.(steps := next.steps + [step], toolCallCount := next.toolCallCount + |toolUses|);
      Send(StepComplete(stepIndex, resp));
      var toolResultBlocks := ToolResultsToBlocks(toolResults);
      AppendHistoryDelta([Message(Assistant, resp.content), Message(User, toolResultBlocks)]);
      done := false;
    }

    /** `run`. */
    method Run(w: StreamWorld, cfg: Config)
      requires Valid() && sent == [] && err == None
      modifies this
      ensures Valid() && result.Some?
      ensures Ended(Value(), result.value, err) == RunStreaming(w, cfg, StreamStart(old(messages)))
    {
      hide Read, Valid, RunStreaming, StreamRespond, Exhausted;
      var res := RunResult(None, [], 0, 0, NO_USAGE, StopError, []);
      var stepIndex := 0;
      ghost var p := StreamStart(messages);
      while true
        invariant Valid() && err == None && res.response == None
        invariant p == StreamProgress(Value(), CountersOf(stepIndex, res))
        invariant RunStreaming(w, cfg, StreamStart(old(messages))) == RunStreaming(w, cfg, p)
        decreases w.world.horizon - res.turnCount
      {
        UnfoldRun(w, cfg, p);
        if res.turnCount >= w.world.horizon {
          result := Some(res.(stopReason := StopFor(w.world.contextError), messages := messages));
          err := Some(w.world.contextError);
          return;
        }
        var limit := LimitReached(cfg, res);
        ExhaustedFor(cfg, p, res);
        if limit.Some? {
          res := res.(stopReason := limit.value, messages := messages);
          result := Some(res);
          Send(RunComplete(res));
          return;
        }
        var turn := res.turnCount;
        var script := w.script(turn, cfg.buildTurnMessages(turn, messages));
        Send(StepStart(stepIndex));
        if script.OpenFailed? {
          result := Some(res.(stopReason := StopFor(script.err), messages := messages));
          err := Some(script.err);
          return;
        }
        var stop, failure := ReadStream(script.items);
        if stop.Some? {
          res := res.(stopReason := stop.value, messages := messages);
          result := Some(res);
          err := failure;
          if failure.None? {
            Send(RunComplete(res));
          }
          return;
        }
        if script.end.Broken? {
          result := Some(res.(stopReason := StopFor(script.end.err), messages := messages));
          err := Some(script.end.err);
          return;
        }
        RespondCounts(w.world, cfg, StreamProgress(Value(), p.c), script.end.response);
        var done;
        res, done := HandleResponse(w.world, cfg, res, stepIndex, script.end.response);
        if done {
          return;
        }
        stepIndex := stepIndex + 1;
        p := TakeStreamTurn(w, cfg, p).next;
      }
    }

    /** The checks of the turn and token limits. */
    static method LimitReached(cfg: Config, res: RunResult) returns (stop: Option<RunStop>)
      ensures stop == Exhausted(cfg, Progress(res.messages, res.steps, res.toolCallCount, res.turnCount, res.usage))
    {
      if cfg.maxTurns > 0 && res.turnCount >= cfg.maxTurns {
        return Some(StopMaxTurns);
      }
      if cfg.maxTokens > 0 && res.usage.total >= cfg.maxTokens {
        return Some(StopMaxTokens);
      }
      return None;
    }
  }

  lemma ExhaustedFor(cfg: Config, p: StreamProgress, res: RunResult)
    requires p.c.turnCount == res.turnCount && p.c.usage == res.usage
    ensures Exhausted(cfg, p.Blocking()) ==
            Exhausted(cfg, Progress(res.messages, res.steps, res.toolCallCount, res.turnCount, res.usage))
  {
  }

  lemma RespondCounts(w: World, cfg: Config, p: StreamProgress, r: Response)
    ensures var t := StreamRespond(w, cfg, p, r);
            t.StreamContinue? ==> t.next.c.turnCount == p.c.turnCount + 1
  {
  }

  lemma UnfoldRun(w: StreamWorld, cfg: Config, p: StreamProgress)
    ensures RunStreaming(w, cfg, p) ==
            match TakeStreamTurn(w, cfg, p)
            case StreamFinish(log, result, err) => Ended(log, result, err)
            case StreamContinue(next) => RunStreaming(w, cfg, next)
  {
  }

  // ---------- the history handlers ----------

  /** The caller's copy of the history. */
  class History {
    var messages: Messages

    constructor (initial: Messages)
      ensures messages == initial
    {
      messages := initial;
    }

    /** `DefaultHistoryHandler`. */
    method Handle(event: RunEvent)
      modifies this
      ensures messages == old(messages) + if event.HistoryDelta? then event.append else []
    {
      if event.HistoryDelta? {
        if |event.append| == 0 {
          return;
        }
        messages := messages + event.append;
      }
    }

    /** `DefaultHistoryHandlerStrict`, with its panic as a result. */
    method HandleStrict(event: RunEvent) returns (panics: bool)
      modifies this
      ensures panics <==> Handled(old(messages), event) == None
      ensures Some(messages) == if panics then Some(old(messages)) else Handled(old(messages), event)
    {
      if event.HistoryDelta? {
        if |event.append| == 0 {
          return false;
        }
        if |messages| != event.expectedLen {
          return true;
        }
        messages := messages + event.append;
      }
      return false;
    }
  }

  /** What the strict handler makes of one event, unless it panics. */
  function Handled(messages: Messages, event: RunEvent): Option<Messages> {
    if !event.HistoryDelta? || event.append == [] then Some(messages)
    else if |messages| != event.expectedLen then None
    else Some(messages + event.append)
  }

  /** The strict handler on a sequence of events. */
  function Replay(messages: Messages, events: seq<RunEvent>): Option<Messages> {
    if events == [] then Some(messages)
    else
      var n := |events| - 1;
      match Replay(messages, events[..n])
      case None => None
      case Some(before) => Handled(before, events[n])
  }
}
