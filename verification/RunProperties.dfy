/** What holds over every run of the tool loop, and that the streaming form
    refines the blocking one. */
module RunProperties {
  import opened GoStrings
  import opened StreamTypes
  import opened RunTypes
  import opened RunLoop
  import opened RunStream

  // ---------- streaming refines blocking ----------

  predicate OnlyEvents(items: seq<Item>) {
    forall k :: 0 <= k < |items| ==> items[k].Received?
  }

  predicate SameAnswer(reply: Reply, script: Script) {
    match (reply, script)
    case (CallFailed(e), OpenFailed(e')) => e == e'
    case (CallFailed(e), Opened(items, Broken(e'))) => OnlyEvents(items) && e == e'
    case (Answer(r), Opened(items, Complete(r'))) => OnlyEvents(items) && r == r'
    case _ => false
  }

  /** Both forms get the same answers, and nobody interrupts the streams. */
  ghost predicate Matched(w: StreamWorld) {
    forall n: nat, ms: Messages :: SameAnswer(w.world.reply(n, ms), w.script(n, ms))
  }

  lemma {:induction false} ReadingEvents(log: Log, partial: Bytes, items: seq<Item>)
    requires OnlyEvents(items)
    ensures Read(log, partial, items).Drained? && Read(log, partial, items).log.messages == log.messages
    decreases |items|
  {
    hide Decimal;
    if items != [] {
      ReadingEvents(Forward(log, items[0].event), PartialText(partial, items[0].event), items[1..]);
    }
  }

  /** Apart from a cancelled turn, what a stream turn does to the history and the
      counters is a turn of the blocking loop. */
  lemma RespondingRefines(w: World, cfg: Config, p: StreamProgress, r: Response)
    requires p.c.stepIndex == |p.c.steps|
    ensures match StreamRespond(w, cfg, p, r)
            case StreamFinish(_, result, err) => Respond(w, cfg, p.Blocking(), r) == Finish(result, err)
            case StreamContinue(next) =>
              Respond(w, cfg, p.Blocking(), r) == Continue(next.Blocking()) && next.c.stepIndex == |next.c.steps|
  {
    hide Executed, ToolUses, ResultBlocks, Add, SendTools, Terminal;
    var c := p.c.(usage := Add(p.c.usage, r.usage), turnCount := p.c.turnCount + 1);
    assert p.(c := c).Blocking() == Counted(p.Blocking(), r);
    ExecutedLength(w, cfg, p.c.turnCount, ToolUses(r.content));
    SendToolsKeepsMessages(p.log, ToolUses(r.content), Executed(w, cfg, p.c.turnCount, ToolUses(r.content)));
  }

  lemma {:induction false} SendToolsKeepsMessages(log: Log, calls: seq<ToolCall>, results: seq<ToolExecutionResult>)
    ensures |calls| == |results| ==> SendTools(log, calls, results).messages == log.messages
    decreases |calls|
  {
    if |calls| == |results| && calls != [] {
      var n := |calls| - 1;
      SendToolsKeepsMessages(log, calls[..n], results[..n]);
    }
  }

  lemma TurnRefines(w: StreamWorld, cfg: Config, p: StreamProgress)
    requires Matched(w) && p.c.stepIndex == |p.c.steps|
    ensures match TakeStreamTurn(w, cfg, p)
            case StreamFinish(_, result, err) => TakeTurn(w.world, cfg, p.Blocking()) == Finish(result, err)
            case StreamContinue(next) =>
              TakeTurn(w.world, cfg, p.Blocking()) == Continue(next.Blocking()) && next.c.stepIndex == |next.c.steps|
  {
    hide StreamRespond, Respond, Exhausted, Read;
    var ms := cfg.buildTurnMessages(p.c.turnCount, p.log.messages);
    var script := w.script(p.c.turnCount, ms);
    assert SameAnswer(w.world.reply(p.c.turnCount, ms), script);
    if script.Opened? {
      var started := p.log.Send(StepStart(p.c.stepIndex));
      ReadingEvents(started, [], script.items);
      if script.end.Complete? {
        RespondingRefines(w.world, cfg, p.(log := Read(started, [], script.items).log), script.end.response);
      }
    }
  }

  lemma {:induction false} RunRefines(w: StreamWorld, cfg: Config, p: StreamProgress)
    requires Matched(w) && p.c.stepIndex == |p.c.steps|
    ensures var e := RunStreaming(w, cfg, p); (e.result, e.err) == Run(w.world, cfg, p.Blocking())
    decreases w.world.horizon - p.c.turnCount
  {
    hide Matched, TakeStreamTurn, TakeTurn;
    TurnRefines(w, cfg, p);
    UnfoldRun(w, cfg, p);
    if TakeStreamTurn(w, cfg, p).StreamContinue? {
      TurnAdvances(w, cfg, p);
      RunRefines(w, cfg, TakeStreamTurn(w, cfg, p).next);
    }
  }

  lemma TurnAdvances(w: StreamWorld, cfg: Config, p: StreamProgress)
    ensures var t := TakeStreamTurn(w, cfg, p);
            t.StreamContinue? ==> p.c.turnCount < w.world.horizon && t.next.c.turnCount == p.c.turnCount + 1
  {
    hide Read, Executed, ToolUses, ResultBlocks, Add, SendTools;
  }

  /** Streaming refines blocking: with the same model answers and tool outcomes and
      without interrupts, `run` ends with the same result and error as `runLoop`:
      the same steps, messages, counts, usage and stop reason. */
  lemma {:induction false} StreamingRefinesBlocking(w: StreamWorld, cfg: Config, initial: Messages)
    requires Matched(w)
    ensures var e := RunStreaming(w, cfg, StreamStart(initial));
            (e.result, e.err) == Run(w.world, cfg, Start(initial))
  {
    RunRefines(w, cfg, StreamStart(initial));
  }

  // ---------- history replay ----------

  /** A strict handler that has seen everything sent has the history. */
  predicate Faithful(initial: Messages, log: Log) {
    Replay(initial, log.sent) == Some(log.messages)
  }

  lemma ReplayOneMore(initial: Messages, events: seq<RunEvent>, e: RunEvent)
    ensures Replay(initial, events + [e]) ==
            match Replay(initial, events) case None => None case Some(ms) => Handled(ms, e)
  {
    assert (events + [e])[..|events|] == events;
  }

  lemma SendKeeps(initial: Messages, log: Log, e: RunEvent)
    requires Faithful(initial, log) && !e.HistoryDelta?
    ensures Faithful(initial, log.Send(e))
  {
    ReplayOneMore(initial, log.sent, e);
  }

  lemma AppendKeeps(initial: Messages, log: Log, delta: Messages)
    requires Faithful(initial, log)
    ensures Faithful(initial, log.Append(delta))
  {
    ReplayOneMore(initial, log.sent, HistoryDelta(|log.messages|, delta));
  }

  lemma ForwardKeeps(initial: Messages, log: Log, e: Event)
    requires Faithful(initial, log)
    ensures Faithful(initial, Forward(log, e))
  {
    hide Faithful, Decimal;
    var first := log.Send(StreamEvent(e));
    SendKeeps(initial, log, StreamEvent(e));
    match e
    case BlockStart(_, WebSearchResult(id, hits)) =>
      var summary := if hits > 0 then FOUND + Decimal(hits) + RESULTS else [];
      SendKeeps(initial, first, ToolResultEvent(id, WEB_SEARCH, summary, None));
    case _ =>
  }

  lemma {:induction false} ReadKeeps(initial: Messages, log: Log, partial: Bytes, items: seq<Item>)
    requires Faithful(initial, log)
    ensures Faithful(initial, Read(log, partial, items).log)
    decreases |items|
  {
    hide Faithful, Forward, PartialText, InterruptDelta, Log.Append;
    if items != [] {
      match items[0]
      case Received(e) =>
        ForwardKeeps(initial, log, e);
        ReadKeeps(initial, Forward(log, e), PartialText(partial, e), items[1..]);
      case Interrupt(message, behavior) =>
        var delta := InterruptDelta(partial, message, behavior);
        AppendKeeps(initial, log, delta);
        SendKeeps(initial, log.Append(delta), Interrupted(partial, behavior));
      case Cancel => SendKeeps(initial, log, Interrupted(partial, Discard));
      case ContextDone(_) =>
    }
  }

  lemma {:induction false} SendToolsKeeps(
    initial: Messages, log: Log, calls: seq<ToolCall>, results: seq<ToolExecutionResult>)
    requires Faithful(initial, log) && |calls| == |results|
    ensures Faithful(initial, SendTools(log, calls, results))
    decreases |calls|
  {
    hide Faithful;
    if calls != [] {
      var n := |calls| - 1;
      SendToolsKeeps(initial, log, calls[..n], results[..n]);
      var before := SendTools(log, calls[..n], results[..n]);
      SendKeeps(initial, before, ToolCallStart(calls[n]));
      SendKeeps(initial, before.Send(ToolCallStart(calls[n])),
        ToolResultEvent(calls[n].id, calls[n].name, results[n].content, results[n].error));
    }
  }

  function LogOf(t: StreamTurn): Log {
    match t
    case StreamContinue(next) => next.log
    case StreamFinish(log, _, _) => log
  }

  lemma RespondKeeps(initial: Messages, w: World, cfg: Config, p: StreamProgress, r: Response)
    requires Faithful(initial, p.log)
    ensures Faithful(initial, LogOf(StreamRespond(w, cfg, p, r)))
    ensures var t := StreamRespond(w, cfg, p, r); t.StreamFinish? ==> t.result.messages == t.log.messages
  {
    hide Faithful, Executed, ToolUses, ResultBlocks, Add, SendTools, Log.Append, Terminal;
    var calls := ToolUses(r.content);
    var results := Executed(w, cfg, p.c.turnCount, calls);
    match StreamRespond(w, cfg, p, r)
    case StreamFinish(_, result, _) =>
      var log := p.log.Send(StepComplete(p.c.stepIndex, r));
      SendKeeps(initial, p.log, StepComplete(p.c.stepIndex, r));
      AppendKeeps(initial, log, [Message(Assistant, r.content)]);
      SendKeeps(initial, log.Append([Message(Assistant, r.content)]), RunComplete(result));
    case StreamContinue(_) =>
      ExecutedLength(w, cfg, p.c.turnCount, calls);
      SendToolsKeeps(initial, p.log, calls, results);
      var log := SendTools(p.log, calls, results);
      SendKeeps(initial, log, StepComplete(p.c.stepIndex, r));
      AppendKeeps(initial, log.Send(StepComplete(p.c.stepIndex, r)),
        [Message(Assistant, r.content), Message(User, ResultBlocks(results))]);
  }

  lemma TurnKeeps(initial: Messages, w: StreamWorld, cfg: Config, p: StreamProgress)
    requires Faithful(initial, p.log)
    ensures Faithful(initial, LogOf(TakeStreamTurn(w, cfg, p)))
    ensures var t := TakeStreamTurn(w, cfg, p); t.StreamFinish? ==> t.result.messages == t.log.messages
  {
    hide Faithful, Read, StreamRespond, Exhausted;
    if p.c.turnCount < w.world.horizon {
      match Exhausted(cfg, p.Blocking())
      case Some(stop) => SendKeeps(initial, p.log, RunComplete(StreamResult(p, None, stop)));
      case None =>
        var started := p.log.Send(StepStart(p.c.stepIndex));
        SendKeeps(initial, p.log, StepStart(p.c.stepIndex));
        match w.script(p.c.turnCount, cfg.buildTurnMessages(p.c.turnCount, p.log.messages))
        case OpenFailed(_) =>
        case Opened(items, end) =>
          ReadKeeps(initial, started, [], items);
          match Read(started, [], items)
          case Aborted(log, stop, _) => SendKeeps(initial, log, RunComplete(StreamResult(p.(log := log), None, stop)));
          case Drained(log) =>
            if end.Complete? {
              RespondKeeps(initial, w.world, cfg, p.(log := log), end.response);
            }
    }
  }

  lemma {:induction false} RunKeeps(initial: Messages, w: StreamWorld, cfg: Config, p: StreamProgress)
    requires Faithful(initial, p.log)
    ensures var e := RunStreaming(w, cfg, p); Faithful(initial, e.log) && e.result.messages == e.log.messages
    decreases w.world.horizon - p.c.turnCount
  {
    hide Faithful, TakeStreamTurn;
    TurnKeeps(initial, w, cfg, p);
    TurnAdvances(w, cfg, p);
    if TakeStreamTurn(w, cfg, p).StreamContinue? {
      RunKeeps(initial, w, cfg, TakeStreamTurn(w, cfg, p).next);
    }
  }

  lemma {:induction false} PrefixReplays(initial: Messages, events: seq<RunEvent>, k: nat)
    requires k <= |events| && Replay(initial, events).Some?
    ensures Replay(initial, events[..k]).Some?
    decreases |events|
  {
    if k == |events| {
      assert events[..k] == events;
    } else {
      var n := |events| - 1;
      PrefixReplays(initial, events[..n], k);
      assert events[..n][..k] == events[..k];
    }
  }

  /** History replay: in every run, whatever the streams, interrupts and
      cancellations are, and wherever closing the stream cuts off the events, the
      strict handler started from the initial messages never sees a wrong length;
      and if nothing is cut off it ends with the messages of the result. */
  lemma {:induction false} HistoryReplays(w: StreamWorld, cfg: Config, initial: Messages, k: nat)
    requires k <= |RunStreaming(w, cfg, StreamStart(initial)).log.sent|
    ensures var e := RunStreaming(w, cfg, StreamStart(initial));
            && Replay(initial, e.log.sent[..k]).Some?
            && Replay(initial, e.log.sent) == Some(e.result.messages)
  {
    hide RunStreaming;
    RunKeeps(initial, w, cfg, StreamStart(initial));
    PrefixReplays(initial, RunStreaming(w, cfg, StreamStart(initial)).log.sent, k);
  }

  // ---------- the interrupt that falls through ----------

  /** The text received so far of the turn, after more events. */
  function ReceivedText(partial: Bytes, events: seq<Item>): Bytes
    requires OnlyEvents(events)
    decreases |events|
  {
    if events == [] then partial else ReceivedText(PartialText(partial, events[0].event), events[1..])
  }

  /** An interrupt stops the reading of the stream, whatever was still to come, and
      the turn goes on with the history it leaves. */
  lemma {:induction false} ReadUntilInterrupt(
    log: Log, partial: Bytes, events: seq<Item>, message: Message, behavior: InterruptBehavior, rest: seq<Item>)
    requires OnlyEvents(events)
    ensures var reading := Read(log, partial, events + [Interrupt(message, behavior)] + rest);
            && reading.Drained?
            && reading.log.messages == log.messages + InterruptDelta(ReceivedText(partial, events), message, behavior)
    decreases |events|
  {
    hide Forward, PartialText, InterruptDelta;
    var items := events + [Interrupt(message, behavior)] + rest;
    if events == [] {
      assert items[0] == Interrupt(message, behavior);
    } else {
      assert items[1..] == events[1..] + [Interrupt(message, behavior)] + rest;
      assert items[0] == events[0];
      var e := events[0].event;
      ForwardKeepsMessages(log, e);
      ReadUntilInterrupt(Forward(log, e), PartialText(partial, e), events[1..], message, behavior, rest);
    }
  }

  lemma ForwardKeepsMessages(log: Log, e: Event)
    ensures Forward(log, e).messages == log.messages
  {
  }

  /** A turn that is streamed and interrupted after `events`. */
  predicate InterruptedTurn(
    w: StreamWorld, cfg: Config, p: StreamProgress,
    events: seq<Item>, message: Message, behavior: InterruptBehavior, rest: seq<Item>, end: StreamEnd)
  {
    && p.c.turnCount < w.world.horizon && Exhausted(cfg, p.Blocking()) == None && OnlyEvents(events)
    && w.script(p.c.turnCount, cfg.buildTurnMessages(p.c.turnCount, p.log.messages)) ==
       Opened(events + [Interrupt(message, behavior)] + rest, end)
  }

  /** A response that asks for tools which may still be called. */
  predicate AsksForTools(cfg: Config, toolCallCount: nat, r: Response) {
    && !cfg.stopWhen(r) && r.stopReason == ToolUseStop && ToolUses(r.content) != []
    && !(cfg.maxToolCalls > 0 && toolCallCount + |ToolUses(r.content)| > cfg.maxToolCalls)
  }

  /** An interrupt does not lead straight to the next turn, as its documentation
      says: the interrupted turn is finished first, and the loop goes round if and
      only if its response asks for tools within the limit. */
  lemma {:induction false} InterruptedTurnContinuesIff(
    w: StreamWorld, cfg: Config, p: StreamProgress,
    events: seq<Item>, message: Message, behavior: InterruptBehavior, rest: seq<Item>, end: StreamEnd)
    requires InterruptedTurn(w, cfg, p, events, message, behavior, rest, end)
    ensures TakeStreamTurn(w, cfg, p).StreamContinue? <==>
            end.Complete? && AsksForTools(cfg, p.c.toolCallCount, end.response)
  {
    hide Read, Exhausted, InterruptDelta, ToolUses, Executed, SendTools, ReceivedText;
    ReadUntilInterrupt(p.log.Send(StepStart(p.c.stepIndex)), [], events, message, behavior, rest);
  }

  /** What an interrupted turn leaves behind however its stream ends: the text received so
      far as the behaviour says and the injected message, and behind them the
      response of the interrupted turn with the results of its tools, or alone if
      the run ends with it; nothing more if the stream was broken. */
  lemma {:induction false} InterruptedTurnFallsThrough(
    w: StreamWorld, cfg: Config, p: StreamProgress,
    events: seq<Item>, message: Message, behavior: InterruptBehavior, rest: seq<Item>, end: StreamEnd)
    requires InterruptedTurn(w, cfg, p, events, message, behavior, rest, end)
    ensures var before := p.log.messages + InterruptDelta(ReceivedText([], events), message, behavior);
            match (TakeStreamTurn(w, cfg, p), end)
            case (StreamContinue(next), Complete(r)) =>
              next.log.messages == before + [
                Message(Assistant, r.content),
                Message(User, ResultBlocks(Executed(w.world, cfg, p.c.turnCount, ToolUses(r.content))))]
            case (StreamFinish(_, result, err), Complete(r)) =>
              && err == None && result.response == Some(r)
              && result.messages == before + [Message(Assistant, r.content)]
              && result.stopReason == (
                   if cfg.stopWhen(r) then StopCustom
                   else if r.stopReason != ToolUseStop || ToolUses(r.content) == [] then StopEndTurn
                   else StopMaxToolCalls)
            case (StreamFinish(_, result, err), Broken(e)) =>
              err == Some(e) && result.response == None && result.stopReason == StopFor(e) && result.messages == before
            case _ => false
  {
    hide Read, Exhausted, InterruptDelta, ToolUses, Executed, SendTools, ReceivedText, ResultBlocks, Add;
    var started := p.log.Send(StepStart(p.c.stepIndex));
    ReadUntilInterrupt(started, [], events, message, behavior, rest);
    if end.Complete? {
      var log := Read(started, [], events + [Interrupt(message, behavior)] + rest).log;
      var calls := ToolUses(end.response.content);
      ExecutedLength(w.world, cfg, p.c.turnCount, calls);
      SendToolsKeepsMessages(log, calls, Executed(w.world, cfg, p.c.turnCount, calls));
    }
  }

  // ---------- budgets ----------

  function CallsIn(steps: seq<Step>): nat {
    if steps == [] then 0 else var n := |steps| - 1; CallsIn(steps[..n]) + |steps[n].toolCalls|
  }

  /** What the loop keeps between turns: steps are numbered, turns are steps, tool
      calls are counted, every step so far has called a tool, and no limit is
      exceeded. */
  predicate WithinBudget(cfg: Config, p: Progress) {
    && p.turnCount == |p.steps|
    && (forall k :: 0 <= k < |p.steps| ==> p.steps[k].index == k)
    && p.toolCallCount == CallsIn(p.steps)
    && p.turnCount <= p.toolCallCount
    && (cfg.maxTurns > 0 ==> p.turnCount <= cfg.maxTurns)
    && (cfg.maxToolCalls > 0 ==> p.toolCallCount <= cfg.maxToolCalls)
  }

  /** The same for a result, whose last step may be without tool calls. */
  predicate ResultWithinBudget(cfg: Config, r: RunResult) {
    && r.turnCount == |r.steps|
    && (forall k :: 0 <= k < |r.steps| ==> r.steps[k].index == k)
    && r.toolCallCount == CallsIn(r.steps)
    && r.turnCount <= r.toolCallCount + 1
    && (cfg.maxTurns > 0 ==> r.turnCount <= cfg.maxTurns)
    && (cfg.maxToolCalls > 0 ==> r.toolCallCount <= cfg.maxToolCalls)
  }

  lemma OneMoreStep(steps: seq<Step>, s: Step)
    ensures CallsIn(steps + [s]) == CallsIn(steps) + |s.toolCalls|
  {
    assert (steps + [s])[..|steps|] == steps;
  }

  lemma RespondStaysWithinBudget(w: World, cfg: Config, p: Progress, r: Response)
    requires WithinBudget(cfg, p) && Exhausted(cfg, p) == None
    ensures match Respond(w, cfg, p, r)
            case Continue(next) => WithinBudget(cfg, next)
            case Finish(result, _) => ResultWithinBudget(cfg, result)
  {
    hide CallsIn, Executed, ToolUses, ResultBlocks, Add;
    OneMoreStep(p.steps, Step(|p.steps|, r, [], []));
    var calls := ToolUses(r.content);
    OneMoreStep(p.steps, Step(|p.steps|, r, calls, Executed(w, cfg, p.turnCount, calls)));
  }

  lemma TurnStaysWithinBudget(w: World, cfg: Config, p: Progress)
    requires WithinBudget(cfg, p)
    ensures match TakeTurn(w, cfg, p)
            case Continue(next) => WithinBudget(cfg, next)
            case Finish(result, _) => ResultWithinBudget(cfg, result)
  {
    hide CallsIn, Respond, Exhausted;
    if p.turnCount < w.horizon && Exhausted(cfg, p) == None {
      match w.reply(p.turnCount, cfg.buildTurnMessages(p.turnCount, p.history))
      case CallFailed(_) =>
      case Answer(r) => RespondStaysWithinBudget(w, cfg, p, r);
    }
  }

  /** The number of calls of the model that a run makes. */
  function ModelCalls(w: World, cfg: Config, p: Progress): nat
    decreases w.horizon - p.turnCount
  {
    if p.turnCount >= w.horizon || Exhausted(cfg, p).Some? then 0
    else
      match TakeTurn(w, cfg, p)
      case Finish(_, _) => 1
      case Continue(next) => 1 + ModelCalls(w, cfg, next)
  }

  lemma {:induction false} RunStaysWithinBudget(w: World, cfg: Config, p: Progress)
    requires WithinBudget(cfg, p)
    ensures var (result, err) := Run(w, cfg, p);
            && ResultWithinBudget(cfg, result)
            && p.turnCount + ModelCalls(w, cfg, p) <= result.turnCount + (if err.None? then 0 else 1)
            && (cfg.maxTurns > 0 ==> p.turnCount + ModelCalls(w, cfg, p) <= cfg.maxTurns)
            && (cfg.maxToolCalls > 0 ==> p.turnCount + ModelCalls(w, cfg, p) <= cfg.maxToolCalls + 1)
    decreases w.horizon - p.turnCount
  {
    hide CallsIn, Respond;
    TurnStaysWithinBudget(w, cfg, p);
    match TakeTurn(w, cfg, p)
    case Finish(result, err) =>
      FinishingTurn(w, cfg, p);
    case Continue(next) =>
      ContinuingTurn(w, cfg, p);
      RunStaysWithinBudget(w, cfg, next);
  }

  lemma FinishingTurn(w: World, cfg: Config, p: Progress)
    requires TakeTurn(w, cfg, p).Finish?
    ensures var t := TakeTurn(w, cfg, p);
            p.turnCount + ModelCalls(w, cfg, p) <= t.result.turnCount + (if t.err.None? then 0 else 1)
  {
  }

  lemma ContinuingTurn(w: World, cfg: Config, p: Progress)
    requires TakeTurn(w, cfg, p).Continue?
    ensures p.turnCount < w.horizon && Exhausted(cfg, p).None?
    ensures TakeTurn(w, cfg, p).next.turnCount == p.turnCount + 1
  {
  }

  /** Budgets: a run ends with as many turns as steps, numbered 0, 1, 2 and so on;
      its tool-call count is the sum over the steps and within its limit; and it
      calls the model at most `maxTurns` and at most `maxToolCalls` + 1 times. */
  lemma {:induction false} RunsStayWithinBudget(w: World, cfg: Config, initial: Messages)
    ensures var (result, err) := Run(w, cfg, Start(initial));
            && ResultWithinBudget(cfg, result)
            && ModelCalls(w, cfg, Start(initial)) <= result.turnCount + (if err.None? then 0 else 1)
            && (cfg.maxTurns > 0 ==> ModelCalls(w, cfg, Start(initial)) <= cfg.maxTurns)
            && (cfg.maxToolCalls > 0 ==> ModelCalls(w, cfg, Start(initial)) <= cfg.maxToolCalls + 1)
  {
    RunStaysWithinBudget(w, cfg, Start(initial));
  }

  // ---------- tool pairing ----------

  /** The messages a step adds: its response, and behind it the results of its
      tool calls if it has any. */
  function StepMessages(s: Step): Messages {
    [Message(Assistant, s.response.content)]
    + if s.toolCalls == [] then [] else [Message(User, ResultBlocks(s.toolResults))]
  }

  function Transcript(steps: seq<Step>): Messages {
    if steps == [] then [] else var n := |steps| - 1; Transcript(steps[..n]) + StepMessages(steps[n])
  }

  /** A step that calls tools: all of its response's, each with its own result, in
      the response's order. */
  predicate Paired(s: Step) {
    && s.toolCalls == ToolUses(s.response.content) && s.toolCalls != []
    && |s.toolResults| == |s.toolCalls|
    && forall k :: 0 <= k < |s.toolCalls| ==> s.toolResults[k].id == s.toolCalls[k].id
  }

  predicate AllPaired(steps: seq<Step>) {
    forall k :: 0 <= k < |steps| ==> Paired(steps[k])
  }

  predicate PairedSoFar(initial: Messages, p: Progress) {
    p.history == initial + Transcript(p.steps) && AllPaired(p.steps)
  }

  lemma OneMoreTranscript(steps: seq<Step>, s: Step)
    ensures Transcript(steps + [s]) == Transcript(steps) + StepMessages(s)
  {
    assert (steps + [s])[..|steps|] == steps;
  }

  /** Every step but the last has its tool results, and the last either as well
      or is a plain response. */
  predicate StepsPaired(r: RunResult) {
    AllPaired(r.steps)
    || (r.steps != [] && AllPaired(r.steps[..|r.steps| - 1])
        && var last := r.steps[|r.steps| - 1]; last.toolCalls == [] && r.response == Some(last.response))
  }

  /** The history of a result is its steps in order. */
  predicate ResultPaired(initial: Messages, r: RunResult) {
    r.messages == initial + Transcript(r.steps) && StepsPaired(r)
  }

  lemma RespondingPairs(initial: Messages, w: World, cfg: Config, p: Progress, r: Response)
    requires PairedSoFar(initial, p)
    ensures match Respond(w, cfg, p, r)
            case Continue(next) => PairedSoFar(initial, next)
            case Finish(result, _) => ResultPaired(initial, result)
  {
    hide Transcript, ToolUses, Add, Paired, ResultBlocks;
    var calls := ToolUses(r.content);
    var results := Executed(w, cfg, p.turnCount, calls);
    var last, step := Step(|p.steps|, r, [], []), Step(|p.steps|, r, calls, results);
    OneMoreTranscript(p.steps, last);
    OneMoreTranscript(p.steps, step);
    match Respond(w, cfg, p, r)
    case Finish(result, _) =>
      assert result.steps[..|result.steps| - 1] == p.steps;
      assert StepMessages(last) == [Message(Assistant, r.content)];
      assert initial + (Transcript(p.steps) + StepMessages(last)) ==
             initial + Transcript(p.steps) + [Message(Assistant, r.content)];
    case Continue(next) =>
      assert calls != [] by { NonTerminalHasCalls(cfg, Counted(p, r), r); }
      StepIsPaired(w, cfg, p.turnCount, step);
      var both := [Message(Assistant, r.content), Message(User, ResultBlocks(results))];
      assert StepMessages(step) == both;
      assert initial + (Transcript(p.steps) + both) == initial + Transcript(p.steps) + both;
  }

  lemma NonTerminalHasCalls(cfg: Config, p: Progress, r: Response)
    requires Terminal(cfg, p, r) == None
    ensures ToolUses(r.content) != []
  {
  }

  lemma StepIsPaired(w: World, cfg: Config, turn: nat, s: Step)
    requires s.toolCalls == ToolUses(s.response.content) && s.toolCalls != []
    requires s.toolResults == Executed(w, cfg, turn, s.toolCalls)
    ensures Paired(s)
  {
    hide ToolUses;
  }

  lemma {:induction false} RunPairs(initial: Messages, w: World, cfg: Config, p: Progress)
    requires PairedSoFar(initial, p)
    ensures ResultPaired(initial, Run(w, cfg, p).0)
    decreases w.horizon - p.turnCount
  {
    hide Respond, AllPaired, Transcript;
    match TakeTurn(w, cfg, p)
    case Finish(_, _) =>
      var reply := w.reply(p.turnCount, cfg.buildTurnMessages(p.turnCount, p.history));
      if reply.Answer? {
        RespondingPairs(initial, w, cfg, p, reply.response);
      }
    case Continue(next) =>
      ContinuingTurn(w, cfg, p);
      RespondingPairs(initial, w, cfg, p, w.reply(p.turnCount, cfg.buildTurnMessages(p.turnCount, p.history)).response);
      RunPairs(initial, w, cfg, next);
  }

  /** Tool pairing: the history of a run is its initial messages and then, step by
      step, each response immediately followed by the results of exactly its tool
      calls, in order; only the last step may be a response alone. */
  lemma {:induction false} ToolResultsFollowTheirCalls(w: World, cfg: Config, initial: Messages)
    ensures ResultPaired(initial, Run(w, cfg, Start(initial)).0)
  {
    assert initial + Transcript([]) == initial;
    RunPairs(initial, w, cfg, Start(initial));
  }
}
