/** What the messages of a run say: who answers whom, with what, and what it
    costs.  Nothing here is stated through the functions that the loops use. */
module RunAnswers {
  import opened GoStrings
  import opened StreamTypes
  import opened RunTypes
  import opened RunLoop
  import opened RunStream
  import opened RunProperties
  import opened InterruptedRuns

  // ---------- the calls of a response ----------

  /** The positions of all tool-use blocks, in order. */
  ghost predicate Picks(content: seq<Block>, positions: seq<nat>) {
    && (forall k :: 0 <= k < |positions| ==> positions[k] < |content| && content[positions[k]].ToolUse?)
    && (forall j, k :: 0 <= j < k < |positions| ==> positions[j] < positions[k])
    && (forall i :: 0 <= i < |content| && content[i].ToolUse? ==> i in positions)
  }

  /** The calls are the tool-use blocks, one by one. */
  predicate Reads(content: seq<Block>, positions: seq<nat>, calls: seq<ToolCall>) {
    && |calls| == |positions|
    && forall k :: 0 <= k < |calls| ==>
         && positions[k] < |content| && content[positions[k]].ToolUse?
         && calls[k].id == content[positions[k]].id
         && calls[k].name == content[positions[k]].name
         && calls[k].input == content[positions[k]].input
  }

  lemma {:induction false} CallsOf(content: seq<Block>) returns (positions: seq<nat>)
    ensures Picks(content, positions) && Reads(content, positions, ToolUses(content))
    decreases |content|
  {
    if content == [] {
      return [];
    }
    var n := |content| - 1;
    var before := CallsOf(content[..n]);
    positions := before + if content[n].ToolUse? then [n] else [];
    PicksOneMore(content, before, positions);
    assert forall k :: 0 <= k < |before| ==> content[..n][before[k]] == content[before[k]];
  }

  lemma PicksOneMore(content: seq<Block>, before: seq<nat>, positions: seq<nat>)
    requires content != [] && Picks(content[..|content| - 1], before)
    requires positions == before + if content[|content| - 1].ToolUse? then [|content| - 1] else []
    ensures Picks(content, positions)
  {
    var n := |content| - 1;
    assert forall k :: 0 <= k < |before| ==> content[..n][before[k]] == content[before[k]];
    forall i | 0 <= i < |content| && content[i].ToolUse?
      ensures i in positions
    {
      if i < n {
        assert content[..n][i] == content[i];
        assert i in before;
      } else {
        assert positions[|before|] == n;
      }
    }
  }

  // ---------- the answer to a call ----------

  /** The result block that answers a tool-use block: it carries the id of the
      call, and the output of the handler registered under the tool's name, its
      error, or the notice that there is none. */
  predicate Answers(w: World, cfg: Config, turn: nat, k: nat, call: Block, answer: Block)
    requires call.ToolUse?
  {
    answer ==
    if call.name !in cfg.handlers then
      ToolResult(call.id, Ascii("Tool '") + call.name + Ascii("' was called but no handler is registered."), false)
    else
      match w.handle(turn, k, ToolCall(id := call.id, name := call.name, input := call.input))
      case Output(content) => ToolResult(call.id, content, false)
      case HandlerError(text) => ToolResult(call.id, Ascii("Error executing tool: ") + text, true)
  }

  ghost predicate AnswersAll(w: World, cfg: Config, turn: nat, content: seq<Block>, results: seq<Block>) {
    exists positions ::
      && Picks(content, positions) && |results| == |positions|
      && forall k :: 0 <= k < |results| ==>
           positions[k] < |content| && content[positions[k]].ToolUse?
           && Answers(w, cfg, turn, k, content[positions[k]], results[k])
  }

  /** A step's calls are the tool-use blocks of its response, and its result
      message answers each of them. */
  ghost predicate StepAnswered(w: World, cfg: Config, turn: nat, s: Step) {
    s.toolCalls != [] ==>
      && (exists positions :: Picks(s.response.content, positions) && Reads(s.response.content, positions, s.toolCalls))
      && AnswersAll(w, cfg, turn, s.response.content, ResultBlocks(s.toolResults))
  }

  lemma CallIsAnswered(w: World, cfg: Config, turn: nat, k: nat, b: Block, call: ToolCall)
    requires b.ToolUse? && call.id == b.id && call.name == b.name && call.input == b.input
    ensures Answers(w, cfg, turn, k, b, ResultBlock(ExecuteToolCall(w, cfg, turn, k, call)))
  {
    hide Ascii;
  }

  /** What a turn does for a step with tool calls. */
  predicate Performed(w: World, cfg: Config, turn: nat, s: Step) {
    s.toolCalls != [] ==>
      s.toolCalls == ToolUses(s.response.content) && s.toolResults == Executed(w, cfg, turn, s.toolCalls)
  }

  predicate AllPerformed(w: World, cfg: Config, steps: seq<Step>) {
    forall k :: 0 <= k < |steps| ==> Performed(w, cfg, k, steps[k])
  }

  lemma PerformedIsAnswered(w: World, cfg: Config, turn: nat, s: Step)
    requires Performed(w, cfg, turn, s)
    ensures StepAnswered(w, cfg, turn, s)
  {
    hide ToolUses, ExecuteToolCall, Answers, Picks;
    if s.toolCalls != [] {
      var content, results := s.response.content, ResultBlocks(s.toolResults);
      var positions := CallsOf(content);
      forall k | 0 <= k < |results|
        ensures positions[k] < |content| && content[positions[k]].ToolUse?
        ensures Answers(w, cfg, turn, k, content[positions[k]], results[k])
      {
        CallIsAnswered(w, cfg, turn, k, content[positions[k]], s.toolCalls[k]);
      }
    }
  }

  lemma RespondPerforms(w: World, cfg: Config, p: Progress, r: Response)
    requires p.turnCount == |p.steps| && AllPerformed(w, cfg, p.steps)
    ensures match Respond(w, cfg, p, r)
            case Continue(next) => next.turnCount == |next.steps| && AllPerformed(w, cfg, next.steps)
            case Finish(result, _) => AllPerformed(w, cfg, result.steps)
  {
    hide ToolUses, Executed, ResultBlocks, Add;
  }

  lemma {:induction false} RunPerforms(w: World, cfg: Config, p: Progress)
    requires p.turnCount == |p.steps| && AllPerformed(w, cfg, p.steps)
    ensures AllPerformed(w, cfg, Run(w, cfg, p).0.steps)
    decreases w.horizon - p.turnCount
  {
    hide Respond, AllPerformed;
    if p.turnCount < w.horizon && Exhausted(cfg, p) == None {
      var reply := w.reply(p.turnCount, cfg.buildTurnMessages(p.turnCount, p.history));
      if reply.Answer? {
        RespondPerforms(w, cfg, p, reply.response);
        if TakeTurn(w, cfg, p).Continue? {
          ContinuingTurn(w, cfg, p);
          RunPerforms(w, cfg, TakeTurn(w, cfg, p).next);
        }
      }
    }
  }

  /** Every call is answered: the history of a blocking run is its initial messages
      and then, step by step, the response and a message with one result block for
      each of its tool-use blocks, in their order, under their ids, with the output
      of the handler registered under their names. */
  lemma {:induction false} EveryCallIsAnswered(w: World, cfg: Config, initial: Messages)
    ensures var r := Run(w, cfg, Start(initial)).0;
            && r.messages == initial + Transcript(r.steps)
            && forall k :: 0 <= k < |r.steps| ==> StepAnswered(w, cfg, k, r.steps[k])
  {
    hide Run, Performed, StepAnswered, Transcript;
    ToolResultsFollowTheirCalls(w, cfg, initial);
    RunPerforms(w, cfg, Start(initial));
    var steps := Run(w, cfg, Start(initial)).0.steps;
    forall k | 0 <= k < |steps|
      ensures StepAnswered(w, cfg, k, steps[k])
    {
      PerformedIsAnswered(w, cfg, k, steps[k]);
    }
  }

  lemma {:induction false} StreamRunPerforms(w: StreamWorld, cfg: Config, p: StreamProgress)
    requires p.c.turnCount == |p.c.steps| == p.c.stepIndex && AllPerformed(w.world, cfg, p.c.steps)
    ensures AllPerformed(w.world, cfg, RunStreaming(w, cfg, p).result.steps)
    decreases w.world.horizon - p.c.turnCount
  {
    hide AllPerformed, StreamRespond, Respond, Read, Exhausted;
    UnfoldRun(w, cfg, p);
    if p.c.turnCount < w.world.horizon && Exhausted(cfg, p.Blocking()) == None {
      match w.script(p.c.turnCount, cfg.buildTurnMessages(p.c.turnCount, p.log.messages))
      case OpenFailed(_) =>
      case Opened(items, end) =>
        var log := Read(p.log.Send(StepStart(p.c.stepIndex)), [], items).log;
        if end.Complete? {
          RespondPerforms(w.world, cfg, p.(log := log).Blocking(), end.response);
          RespondingRefines(w.world, cfg, p.(log := log), end.response);
        }
        if TakeStreamTurn(w, cfg, p).StreamContinue? {
          TurnAdvances(w, cfg, p);
          StreamRunPerforms(w, cfg, TakeStreamTurn(w, cfg, p).next);
        }
    }
  }

  /** The same for every streaming run, whatever interrupts it: what interrupts
      inject stands in front of the responses, and every call is answered. */
  lemma {:induction false} EveryStreamedCallIsAnswered(w: StreamWorld, cfg: Config, initial: Messages)
    ensures var r := RunStreaming(w, cfg, StreamStart(initial)).result;
            && (exists said, delta :: ResultWoven(initial, said, delta, r))
            && forall k :: 0 <= k < |r.steps| ==> StepAnswered(w.world, cfg, k, r.steps[k])
  {
    hide RunStreaming, Performed, StepAnswered, ResultWoven;
    InterruptsKeepToolPairs(w, cfg, initial);
    StreamRunPerforms(w, cfg, StreamStart(initial));
    var steps := RunStreaming(w, cfg, StreamStart(initial)).result.steps;
    forall k | 0 <= k < |steps|
      ensures StepAnswered(w.world, cfg, k, steps[k])
    {
      PerformedIsAnswered(w.world, cfg, k, steps[k]);
    }
  }

  // ---------- what the model is asked ----------

  /** The k-th response is the model's answer to the messages built for turn k from
      the initial messages and everything the steps before it have added. */
  ghost predicate Asked(w: World, cfg: Config, initial: Messages, steps: seq<Step>) {
    forall k :: 0 <= k < |steps| ==>
      w.reply(k, cfg.buildTurnMessages(k, initial + Transcript(steps[..k]))) == Answer(steps[k].response)
  }

  lemma AskedOneMore(w: World, cfg: Config, initial: Messages, steps: seq<Step>, s: Step)
    requires Asked(w, cfg, initial, steps)
    requires w.reply(|steps|, cfg.buildTurnMessages(|steps|, initial + Transcript(steps))) == Answer(s.response)
    ensures Asked(w, cfg, initial, steps + [s])
  {
    hide Transcript;
    var more := steps + [s];
    forall k | 0 <= k < |more|
      ensures w.reply(k, cfg.buildTurnMessages(k, initial + Transcript(more[..k]))) == Answer(more[k].response)
    {
      assert more[..k] == steps[..k];
      assert k == |steps| ==> more[..k] == steps;
    }
  }

  lemma {:induction false} RunAsks(w: World, cfg: Config, initial: Messages, p: Progress)
    requires p.turnCount == |p.steps| && PairedSoFar(initial, p) && Asked(w, cfg, initial, p.steps)
    ensures Asked(w, cfg, initial, Run(w, cfg, p).0.steps)
    decreases w.horizon - p.turnCount
  {
    hide Respond, Asked, AllPaired, Transcript;
    if p.turnCount < w.horizon && Exhausted(cfg, p) == None {
      var reply := w.reply(p.turnCount, cfg.buildTurnMessages(p.turnCount, p.history));
      if reply.Answer? {
        RespondingPairs(initial, w, cfg, p, reply.response);
        var s := StepOf(w, cfg, p, reply.response);
        AskedOneMore(w, cfg, initial, p.steps, s);
        if TakeTurn(w, cfg, p).Continue? {
          ContinuingTurn(w, cfg, p);
          RunAsks(w, cfg, initial, TakeTurn(w, cfg, p).next);
        }
      }
    }
  }

  /** A turn adds one step with its response. */
  lemma StepOf(w: World, cfg: Config, p: Progress, r: Response) returns (s: Step)
    ensures s.response == r
    ensures match Respond(w, cfg, p, r)
            case Continue(next) => next.steps == p.steps + [s] && next.turnCount == p.turnCount + 1
                                   && next.usage == Add(p.usage, r.usage)
            case Finish(result, _) => result.steps == p.steps + [s] && result.usage == Add(p.usage, r.usage)
  {
    hide ToolUses, Executed, ResultBlocks, Add;
    match Respond(w, cfg, p, r)
    case Continue(next) => s := next.steps[|p.steps|];
    case Finish(result, _) => s := result.steps[|p.steps|];
  }

  /** Every response of a run answers exactly the history before it. */
  lemma {:induction false} EveryResponseAnswersTheHistory(w: World, cfg: Config, initial: Messages)
    ensures Asked(w, cfg, initial, Run(w, cfg, Start(initial)).0.steps)
  {
    assert initial + Transcript([]) == initial;
    hide Run;
    RunAsks(w, cfg, initial, Start(initial));
  }

  // ---------- what a run costs ----------

  function InputOf(steps: seq<Step>): int {
    if steps == [] then 0 else InputOf(steps[..|steps| - 1]) + steps[|steps| - 1].response.usage.input
  }

  function OutputOf(steps: seq<Step>): int {
    if steps == [] then 0 else OutputOf(steps[..|steps| - 1]) + steps[|steps| - 1].response.usage.output
  }

  /** The totals that responses report; one that reports none has its tokens
      counted. */
  function TotalOf(steps: seq<Step>): int {
    if steps == [] then 0
    else
      var u := steps[|steps| - 1].response.usage;
      TotalOf(steps[..|steps| - 1]) + if u.total != 0 then u.total else u.input + u.output
  }

  predicate Spent(steps: seq<Step>, usage: Usage) {
    && usage.input == InputOf(steps) && usage.output == OutputOf(steps) && usage.total == TotalOf(steps)
    && usage.input >= 0 && usage.output >= 0 && usage.total >= 0
    && (usage.total == 0 ==> usage.input == 0 == usage.output)
  }

  predicate NoNegativeUsage(steps: seq<Step>) {
    forall k :: 0 <= k < |steps| ==>
      var u := steps[k].response.usage; u.input >= 0 && u.output >= 0 && u.total >= 0
  }

  lemma SpentOneMore(steps: seq<Step>, s: Step, usage: Usage)
    requires NoNegativeUsage(steps + [s]) && Spent(steps, usage)
    ensures Spent(steps + [s], Add(usage, s.response.usage))
  {
    var more := steps + [s];
    assert more[..|steps|] == steps && more[|steps|] == s;
  }

  lemma {:induction false} RunSpends(w: World, cfg: Config, p: Progress)
    requires NoNegativeUsage(Run(w, cfg, p).0.steps) && (NoNegativeUsage(p.steps) ==> Spent(p.steps, p.usage))
    ensures p.steps <= Run(w, cfg, p).0.steps
    ensures Spent(Run(w, cfg, p).0.steps, Run(w, cfg, p).0.usage)
    decreases w.horizon - p.turnCount
  {
    hide Respond, Spent, NoNegativeUsage, Add;
    RunKeepsSteps(w, cfg, p);
    NonNegativeBefore(p.steps, Run(w, cfg, p).0.steps);
    if p.turnCount < w.horizon && Exhausted(cfg, p) == None {
      var reply := w.reply(p.turnCount, cfg.buildTurnMessages(p.turnCount, p.history));
      if reply.Answer? {
        var s := StepOf(w, cfg, p, reply.response);
        if TakeTurn(w, cfg, p).Continue? {
          ContinuingTurn(w, cfg, p);
          RunKeepsSteps(w, cfg, TakeTurn(w, cfg, p).next);
          NonNegativeBefore(p.steps + [s], Run(w, cfg, p).0.steps);
          SpentOneMore(p.steps, s, p.usage);
          RunSpends(w, cfg, TakeTurn(w, cfg, p).next);
        } else {
          SpentOneMore(p.steps, s, p.usage);
        }
      }
    }
  }

  lemma NonNegativeBefore(steps: seq<Step>, more: seq<Step>)
    requires steps <= more && NoNegativeUsage(more)
    ensures NoNegativeUsage(steps)
  {
    assert forall k :: 0 <= k < |steps| ==> steps[k] == more[k];
  }

  lemma {:induction false} RunKeepsSteps(w: World, cfg: Config, p: Progress)
    ensures p.steps <= Run(w, cfg, p).0.steps
    decreases w.horizon - p.turnCount
  {
    hide Respond;
    if p.turnCount < w.horizon && Exhausted(cfg, p) == None {
      var reply := w.reply(p.turnCount, cfg.buildTurnMessages(p.turnCount, p.history));
      if reply.Answer? {
        var s := StepOf(w, cfg, p, reply.response);
        if TakeTurn(w, cfg, p).Continue? {
          ContinuingTurn(w, cfg, p);
          RunKeepsSteps(w, cfg, TakeTurn(w, cfg, p).next);
        }
      }
    }
  }

  /** The usage of a run is the sum over its steps, for responses that report no
      negative counts. */
  lemma {:induction false} UsageIsTheSum(w: World, cfg: Config, initial: Messages)
    requires NoNegativeUsage(Run(w, cfg, Start(initial)).0.steps)
    ensures var r := Run(w, cfg, Start(initial)).0;
            && r.usage.input == InputOf(r.steps) && r.usage.output == OutputOf(r.steps)
            && r.usage.total == TotalOf(r.steps)
  {
    hide Run;
    RunSpends(w, cfg, Start(initial));
  }

  // ---------- why a run ends ----------

  /** Why a blocking run ended, told from its result and from what is left of its
      limits. */
  ghost predicate StopExplained(w: World, cfg: Config, r: RunResult, err: Option<CallError>) {
    match r.stopReason
    case StopMaxTurns =>
      err == None && r.response == None && cfg.maxTurns > 0 && r.turnCount >= cfg.maxTurns
    case StopMaxTokens =>
      err == None && r.response == None && cfg.maxTokens > 0 && r.usage.total >= cfg.maxTokens
      && !(cfg.maxTurns > 0 && r.turnCount >= cfg.maxTurns)
    case StopCustom =>
      err == None && r.response.Some? && cfg.stopWhen(r.response.value)
    case StopEndTurn =>
      err == None && r.response.Some? && !cfg.stopWhen(r.response.value)
      && (r.response.value.stopReason == ToolUseStop ==> forall b :: b in r.response.value.content ==> !b.ToolUse?)
    case StopMaxToolCalls =>
      err == None && r.response.Some? && !cfg.stopWhen(r.response.value) && cfg.maxToolCalls > 0
      && r.response.value.stopReason == ToolUseStop
      && exists positions ::
           Picks(r.response.value.content, positions) && r.toolCallCount + |positions| > cfg.maxToolCalls
    case StopCancelled => err == Some(Canceled) && r.response == None
    case StopTimeout => err == Some(DeadlineExceeded) && r.response == None
    case StopError => err.Some? && err.value.OtherError? && r.response == None
  }

  lemma TurnExplained(w: World, cfg: Config, p: Progress)
    requires TakeTurn(w, cfg, p).Finish?
    ensures var t := TakeTurn(w, cfg, p); StopExplained(w, cfg, t.result, t.err)
  {
    hide Executed, ResultBlocks, Add, Picks, ToolUses;
    if p.turnCount < w.horizon && Exhausted(cfg, p) == None {
      var reply := w.reply(p.turnCount, cfg.buildTurnMessages(p.turnCount, p.history));
      if reply.Answer? {
        var positions := CallsOf(reply.response.content);
        if positions == [] {
          NoCalls(reply.response.content);
        }
      }
    }
  }

  lemma NoCalls(content: seq<Block>)
    requires Picks(content, [])
    ensures forall b :: b in content ==> !b.ToolUse?
  {
    forall b | b in content
      ensures !b.ToolUse?
    {
      var i :| 0 <= i < |content| && content[i] == b;
    }
  }

  /** The stop reason of every blocking run is the true one: where two limits are
      reached the turn limit is named, and a cancelled context, an expired one and
      another error are told apart. */
  lemma {:induction false} StopReasonIsTrue(w: World, cfg: Config, p: Progress)
    ensures var (r, err) := Run(w, cfg, p); StopExplained(w, cfg, r, err)
    decreases w.horizon - p.turnCount
  {
    hide StopExplained, Respond, Exhausted;
    match TakeTurn(w, cfg, p)
    case Finish(_, _) => TurnExplained(w, cfg, p);
    case Continue(next) =>
      ContinuingTurn(w, cfg, p);
      StopReasonIsTrue(w, cfg, next);
  }

  // ---------- what the stream tells ----------

  /** What an interrupt leaves in the history, spelled out. */
  lemma InterruptLeaves(partial: Bytes, message: Message)
    ensures InterruptDelta(partial, message, Discard) == [message]
    ensures partial == [] ==> InterruptDelta(partial, message, SavePartial) == [message]
    ensures partial == [] ==> InterruptDelta(partial, message, SaveMarked) == [message]
    ensures partial != [] ==>
              InterruptDelta(partial, message, SavePartial) == [Message(Assistant, [Text(partial)]), message]
    ensures partial != [] ==>
              InterruptDelta(partial, message, SaveMarked) ==
              [Message(Assistant, [Text(partial + Ascii(" [interrupted]"))]), message]
  {
  }

  /** Tools are announced one after the other, each call right before its result. */
  lemma {:induction false} ToolEventsInOrder(
    log: Log, calls: seq<ToolCall>, results: seq<ToolExecutionResult>, k: nat)
    requires |calls| == |results| && k < |calls|
    ensures var before, sent := |log.sent|, SendTools(log, calls, results).sent;
            && |sent| == before + 2 * |calls| && log.sent <= sent
            && sent[before + 2 * k] == ToolCallStart(calls[k])
            && sent[before + 2 * k + 1] ==
               ToolResultEvent(calls[k].id, calls[k].name, results[k].content, results[k].error)
    decreases |calls|
  {
    var n := |calls| - 1;
    if n == 0 {
      assert calls[..n] == [] && results[..n] == [];
      SendNoTools(log);
    } else {
      ToolEventsInOrder(log, calls[..n], results[..n], if k < n then k else 0);
    }
  }

  function DecimalValue(digits: Bytes): int {
    if digits == [] then 0 else DecimalValue(digits[..|digits| - 1]) * 10 + (digits[|digits| - 1] as int - 48)
  }

  /** The number of results is announced in decimal digits. */
  lemma {:induction false} DecimalMeans(n: nat)
    ensures DecimalValue(Decimal(n)) == n && forall k :: 0 <= k < |Decimal(n)| ==> 48 <= Decimal(n)[k] <= 57
    decreases n
  {
    if n >= 10 {
      DecimalMeans(n / 10);
      var before := Decimal(n / 10);
      assert Decimal(n)[..|before|] == before;
    } else {
      var digit: Byte := 48 + n;
      assert [digit][..0] == [];
      assert DecimalValue([]) == 0;
    }
  }
}
