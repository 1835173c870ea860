/** Budgets and tool pairing of the streaming loop in every run, with interrupts,
    cancellations and broken streams at any moment. */
module InterruptedRuns {
  import opened GoStrings
  import opened StreamTypes
  import opened RunTypes
  import opened RunLoop
  import opened RunStream
  import opened RunProperties

  // ---------- budgets ----------

  predicate StreamWithinBudget(cfg: Config, p: StreamProgress) {
    WithinBudget(cfg, p.Blocking()) && p.c.stepIndex == |p.c.steps|
  }

  lemma HistoryCostsNothing(cfg: Config, p: StreamProgress, log: Log)
    ensures var q := p.(log := log);
            Exhausted(cfg, q.Blocking()) == Exhausted(cfg, p.Blocking())
            && (StreamWithinBudget(cfg, p) ==> StreamWithinBudget(cfg, q))
  {
  }

  lemma StreamTurnStaysWithinBudget(w: StreamWorld, cfg: Config, p: StreamProgress)
    requires StreamWithinBudget(cfg, p)
    ensures match TakeStreamTurn(w, cfg, p)
            case StreamContinue(next) => StreamWithinBudget(cfg, next)
            case StreamFinish(_, result, _) => ResultWithinBudget(cfg, result)
  {
    hide CallsIn, StreamRespond, Respond, Exhausted, Read;
    if p.c.turnCount < w.world.horizon && Exhausted(cfg, p.Blocking()) == None {
      match w.script(p.c.turnCount, cfg.buildTurnMessages(p.c.turnCount, p.log.messages))
      case OpenFailed(_) =>
      case Opened(items, end) =>
        var log := Read(p.log.Send(StepStart(p.c.stepIndex)), [], items).log;
        HistoryCostsNothing(cfg, p, log);
        if end.Complete? {
          var q := p.(log := log);
          RespondStaysWithinBudget(w.world, cfg, q.Blocking(), end.response);
          RespondingRefines(w.world, cfg, q, end.response);
        }
    }
  }

  /** The number of streams that a run opens, or tries to. */
  function StreamCalls(w: StreamWorld, cfg: Config, p: StreamProgress): nat
    decreases w.world.horizon - p.c.turnCount
  {
    if p.c.turnCount >= w.world.horizon || Exhausted(cfg, p.Blocking()).Some? then 0
    else
      match TakeStreamTurn(w, cfg, p)
      case StreamFinish(_, _, _) => 1
      case StreamContinue(next) => TurnAdvances(w, cfg, p); 1 + StreamCalls(w, cfg, next)
  }

  lemma {:induction false} StreamStaysWithinBudget(w: StreamWorld, cfg: Config, p: StreamProgress)
    requires StreamWithinBudget(cfg, p)
    ensures ResultWithinBudget(cfg, RunStreaming(w, cfg, p).result)
    ensures cfg.maxTurns > 0 ==> p.c.turnCount + StreamCalls(w, cfg, p) <= cfg.maxTurns
    ensures cfg.maxToolCalls > 0 ==> p.c.turnCount + StreamCalls(w, cfg, p) <= cfg.maxToolCalls + 1
    decreases w.world.horizon - p.c.turnCount
  {
    hide CallsIn, TakeStreamTurn;
    StreamTurnStaysWithinBudget(w, cfg, p);
    match TakeStreamTurn(w, cfg, p)
    case StreamFinish(_, _, _) =>
    case StreamContinue(next) =>
      TurnAdvances(w, cfg, p);
      StreamStaysWithinBudget(w, cfg, next);
  }

  /** Budgets of the streaming loop: whatever interrupts it, it ends with as many
      turns as numbered steps, a tool-call count that is the sum over the steps and
      within its limit, and at most `maxTurns` and `maxToolCalls` + 1 streams. */
  lemma {:induction false} InterruptedRunsStayWithinBudget(w: StreamWorld, cfg: Config, initial: Messages)
    ensures ResultWithinBudget(cfg, RunStreaming(w, cfg, StreamStart(initial)).result)
    ensures cfg.maxTurns > 0 ==> StreamCalls(w, cfg, StreamStart(initial)) <= cfg.maxTurns
    ensures cfg.maxToolCalls > 0 ==> StreamCalls(w, cfg, StreamStart(initial)) <= cfg.maxToolCalls + 1
  {
    StreamStaysWithinBudget(w, cfg, StreamStart(initial));
  }

  // ---------- the turn behind an interrupt ----------

  /** The limits allow another turn behind one whose response is `r`. */
  predicate RoomForATurn(w: World, cfg: Config, c: Counters, r: Response) {
    && c.turnCount + 1 < w.horizon
    && !(cfg.maxTurns > 0 && c.turnCount + 1 >= cfg.maxTurns)
    && !(cfg.maxTokens > 0 && Add(c.usage, r.usage).total >= cfg.maxTokens)
  }

  lemma CountersBehind(w: World, cfg: Config, p: StreamProgress, r: Response)
    ensures var t := StreamRespond(w, cfg, p, r);
            t.StreamContinue? ==>
              t.next.c.turnCount == p.c.turnCount + 1 && t.next.c.usage == Add(p.c.usage, r.usage)
  {
    hide Executed, ToolUses, ResultBlocks, Add, SendTools;
  }

  /** The conversation continues behind an interrupt, in that the next turn opens
      its stream, if and only if the interrupted turn's stream is not broken, its
      response asks for tools within the limit, and the context, the turn limit and
      the token limit leave room for another turn. */
  lemma {:induction false} InterruptedRunContinuesIff(
    w: StreamWorld, cfg: Config, p: StreamProgress,
    events: seq<Item>, message: Message, behavior: InterruptBehavior, rest: seq<Item>, end: StreamEnd)
    requires InterruptedTurn(w, cfg, p, events, message, behavior, rest, end)
    ensures StreamCalls(w, cfg, p) >= 2 <==>
              && end.Complete? && AsksForTools(cfg, p.c.toolCallCount, end.response)
              && RoomForATurn(w.world, cfg, p.c, end.response)
  {
    hide Read, StreamRespond, InterruptDelta, ReceivedText, AsksForTools, Add;
    InterruptedTurnContinuesIff(w, cfg, p, events, message, behavior, rest, end);
    var started := p.log.Send(StepStart(p.c.stepIndex));
    ReadUntilInterrupt(started, [], events, message, behavior, rest);
    if end.Complete? {
      var log := Read(started, [], events + [Interrupt(message, behavior)] + rest).log;
      CountersBehind(w.world, cfg, p.(log := log), end.response);
    }
    if TakeStreamTurn(w, cfg, p).StreamContinue? {
      TurnAdvances(w, cfg, p);
      FirstCall(w, cfg, TakeStreamTurn(w, cfg, p).next);
    }
  }

  lemma FirstCall(w: StreamWorld, cfg: Config, p: StreamProgress)
    ensures StreamCalls(w, cfg, p) >= 1 <==> p.c.turnCount < w.world.horizon && Exhausted(cfg, p.Blocking()) == None
  {
    hide TakeStreamTurn, Exhausted;
  }

  // ---------- tool pairing ----------

  /** What a turn's interrupt put into the history, if there was one. */
  ghost predicate Interjected(delta: Messages) {
    delta == [] || exists text, message, behavior :: delta == InterruptDelta(text, message, behavior)
  }

  ghost predicate AllInterjected(said: seq<Messages>) {
    forall k :: 0 <= k < |said| ==> Interjected(said[k])
  }

  /** The messages of the steps, each behind what was said before it. */
  function Woven(said: seq<Messages>, steps: seq<Step>): Messages
    requires |said| == |steps|
  {
    if steps == [] then []
    else var n := |steps| - 1; Woven(said[..n], steps[..n]) + said[n] + StepMessages(steps[n])
  }

  lemma OneMoreWoven(said: seq<Messages>, steps: seq<Step>, delta: Messages, s: Step)
    requires |said| == |steps|
    ensures Woven(said + [delta], steps + [s]) == Woven(said, steps) + delta + StepMessages(s)
  {
    assert (said + [delta])[..|said|] == said && (steps + [s])[..|steps|] == steps;
  }

  lemma {:induction false} ReadingInterjects(log: Log, partial: Bytes, items: seq<Item>) returns (delta: Messages)
    ensures Interjected(delta) && Read(log, partial, items).log.messages == log.messages + delta
    decreases |items|
  {
    hide InterruptDelta, PartialText, Decimal;
    if items == [] {
      return [];
    }
    match items[0] {
      case Received(e) => delta := ReadingInterjects(Forward(log, e), PartialText(partial, e), items[1..]);
      case Interrupt(message, behavior) =>
        delta := InterruptDelta(partial, message, behavior);
      case Cancel => delta := [];
      case ContextDone(_) => delta := [];
    }
  }

  /** The history of a run under way: `said` was said in the finished turns,
      `delta` in the present one. */
  ghost predicate WovenSoFar(initial: Messages, said: seq<Messages>, delta: Messages, p: StreamProgress) {
    && |said| == |p.c.steps| && AllInterjected(said) && Interjected(delta) && AllPaired(p.c.steps)
    && p.log.messages == initial + Woven(said, p.c.steps) + delta
  }

  ghost predicate ResultWoven(initial: Messages, said: seq<Messages>, delta: Messages, r: RunResult) {
    && |said| == |r.steps| && AllInterjected(said) && Interjected(delta) && StepsPaired(r)
    && r.messages == initial + Woven(said, r.steps) + delta
  }

  lemma RespondingWeaves(
    initial: Messages, said: seq<Messages>, delta: Messages, w: World, cfg: Config, p: StreamProgress, r: Response)
    requires WovenSoFar(initial, said, delta, p) && p.c.stepIndex == |p.c.steps|
    ensures match StreamRespond(w, cfg, p, r)
            case StreamContinue(next) =>
              WovenSoFar(initial, said + [delta], [], next) && next.c.stepIndex == |next.c.steps|
            case StreamFinish(_, result, _) => ResultWoven(initial, said + [delta], [], result)
  {
    hide Woven, ToolUses, Add, Paired, ResultBlocks, Interjected, StreamRespond, Terminal;
    assert Interjected([]) by { NothingInterjected(); }
    var calls := ToolUses(r.content);
    var results := Executed(w, cfg, p.c.turnCount, calls);
    var last, step := Step(|p.c.steps|, r, [], []), Step(|p.c.steps|, r, calls, results);
    var before := initial + Woven(said, p.c.steps) + delta;
    RespondingRefines(w, cfg, p, r);
    match StreamRespond(w, cfg, p, r)
    case StreamFinish(_, result, _) =>
      OneMoreWoven(said, p.c.steps, delta, last);
      assert result.steps[..|result.steps| - 1] == p.c.steps;
      assert StepMessages(last) == [Message(Assistant, r.content)];
      assert initial + (Woven(said, p.c.steps) + delta + StepMessages(last)) + [] == before + StepMessages(last);
    case StreamContinue(next) =>
      OneMoreWoven(said, p.c.steps, delta, step);
      assert calls != [] by { NonTerminalHasCalls(cfg, Counted(p.Blocking(), r), r); }
      StepIsPaired(w, cfg, p.c.turnCount, step);
      assert StepMessages(step) == [Message(Assistant, r.content), Message(User, ResultBlocks(results))];
      assert initial + (Woven(said, p.c.steps) + delta + StepMessages(step)) + [] == before + StepMessages(step);
  }

  lemma NothingInterjected()
    ensures Interjected([])
  {
  }

  lemma StreamTurnWeaves(initial: Messages, said: seq<Messages>, w: StreamWorld, cfg: Config, p: StreamProgress)
    returns (said': seq<Messages>, delta: Messages)
    requires WovenSoFar(initial, said, [], p) && p.c.stepIndex == |p.c.steps|
    ensures match TakeStreamTurn(w, cfg, p)
            case StreamContinue(next) => WovenSoFar(initial, said', [], next) && next.c.stepIndex == |next.c.steps|
            case StreamFinish(_, result, _) => ResultWoven(initial, said', delta, result)
  {
    hide Woven, Read, StreamRespond, Exhausted, Interjected, AllPaired, AllInterjected;
    said', delta := said, [];
    if p.c.turnCount < w.world.horizon && Exhausted(cfg, p.Blocking()) == None {
      match w.script(p.c.turnCount, cfg.buildTurnMessages(p.c.turnCount, p.log.messages)) {
        case OpenFailed(_) =>
        case Opened(items, end) =>
          var started := p.log.Send(StepStart(p.c.stepIndex));
          delta := ReadingInterjects(started, [], items);
          var log := Read(started, [], items).log;
          assert log.messages == initial + Woven(said, p.c.steps) + delta;
          if Read(started, [], items).Drained? && end.Complete? {
            RespondingWeaves(initial, said, delta, w.world, cfg, p.(log := log), end.response);
            said', delta := said + [delta], [];
          }
      }
    }
  }

  lemma {:induction false} StreamRunWeaves(
    initial: Messages, said: seq<Messages>, w: StreamWorld, cfg: Config, p: StreamProgress)
    returns (said': seq<Messages>, delta: Messages)
    requires WovenSoFar(initial, said, [], p) && p.c.stepIndex == |p.c.steps|
    ensures ResultWoven(initial, said', delta, RunStreaming(w, cfg, p).result)
    decreases w.world.horizon - p.c.turnCount
  {
    hide WovenSoFar, ResultWoven, TakeStreamTurn;
    said', delta := StreamTurnWeaves(initial, said, w, cfg, p);
    if TakeStreamTurn(w, cfg, p).StreamContinue? {
      TurnAdvances(w, cfg, p);
      said', delta := StreamRunWeaves(initial, said', w, cfg, TakeStreamTurn(w, cfg, p).next);
    }
  }

  /** Tool pairing of the streaming loop: the history of every run is its initial
      messages and then each response immediately followed by the results of
      exactly its tool calls, in order.  What interrupts inject stands between
      these pairs, in front of the response it interrupted, and never inside one. */
  lemma {:induction false} InterruptsKeepToolPairs(w: StreamWorld, cfg: Config, initial: Messages)
    ensures exists said, delta :: ResultWoven(initial, said, delta, RunStreaming(w, cfg, StreamStart(initial)).result)
  {
    hide ResultWoven, RunStreaming;
    assert initial + Woven([], []) + [] == initial;
    NothingInterjected();
    var said, delta := StreamRunWeaves(initial, [], w, cfg, StreamStart(initial));
    assert ResultWoven(initial, said, delta, RunStreaming(w, cfg, StreamStart(initial)).result);
  }
}
