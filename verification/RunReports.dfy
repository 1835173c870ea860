/** What a streaming run tells its caller: the events of the model as they come,
    and where each step begins and ends. */
module RunReports {
  import opened GoStrings
  import opened StreamTypes
  import opened RunTypes
  import opened RunLoop
  import opened RunStream
  import opened RunProperties
  import opened RunAnswers

  // ---------- what was received ----------

  /** The pieces of text among what was received, in order. */
  function TextsOf(items: seq<Item>): seq<Bytes> {
    if items == [] then []
    else
      var n := |items| - 1;
      match items[n]
      case Received(BlockDelta(_, TextDelta(text))) => TextsOf(items[..n]) + [text]
      case _ => TextsOf(items[..n])
  }

  lemma {:induction false} ReceivedOneMore(partial: Bytes, items: seq<Item>, item: Item)
    requires OnlyEvents(items) && item.Received?
    ensures OnlyEvents(items + [item])
    ensures ReceivedText(partial, items + [item]) == PartialText(ReceivedText(partial, items), item.event)
    decreases |items|
  {
    hide PartialText;
    var more := items + [item];
    if items == [] {
      assert more == [item] && more[1..] == [];
    } else {
      assert more[0] == items[0] && more[1..] == items[1..] + [item];
      ReceivedOneMore(PartialText(partial, items[0].event), items[1..], item);
    }
  }

  /** What an interrupt finds as the partial answer is all text that was received,
      in the order in which it came. */
  lemma {:induction false} PartialIsWhatWasReceived(items: seq<Item>)
    requires OnlyEvents(items)
    ensures ReceivedText([], items) == Concat(TextsOf(items))
    decreases |items|
  {
    hide Concat;
    if items == [] {
      assert Concat([]) == [] by { NoText(); }
    } else {
      var n := |items| - 1;
      var before := items[..n];
      assert items == before + [items[n]];
      PartialIsWhatWasReceived(before);
      ReceivedOneMore([], before, items[n]);
      match items[n] {
        case Received(BlockDelta(_, TextDelta(text))) => ConcatOneMore(TextsOf(before), text);
        case _ =>
      }
    }
  }

  lemma NoText()
    ensures Concat([]) == []
  {
  }

  /** The events of the model among those sent. */
  function ModelEvents(sent: seq<RunEvent>): seq<Event> {
    if sent == [] then []
    else
      var n := |sent| - 1;
      ModelEvents(sent[..n]) + if sent[n].StreamEvent? then [sent[n].event] else []
  }

  lemma ModelEventsOneMore(sent: seq<RunEvent>, e: RunEvent)
    ensures ModelEvents(sent + [e]) == ModelEvents(sent) + if e.StreamEvent? then [e.event] else []
  {
    assert (sent + [e])[..|sent|] == sent;
  }

  /** The events that come before anything else does. */
  function FirstEvents(items: seq<Item>): seq<Event> {
    if items == [] || !items[0].Received? then [] else [items[0].event] + FirstEvents(items[1..])
  }

  function LogOf(reading: Reading): Log { reading.log }

  lemma ForwardSends(log: Log, e: Event)
    ensures ModelEvents(Forward(log, e).sent) == ModelEvents(log.sent) + [e]
  {
    hide ModelEvents;
    ModelEventsOneMore(log.sent, StreamEvent(e));
    var once := log.Send(StreamEvent(e)).sent;
    match e {
      case BlockStart(_, WebSearchResult(id, hits)) =>
        var report := Forward(log, e).sent[|once|];
        assert Forward(log, e).sent == once + [report];
        ModelEventsOneMore(once, report);
      case _ =>
    }
  }

  lemma InterruptSends(log: Log, delta: Messages, e: RunEvent)
    requires !e.StreamEvent?
    ensures ModelEvents(log.Append(delta).Send(e).sent) == ModelEvents(log.sent)
  {
    hide ModelEvents;
    var appended := log.Append(delta).sent;
    if delta != [] {
      ModelEventsOneMore(log.sent, HistoryDelta(|log.messages|, delta));
    }
    ModelEventsOneMore(appended, e);
    assert ModelEvents(log.sent) + [] == ModelEvents(log.sent);
  }

  /** The events of the model are passed on as they come, each once, up to the
      first interrupt, cancellation or end of the context. */
  lemma {:induction false} EventsArePassedOn(log: Log, partial: Bytes, items: seq<Item>)
    ensures ModelEvents(LogOf(Read(log, partial, items)).sent) == ModelEvents(log.sent) + FirstEvents(items)
    decreases |items|
  {
    hide ModelEvents, Forward, PartialText, InterruptDelta, Log.Append, Log.Send;
    if items != [] {
      match items[0] {
        case Received(e) =>
          ForwardSends(log, e);
          EventsArePassedOn(Forward(log, e), PartialText(partial, e), items[1..]);
          var before := ModelEvents(log.sent);
          assert before + [e] + FirstEvents(items[1..]) == before + ([e] + FirstEvents(items[1..]));
        case Interrupt(message, behavior) =>
          InterruptSends(log, InterruptDelta(partial, message, behavior), Interrupted(partial, behavior));
        case Cancel =>
          InterruptSends(log, [], Interrupted(partial, Discard));
          assert log.Append([]) == log by { NothingAppended(log); }
        case ContextDone(_) =>
      }
    }
  }

  lemma NothingAppended(log: Log)
    ensures log.Append([]) == log
  {
  }

  /** A web search result is reported as the result of a tool right behind it, with
      the number of hits in decimal digits, and nothing else is. */
  lemma WebSearchIsReported(log: Log, e: Event)
    ensures match e
            case BlockStart(_, WebSearchResult(id, hits)) =>
              exists digits, content ::
                && DecimalValue(digits) == hits
                && content == (if hits == 0 then [] else Ascii("Found ") + digits + Ascii(" results"))
                && Forward(log, e).sent ==
                   log.sent + [StreamEvent(e), ToolResultEvent(id, Ascii("web_search"), content, None)]
            case _ => Forward(log, e).sent == log.sent + [StreamEvent(e)]
  {
    match e {
      case BlockStart(_, WebSearchResult(id, hits)) =>
        DecimalMeans(hits);
        var content := if hits == 0 then [] else Ascii("Found ") + Decimal(hits) + Ascii(" results");
        hide DecimalValue, Decimal, Ascii;
        assert Forward(log, e).sent ==
               log.sent + [StreamEvent(e), ToolResultEvent(id, Ascii("web_search"), content, None)];
      case _ =>
    }
  }

  // ---------- where steps begin and end ----------

  predicate IsMilestone(e: RunEvent) { e.StepStart? || e.ToolCallStart? || e.StepComplete? || e.RunComplete? }

  function Milestones(sent: seq<RunEvent>): seq<RunEvent> {
    if sent == [] then []
    else
      var n := |sent| - 1;
      Milestones(sent[..n]) + if IsMilestone(sent[n]) then [sent[n]] else []
  }

  lemma SentOne(log: Log, e: RunEvent)
    ensures Milestones(log.Send(e).sent) == Milestones(log.sent) + if IsMilestone(e) then [e] else []
  {
    assert (log.sent + [e])[..|log.sent|] == log.sent;
  }

  lemma AppendIsNoMilestone(log: Log, delta: Messages)
    ensures Milestones(log.Append(delta).sent) == Milestones(log.sent)
  {
    if delta != [] {
      SentOne(log, HistoryDelta(|log.messages|, delta));
    }
  }

  lemma ForwardIsNoMilestone(log: Log, e: Event)
    ensures Milestones(Forward(log, e).sent) == Milestones(log.sent)
  {
    hide Milestones;
    var once := log.Send(StreamEvent(e));
    SentOne(log, StreamEvent(e));
    match e {
      case BlockStart(_, WebSearchResult(id, hits)) =>
        var report := Forward(log, e).sent[|once.sent|];
        assert Forward(log, e).sent == once.Send(report).sent;
        SentOne(once, report);
      case _ =>
    }
  }

  lemma {:induction false} ReadingHasNoMilestone(log: Log, partial: Bytes, items: seq<Item>)
    ensures Milestones(LogOf(Read(log, partial, items)).sent) == Milestones(log.sent)
    decreases |items|
  {
    hide Milestones, Forward, PartialText, InterruptDelta, Log.Append, Log.Send;
    if items != [] {
      match items[0] {
        case Received(e) =>
          ForwardIsNoMilestone(log, e);
          ReadingHasNoMilestone(Forward(log, e), PartialText(partial, e), items[1..]);
        case Interrupt(message, behavior) =>
          var delta := InterruptDelta(partial, message, behavior);
          AppendIsNoMilestone(log, delta);
          SentOne(log.Append(delta), Interrupted(partial, behavior));
        case Cancel => SentOne(log, Interrupted(partial, Discard));
        case ContextDone(_) =>
      }
    }
  }

  /** The calls of a step, each announced once, in order. */
  function Started(calls: seq<ToolCall>): seq<RunEvent> {
    if calls == [] then [] else Started(calls[..|calls| - 1]) + [ToolCallStart(calls[|calls| - 1])]
  }

  lemma {:induction false} ToolsAreStarted(log: Log, calls: seq<ToolCall>, results: seq<ToolExecutionResult>)
    requires |calls| == |results|
    ensures Milestones(SendTools(log, calls, results).sent) == Milestones(log.sent) + Started(calls)
    decreases |calls|
  {
    hide Milestones, Log.Send;
    if calls != [] {
      var n := |calls| - 1;
      var before := SendTools(log, calls[..n], results[..n]);
      var r := results[n];
      ToolsAreStarted(log, calls[..n], results[..n]);
      SentOne(before, ToolCallStart(calls[n]));
      SentOne(before.Send(ToolCallStart(calls[n])), ToolResultEvent(calls[n].id, calls[n].name, r.content, r.error));
      assert Milestones(log.sent) + Started(calls[..n]) + [ToolCallStart(calls[n])] ==
             Milestones(log.sent) + Started(calls);
    }
  }

  /** Each step is begun, its tools are called, and it is completed, with its number
      and its response. */
  function Told(steps: seq<Step>): seq<RunEvent> {
    if steps == [] then []
    else
      var n := |steps| - 1;
      Told(steps[..n]) + ([StepStart(n)] + Started(steps[n].toolCalls) + [StepComplete(n, steps[n].response)])
  }

  /** What is told at the end: a step that was begun and not completed, and the
      result unless the run failed. */
  predicate Closes(milestones: seq<RunEvent>, result: RunResult, err: Option<CallError>) {
    var told := Told(result.steps);
    var last := if err.None? then [RunComplete(result)] else [];
    || milestones == told + last
    || (milestones == told + [StepStart(|result.steps|)] + last && result.response == None)
  }

  lemma OneMoreTold(steps: seq<Step>, s: Step)
    ensures Told(steps + [s]) ==
            Told(steps) + ([StepStart(|steps|)] + Started(s.toolCalls) + [StepComplete(|steps|, s.response)])
  {
    assert (steps + [s])[..|steps|] == steps;
  }

  predicate Reported(p: StreamProgress) {
    p.c.stepIndex == |p.c.steps| && Milestones(p.log.sent) == Told(p.c.steps)
  }

  predicate Begun(p: StreamProgress) {
    p.c.stepIndex == |p.c.steps| && Milestones(p.log.sent) == Told(p.c.steps) + [StepStart(|p.c.steps|)]
  }

  lemma CompletedStep(p: StreamProgress, log: Log, delta: Messages, s: Step)
    requires Begun(p) && Milestones(log.sent) == Milestones(p.log.sent) + Started(s.toolCalls)
    ensures Milestones(log.Send(StepComplete(p.c.stepIndex, s.response)).Append(delta).sent) == Told(p.c.steps + [s])
  {
    hide Milestones, Told, Started, Log.Append, Log.Send;
    var n, complete := |p.c.steps|, StepComplete(|p.c.steps|, s.response);
    SentOne(log, complete);
    AppendIsNoMilestone(log.Send(complete), delta);
    OneMoreTold(p.c.steps, s);
    assert Told(p.c.steps) + [StepStart(n)] + Started(s.toolCalls) + [complete] ==
           Told(p.c.steps) + ([StepStart(n)] + Started(s.toolCalls) + [complete]);
  }

  lemma RespondReports(w: World, cfg: Config, p: StreamProgress, r: Response)
    requires Begun(p)
    ensures match StreamRespond(w, cfg, p, r)
            case StreamContinue(next) => Reported(next)
            case StreamFinish(log, result, err) => Closes(Milestones(log.sent), result, err)
  {
    hide Milestones, Told, Log.Append, Log.Send, ToolUses, Executed, ResultBlocks, Add, SendTools;
    var c := p.c.(usage := Add(p.c.usage, r.usage), turnCount := p.c.turnCount + 1);
    var n := p.c.stepIndex;
    match Terminal(cfg, p.(c := c).Blocking(), r) {
      case Some(stop) =>
        var s := Step(n, r, [], []);
        NothingFollows(Milestones(p.log.sent));
        assert Started(s.toolCalls) == [];
        CompletedStep(p, p.log, [Message(Assistant, r.content)], s);
        var log := p.log.Send(StepComplete(n, r)).Append([Message(Assistant, r.content)]);
        var last := StreamResult(StreamProgress(log, c.(steps := c.steps + [s])), Some(r), stop);
        SentOne(log, RunComplete(last));
      case None =>
        var calls := ToolUses(r.content);
        var results := Executed(w, cfg, p.c.turnCount, calls);
        ExecutedLength(w, cfg, p.c.turnCount, calls);
        ToolsAreStarted(p.log, calls, results);
        CompletedStep(p, SendTools(p.log, calls, results),
                      [Message(Assistant, r.content), Message(User, ResultBlocks(results))],
                      Step(n, r, calls, results));
    }
  }

  lemma AnnounceCloses(p: StreamProgress, stop: RunStop)
    requires Reported(p) || Begun(p)
    ensures var t := Announce(p, None, stop); Closes(Milestones(t.log.sent), t.result, t.err)
  {
    hide Milestones, Told, Log.Send;
    SentOne(p.log, RunComplete(StreamResult(p, None, stop)));
  }

  lemma NothingFollows(told: seq<RunEvent>)
    ensures told + [] == told
  {
  }

  lemma TurnReports(w: StreamWorld, cfg: Config, p: StreamProgress)
    requires Reported(p)
    ensures match TakeStreamTurn(w, cfg, p)
            case StreamContinue(next) => Reported(next)
            case StreamFinish(log, result, err) => Closes(Milestones(log.sent), result, err)
  {
    hide Milestones, Told, Log.Append, Log.Send, Read, StreamRespond;
    NothingFollows(Told(p.c.steps));
    NothingFollows(Told(p.c.steps) + [StepStart(|p.c.steps|)]);
    if p.c.turnCount < w.world.horizon {
      match Exhausted(cfg, p.Blocking()) {
        case Some(stop) => AnnounceCloses(p, stop);
        case None =>
          var started := p.(log := p.log.Send(StepStart(p.c.stepIndex)));
          SentOne(p.log, StepStart(p.c.stepIndex));
          assert Begun(started);
          match w.script(p.c.turnCount, cfg.buildTurnMessages(p.c.turnCount, p.log.messages)) {
            case OpenFailed(err) =>
            case Opened(items, end) =>
              ReadingHasNoMilestone(started.log, [], items);
              var after := p.(log := LogOf(Read(started.log, [], items)));
              assert Begun(after);
              match Read(started.log, [], items) {
                case Aborted(_, stop, err) =>
                  AnnounceCloses(after, stop);
                case Drained(_) =>
                  match end {
                    case Broken(_) =>
                    case Complete(r) => RespondReports(w.world, cfg, after, r);
                  }
              }
          }
      }
    }
  }

  lemma {:induction false} RunReportsFrom(w: StreamWorld, cfg: Config, p: StreamProgress)
    requires Reported(p)
    ensures var e := RunStreaming(w, cfg, p); Closes(Milestones(e.log.sent), e.result, e.err)
    decreases w.world.horizon - p.c.turnCount
  {
    hide Milestones, Told, TakeStreamTurn, Closes;
    TurnReports(w, cfg, p);
    match TakeStreamTurn(w, cfg, p) {
      case StreamFinish(_, _, _) =>
      case StreamContinue(next) =>
        TurnsGoOn(w, cfg, p);
        RunReportsFrom(w, cfg, next);
    }
  }

  lemma TurnsGoOn(w: StreamWorld, cfg: Config, p: StreamProgress)
    requires TakeStreamTurn(w, cfg, p).StreamContinue?
    ensures w.world.horizon - p.c.turnCount > w.world.horizon - TakeStreamTurn(w, cfg, p).next.c.turnCount
    ensures p.c.turnCount < w.world.horizon
  {
  }

  /** In every streaming run, whatever interrupts it: the steps of the result were
      begun and completed one after the other, numbered from 0, with their own
      responses and between them the calls of their tools; at most one more was
      begun; and the last of these events hands over the result exactly if the run
      did not fail. */
  lemma {:induction false} StepsAreReported(w: StreamWorld, cfg: Config, initial: Messages)
    ensures var e := RunStreaming(w, cfg, StreamStart(initial)); Closes(Milestones(e.log.sent), e.result, e.err)
  {
    hide RunStreaming, Closes;
    RunReportsFrom(w, cfg, StreamStart(initial));
  }

  // ---------- the delta behind a step ----------

  /** Right behind the completion of a step comes what it adds to the history, its
      response first. */
  predicate Followed(sent: seq<RunEvent>) {
    forall k :: 0 <= k < |sent| && sent[k].StepComplete? ==>
      && k + 1 < |sent| && sent[k + 1].HistoryDelta? && sent[k + 1].append != []
      && sent[k + 1].append[0] == Message(Assistant, sent[k].response.content)
  }

  lemma FollowedOneMore(log: Log, e: RunEvent)
    requires Followed(log.sent) && !e.StepComplete?
    ensures Followed(log.Send(e).sent)
  {
  }

  lemma FollowedStep(log: Log, n: nat, r: Response, delta: Messages)
    requires Followed(log.sent) && delta != [] && delta[0] == Message(Assistant, r.content)
    ensures Followed(log.Send(StepComplete(n, r)).Append(delta).sent)
  {
  }

  lemma FollowedAppend(log: Log, delta: Messages)
    requires Followed(log.sent)
    ensures Followed(log.Append(delta).sent)
  {
  }

  lemma FollowedForward(log: Log, e: Event)
    requires Followed(log.sent)
    ensures Followed(Forward(log, e).sent)
  {
    hide Followed;
    var once := log.Send(StreamEvent(e));
    FollowedOneMore(log, StreamEvent(e));
    match e {
      case BlockStart(_, WebSearchResult(id, hits)) =>
        var report := Forward(log, e).sent[|once.sent|];
        assert Forward(log, e).sent == once.Send(report).sent;
        FollowedOneMore(once, report);
      case _ =>
    }
  }

  lemma {:induction false} FollowedReading(log: Log, partial: Bytes, items: seq<Item>)
    requires Followed(log.sent)
    ensures Followed(LogOf(Read(log, partial, items)).sent)
    decreases |items|
  {
    hide Followed, Forward, PartialText, InterruptDelta, Log.Append, Log.Send;
    if items != [] {
      match items[0] {
        case Received(e) =>
          FollowedForward(log, e);
          FollowedReading(Forward(log, e), PartialText(partial, e), items[1..]);
        case Interrupt(message, behavior) =>
          var delta := InterruptDelta(partial, message, behavior);
          FollowedAppend(log, delta);
          FollowedOneMore(log.Append(delta), Interrupted(partial, behavior));
        case Cancel => FollowedOneMore(log, Interrupted(partial, Discard));
        case ContextDone(_) =>
      }
    }
  }

  lemma {:induction false} FollowedTools(log: Log, calls: seq<ToolCall>, results: seq<ToolExecutionResult>)
    requires |calls| == |results| && Followed(log.sent)
    ensures Followed(SendTools(log, calls, results).sent)
    decreases |calls|
  {
    hide Followed, Log.Send;
    if calls != [] {
      var n := |calls| - 1;
      var before := SendTools(log, calls[..n], results[..n]);
      var r := results[n];
      FollowedTools(log, calls[..n], results[..n]);
      FollowedOneMore(before, ToolCallStart(calls[n]));
      FollowedOneMore(
        before.Send(ToolCallStart(calls[n])), ToolResultEvent(calls[n].id, calls[n].name, r.content, r.error));
    }
  }

  lemma FollowedResponse(w: World, cfg: Config, p: StreamProgress, r: Response)
    requires Followed(p.log.sent)
    ensures match StreamRespond(w, cfg, p, r)
            case StreamContinue(next) => Followed(next.log.sent)
            case StreamFinish(log, _, _) => Followed(log.sent)
  {
    hide Followed, Log.Append, Log.Send, ToolUses, Executed, ResultBlocks, Add, SendTools;
    var c := p.c.(usage := Add(p.c.usage, r.usage), turnCount := p.c.turnCount + 1);
    var n := p.c.stepIndex;
    match Terminal(cfg, p.(c := c).Blocking(), r) {
      case Some(stop) =>
        var delta := [Message(Assistant, r.content)];
        FollowedStep(p.log, n, r, delta);
        var log := p.log.Send(StepComplete(n, r)).Append(delta);
        var last := StreamProgress(log, c.(steps := c.steps + [Step(n, r, [], [])]));
        FollowedOneMore(log, RunComplete(StreamResult(last, Some(r), stop)));
      case None =>
        var calls := ToolUses(r.content);
        var results := Executed(w, cfg, p.c.turnCount, calls);
        ExecutedLength(w, cfg, p.c.turnCount, calls);
        FollowedTools(p.log, calls, results);
        FollowedStep(SendTools(p.log, calls, results), n, r,
                     [Message(Assistant, r.content), Message(User, ResultBlocks(results))]);
    }
  }

  lemma FollowedTurn(w: StreamWorld, cfg: Config, p: StreamProgress)
    requires Followed(p.log.sent)
    ensures match TakeStreamTurn(w, cfg, p)
            case StreamContinue(next) => Followed(next.log.sent)
            case StreamFinish(log, _, _) => Followed(log.sent)
  {
    hide Followed, Log.Append, Log.Send, Read, StreamRespond;
    if p.c.turnCount < w.world.horizon {
      match Exhausted(cfg, p.Blocking()) {
        case Some(stop) => FollowedOneMore(p.log, RunComplete(StreamResult(p, None, stop)));
        case None =>
          var started := p.log.Send(StepStart(p.c.stepIndex));
          FollowedOneMore(p.log, StepStart(p.c.stepIndex));
          match w.script(p.c.turnCount, cfg.buildTurnMessages(p.c.turnCount, p.log.messages)) {
            case OpenFailed(_) =>
            case Opened(items, end) =>
              FollowedReading(started, [], items);
              var after := p.(log := LogOf(Read(started, [], items)));
              match Read(started, [], items) {
                case Aborted(_, stop, _) => FollowedOneMore(after.log, RunComplete(StreamResult(after, None, stop)));
                case Drained(_) =>
                  match end {
                    case Broken(_) =>
                    case Complete(r) => FollowedResponse(w.world, cfg, after, r);
                  }
              }
          }
      }
    }
  }

  lemma {:induction false} FollowedRun(w: StreamWorld, cfg: Config, p: StreamProgress)
    requires Followed(p.log.sent)
    ensures Followed(RunStreaming(w, cfg, p).log.sent)
    decreases w.world.horizon - p.c.turnCount
  {
    hide Followed, TakeStreamTurn;
    FollowedTurn(w, cfg, p);
    match TakeStreamTurn(w, cfg, p) {
      case StreamFinish(_, _, _) =>
      case StreamContinue(next) =>
        TurnsGoOn(w, cfg, p);
        FollowedRun(w, cfg, next);
    }
  }

  /** A history delta follows every completed step: in every streaming run the event
      right behind the completion of a step appends its response. */
  lemma {:induction false} DeltasFollowTheirSteps(w: StreamWorld, cfg: Config, initial: Messages)
    ensures Followed(RunStreaming(w, cfg, StreamStart(initial)).log.sent)
  {
    hide RunStreaming;
    FollowedRun(w, cfg, StreamStart(initial));
  }
}
