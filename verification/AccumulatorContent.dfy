/** What the content of a response is made of, told from its events alone. */
module AccumulatorContent {
  import opened GoStrings
  import opened StreamTypes
  import opened Accumulators
  import opened AccumulatorProperties
  import opened AccumulatorAgreement

  // ---------- the events of one block ----------

  /** The block with which index `i` was last opened. */
  function LastOpened(events: seq<Event>, i: nat): Option<Block> {
    if events == [] then None
    else
      var n := |events| - 1;
      if events[n].BlockStart? && events[n].index == i then Some(events[n].block) else LastOpened(events[..n], i)
  }

  /** The text deltas of index `i` since it was last opened, in order. */
  function TextPieces(events: seq<Event>, i: nat): seq<Bytes> {
    if events == [] then []
    else
      var n := |events| - 1;
      match events[n]
      case BlockStart(j, _) => if j == i then [] else TextPieces(events[..n], i)
      case BlockDelta(j, TextDelta(text)) => TextPieces(events[..n], i) + if j == i then [text] else []
      case _ => TextPieces(events[..n], i)
  }

  /** The thinking deltas of index `i` since it was last opened, in order. */
  function ThinkingPieces(events: seq<Event>, i: nat): seq<Bytes> {
    if events == [] then []
    else
      var n := |events| - 1;
      match events[n]
      case BlockStart(j, _) => if j == i then [] else ThinkingPieces(events[..n], i)
      case BlockDelta(j, ThinkingDelta(text)) => ThinkingPieces(events[..n], i) + if j == i then [text] else []
      case _ => ThinkingPieces(events[..n], i)
  }

  /** A block as it was opened with its text behind it. */
  function Grown(block: Block, text: Bytes, thinking: Bytes): Block {
    match block
    case Text(t) => Text(t + text)
    case Thinking(t) => Thinking(t + thinking)
    case other => other
  }

  /** The shape of a block is what it was opened with and its own pieces behind
      it: a text grows by text deltas, a thought by thinking deltas, and nothing
      else by anything. */
  lemma {:induction false} ShapeIsGrown(events: seq<Event>, i: nat)
    ensures Shape(events, i) ==
            match LastOpened(events, i)
            case None => None
            case Some(b) => Some(Grown(b, Concat(TextPieces(events, i)), Concat(ThinkingPieces(events, i))))
    decreases |events|
  {
    hide Concat;
    if events != [] {
      var n := |events| - 1;
      var before := events[..n];
      ShapeIsGrown(before, i);
      NothingYet();
      match events[n]
      case BlockStart(j, block) =>
        if j == i {
          GrownByNothing(block);
        }
      case BlockDelta(j, TextDelta(text)) =>
        if j == i {
          ConcatOneMore(TextPieces(before, i), text);
          GrowsByText(LastOpened(before, i), Concat(TextPieces(before, i)), Concat(ThinkingPieces(before, i)), text);
        } else {
          assert TextPieces(before, i) + [] == TextPieces(before, i);
        }
      case BlockDelta(j, ThinkingDelta(text)) =>
        if j == i {
          ConcatOneMore(ThinkingPieces(before, i), text);
          GrowsByThinking(
            LastOpened(before, i), Concat(TextPieces(before, i)), Concat(ThinkingPieces(before, i)), text);
        } else {
          assert ThinkingPieces(before, i) + [] == ThinkingPieces(before, i);
        }
      case _ =>
    }
  }

  lemma NothingYet()
    ensures Concat([]) == []
  {
  }

  lemma GrownByNothing(block: Block)
    ensures Grown(block, [], []) == block
  {
    if block.Text? {
      assert block.text + [] == block.text;
    } else if block.Thinking? {
      assert block.text + [] == block.text;
    }
  }

  lemma GrowsByText(start: Option<Block>, text: Bytes, thinking: Bytes, more: Bytes)
    ensures var slot := if start.None? then None else Some(Grown(start.value, text, thinking));
            ApplyDelta(slot, TextDelta(more)) ==
            if start.None? then None else Some(Grown(start.value, text + more, thinking))
  {
    if start.Some? && start.value.Text? {
      assert start.value.text + (text + more) == (start.value.text + text) + more;
    }
  }

  lemma GrowsByThinking(start: Option<Block>, text: Bytes, thinking: Bytes, more: Bytes)
    ensures var slot := if start.None? then None else Some(Grown(start.value, text, thinking));
            ApplyDelta(slot, ThinkingDelta(more)) ==
            if start.None? then None else Some(Grown(start.value, text, thinking + more))
  {
    if start.Some? && start.value.Thinking? {
      assert start.value.text + (thinking + more) == (start.value.text + thinking) + more;
    }
  }

  // ---------- the content of a response ----------

  /** What the block of an index ends as, if its inputs were `raws`. */
  function Ends(events: seq<Event>, i: nat, raws: seq<Bytes>, unmarshal: Unmarshal): Option<Block> {
    match LastOpened(events, i)
    case None => None
    case Some(Text(t)) => Some(Text(t + Concat(TextPieces(events, i))))
    case Some(Thinking(t)) => Some(Thinking(t + Concat(ThinkingPieces(events, i))))
    case Some(ToolUse(id, name, input)) => Some(ToolUse(id, name, LastParsed(raws, unmarshal, input)))
    case Some(ServerToolUse(id, name, input)) => Some(ServerToolUse(id, name, LastParsed(raws, unmarshal, input)))
    case Some(other) => Some(other)
  }

  lemma AppliedEnds(events: seq<Event>, i: nat, raws: seq<Bytes>, unmarshal: Unmarshal)
    ensures Applied(Shape(events, i), raws, unmarshal) == Ends(events, i, raws, unmarshal)
  {
    hide Shape, LastOpened, TextPieces, ThinkingPieces, Concat, Applied, LastParsed;
    ShapeIsGrown(events, i);
    if IsTool(Shape(events, i)) {
      ToolIsLastParsed(Shape(events, i), raws, unmarshal);
    } else {
      OthersStay(Shape(events, i), raws, unmarshal);
    }
  }

  /** `content` is the blocks of the indices `indices`, in increasing order, and no
      other index was opened. */
  ghost predicate MadeOf(
    content: seq<Block>, indices: seq<nat>, events: seq<Event>, raws: nat -> seq<Bytes>, unmarshal: Unmarshal)
  {
    && |content| == |indices|
    && (forall j, k :: 0 <= j < k < |indices| ==> indices[j] < indices[k])
    && (forall i: nat :: i in indices <==> LastOpened(events, i).Some?)
    && forall k :: 0 <= k < |indices| ==> Some(content[k]) == Ends(events, indices[k], raws(indices[k]), unmarshal)
  }

  lemma CompactIsMadeOf(slots: Slots, events: seq<Event>, raws: nat -> seq<Bytes>, unmarshal: Unmarshal)
    requires forall i: nat :: SlotAt(slots, i) == Ends(events, i, raws(i), unmarshal)
    ensures MadeOf(Compact(slots), Occupied(slots), events, raws, unmarshal)
  {
    hide Compact, Occupied, LastOpened, TextPieces, ThinkingPieces, Concat, LastParsed;
    CompactKeepsOccupied(slots);
    var indices := Occupied(slots);
    forall i: nat
      ensures i in indices <==> LastOpened(events, i).Some?
    {
      assert SlotAt(slots, i) == Ends(events, i, raws(i), unmarshal);
      if i in indices {
        var k :| 0 <= k < |indices| && indices[k] == i;
        assert slots[i] == Some(Compact(slots)[k]);
      }
    }
    forall k | 0 <= k < |indices|
      ensures Some(Compact(slots)[k]) == Ends(events, indices[k], raws(indices[k]), unmarshal)
    {
      assert SlotAt(slots, indices[k]) == Ends(events, indices[k], raws(indices[k]), unmarshal);
    }
  }

  function SdkInputs(events: seq<Event>): nat -> seq<Bytes> {
    i => SdkTrail(events, i).All()
  }

  function GatewayInputs(events: seq<Event>): nat -> seq<Bytes> {
    i => GatewayTrail(events, i).All()
  }

  /** The content of both responses: in index order the blocks that were opened, a
      text or thought with its own pieces behind it in the order of their arrival, a
      tool call with the last of its inputs that can be decoded, anything else as
      it was opened. */
  lemma {:induction false} ContentIsWhatWasSent(events: seq<Event>, unmarshal: Unmarshal)
    ensures exists indices ::
              MadeOf(SdkResponse(events, unmarshal).content, indices, events, SdkInputs(events), unmarshal)
    ensures exists indices ::
              MadeOf(GatewayContent(events, unmarshal), indices, events, GatewayInputs(events), unmarshal)
  {
    hide SdkFold, GatewayFold, Compact, Occupied, Ends, Flushed, SdkTrail, GatewayTrail, Trail.All, Shape, Applied;
    var sdk := Flushed(SdkFold(events, unmarshal), unmarshal);
    var gateway := Flushed(GatewayFold(events, unmarshal), unmarshal);
    var f, g := SdkInputs(events), GatewayInputs(events);
    forall i: nat
      ensures SlotAt(sdk, i) == Ends(events, i, f(i), unmarshal)
      ensures SlotAt(gateway, i) == Ends(events, i, g(i), unmarshal)
    {
      FinalSlots(events, i, unmarshal);
      AppliedEnds(events, i, f(i), unmarshal);
      AppliedEnds(events, i, g(i), unmarshal);
    }
    CompactIsMadeOf(sdk, events, f, unmarshal);
    CompactIsMadeOf(gateway, events, g, unmarshal);
    assert MadeOf(SdkResponse(events, unmarshal).content, Occupied(sdk), events, f, unmarshal);
    assert MadeOf(GatewayContent(events, unmarshal), Occupied(gateway), events, g, unmarshal);
  }

  // ---------- the rest of a response ----------

  /** The last message that was started. */
  function LastStarted(events: seq<Event>): Option<Response> {
    if events == [] then None
    else
      var n := |events| - 1;
      if events[n].MessageStart? then Some(events[n].message) else LastStarted(events[..n])
  }

  predicate Reports(e: Event) { e.MessageStart? || e.MessageDelta? }

  /** Stop reason and usage are those that were reported last. */
  predicate AsReported(r: Response, events: seq<Event>) {
    if events == [] then r.stopReason == OtherStop([]) && r.usage == Usage(0, 0, 0, None, None)
    else
      var n := |events| - 1;
      match events[n]
      case MessageStart(message) => r.stopReason == message.stopReason && r.usage == message.usage
      case MessageDelta(stopReason, usage) => r.stopReason == stopReason && r.usage == usage
      case _ => AsReported(r, events[..n])
  }

  ghost predicate NothingOpened(events: seq<Event>) {
    forall i: nat :: LastOpened(events, i).None?
  }

  predicate NamedAsStarted(r: Response, events: seq<Event>) {
    match LastStarted(events)
    case None => r.id == [] && r.kind == []
    case Some(message) => r.id == message.id && r.kind == message.kind
  }

  lemma {:induction false} FoldsReport(events: seq<Event>, unmarshal: Unmarshal)
    ensures var r := SdkFold(events, unmarshal).response; AsReported(r, events) && NamedAsStarted(r, events)
    ensures SdkFold(events, unmarshal).response == GatewayFold(events, unmarshal).response
    decreases |events|
  {
    if events != [] {
      var n := |events| - 1;
      FoldsReport(events[..n], unmarshal);
      var r := SdkFold(events[..n], unmarshal).response;
      if events[n].MessageDelta? {
        assert NamedAsStarted(r.(stopReason := events[n].stopReason, usage := events[n].usage), events[..n]);
      }
      hide SdkStop, FilledAt, ApplyDelta;
    }
  }

  lemma OtherContent(r: Response, content: seq<Block>, events: seq<Event>)
    requires AsReported(r, events) && NamedAsStarted(r, events)
    ensures AsReported(r.(content := content), events) && NamedAsStarted(r.(content := content), events)
    decreases |events|
  {
    if events != [] && !Reports(events[|events| - 1]) {
      OtherContentBefore(r, content, events[..|events| - 1]);
    }
  }

  lemma {:induction false} OtherContentBefore(r: Response, content: seq<Block>, events: seq<Event>)
    requires AsReported(r, events)
    ensures AsReported(r.(content := content), events)
    decreases |events|
  {
    if events != [] && !Reports(events[|events| - 1]) {
      OtherContentBefore(r, content, events[..|events| - 1]);
    }
  }

  /** The rest of both responses: named like the last message that was started,
      with the stop reason and usage that were reported last; and the gateway has a
      response unless no name was sent and no block was opened. */
  lemma {:induction false} ResponseIsAsReported(events: seq<Event>, unmarshal: Unmarshal)
    ensures var r := SdkResponse(events, unmarshal); AsReported(r, events) && NamedAsStarted(r, events)
    ensures match GatewayResponse(events, unmarshal)
            case Some(r) =>
              AsReported(r, events) && NamedAsStarted(r, events) && r.content == GatewayContent(events, unmarshal)
            case None =>
              && NothingOpened(events)
              && (LastStarted(events).Some? ==>
                    LastStarted(events).value.id == [] && LastStarted(events).value.kind == [])
    ensures NothingOpened(events)
            && (LastStarted(events).Some? ==>
                  LastStarted(events).value.id == [] && LastStarted(events).value.kind == [])
            ==> GatewayResponse(events, unmarshal).None?
  {
    hide SdkFold, GatewayFold, Compact, Flushed, AsReported, LastOpened, MadeOf;
    FoldsReport(events, unmarshal);
    var r := SdkFold(events, unmarshal).response;
    OtherContent(r, Finished(SdkFold(events, unmarshal), unmarshal).content, events);
    OtherContent(r, GatewayContent(events, unmarshal), events);
    EmptyIffUnopened(events, unmarshal);
  }

  lemma EmptyIffUnopened(events: seq<Event>, unmarshal: Unmarshal)
    ensures GatewayContent(events, unmarshal) == [] <==> NothingOpened(events)
  {
    hide GatewayContent, SdkResponse, LastOpened, MadeOf, SdkInputs, GatewayInputs;
    ContentIsWhatWasSent(events, unmarshal);
    var content, inputs := GatewayContent(events, unmarshal), GatewayInputs(events);
    var indices :| MadeOf(content, indices, events, inputs, unmarshal);
    OpenedIndices(content, indices, events, inputs, unmarshal);
  }

  lemma OpenedIndices(
    content: seq<Block>, indices: seq<nat>, events: seq<Event>, raws: nat -> seq<Bytes>, unmarshal: Unmarshal)
    requires MadeOf(content, indices, events, raws, unmarshal)
    ensures content == [] <==> NothingOpened(events)
  {
    hide Ends, LastOpened;
    if indices != [] {
      assert indices[0] in indices && LastOpened(events, indices[0]).Some?;
    }
  }
}
