/** What the two accumulators compute, and when they compute the same. */
module AccumulatorProperties {
  import opened GoStrings
  import opened StreamTypes
  import opened Accumulators

  // ---------- interleaving ----------

  /** A block index on its own: its slot and its unused input. */
  datatype Cell = Cell(slot: Option<Block>, buffer: Bytes)

  predicate Concerns(e: Event, i: nat) {
    (e.BlockStart? || e.BlockDelta? || e.BlockStop?) && e.index == i
  }

  function CellStep(c: Cell, e: Event, unmarshal: Unmarshal): Cell {
    match e
    case BlockStart(_, block) => c.(slot := Some(block))
    case BlockDelta(_, d) => Cell(ApplyDelta(c.slot, d), if d.InputJSONDelta? then c.buffer + d.partial else c.buffer)
    case BlockStop(_) => Cell(Filled(c.slot, c.buffer, unmarshal), [])
    case _ => c
  }

  function CellFold(events: seq<Event>, unmarshal: Unmarshal): Cell {
    if events == [] then Cell(None, [])
    else var n := |events| - 1; CellStep(CellFold(events[..n], unmarshal), events[n], unmarshal)
  }

  /** The events of one block index. */
  function For(events: seq<Event>, i: nat): seq<Event> {
    if events == [] then []
    else var n := |events| - 1; For(events[..n], i) + if Concerns(events[n], i) then [events[n]] else []
  }

  /** The events of the message itself. */
  function Messages(events: seq<Event>): seq<Event> {
    if events == [] then []
    else
      var n := |events| - 1;
      Messages(events[..n]) + if events[n].MessageStart? || events[n].MessageDelta? then [events[n]] else []
  }

  function Cells(s: State, i: nat): Cell {
    Cell(SlotAt(s.slots, i), Buffered(s.buffers, i))
  }

  lemma StepCell(s: State, e: Event, i: nat, unmarshal: Unmarshal)
    ensures Cells(SdkStep(s, e, unmarshal), i) ==
            if Concerns(e, i) then CellStep(Cells(s, i), e, unmarshal) else Cells(s, i)
  {
  }

  lemma AppendFold(events: seq<Event>, e: Event, unmarshal: Unmarshal)
    ensures CellFold(events + [e], unmarshal) == CellStep(CellFold(events, unmarshal), e, unmarshal)
  {
    assert (events + [e])[..|events|] == events;
  }

  /** In the whole fold each index evolves as if it were alone. */
  lemma {:induction false} CellsAreIndependent(events: seq<Event>, i: nat, unmarshal: Unmarshal)
    ensures Cells(SdkFold(events, unmarshal), i) == CellFold(For(events, i), unmarshal)
  {
    hide SdkStep, CellStep;
    if events != [] {
      var n := |events| - 1;
      CellsAreIndependent(events[..n], i, unmarshal);
      StepCell(SdkFold(events[..n], unmarshal), events[n], i, unmarshal);
      AppendFold(For(events[..n], i), events[n], unmarshal);
      assert For(events[..n], i) + [] == For(events[..n], i);
    }
  }

  function Respond(r: Response, e: Event): Response {
    match e
    case MessageStart(message) => message
    case MessageDelta(stopReason, usage) => r.(stopReason := stopReason, usage := usage)
    case _ => r
  }

  function ResponseFold(events: seq<Event>): Response {
    if events == [] then BLANK
    else var n := |events| - 1; Respond(ResponseFold(events[..n]), events[n])
  }

  lemma StepResponse(s: State, e: Event, unmarshal: Unmarshal)
    ensures SdkStep(s, e, unmarshal).response == Respond(s.response, e)
  {
  }

  lemma {:induction false} MessagePartIsIndependent(events: seq<Event>, unmarshal: Unmarshal)
    ensures SdkFold(events, unmarshal).response == ResponseFold(Messages(events))
  {
    hide SdkStep;
    if events != [] {
      var n := |events| - 1;
      MessagePartIsIndependent(events[..n], unmarshal);
      StepResponse(SdkFold(events[..n], unmarshal), events[n], unmarshal);
      var before := Messages(events[..n]);
      assert (before + [events[n]])[..|before|] == before;
      assert before + [] == before;
    }
  }

  /** Holes, including missing slots at the end, do not matter to compaction. */
  lemma {:induction false} CompactIgnoresHoles(s: Slots, t: Slots)
    requires forall i: nat :: SlotAt(s, i) == SlotAt(t, i)
    ensures Compact(s) == Compact(t)
    decreases |s| + |t|
  {
    if |s| == |t| {
      assert forall i :: 0 <= i < |s| ==> s[i] == SlotAt(s, i) == SlotAt(t, i) == t[i];
      assert s == t;
    } else if |s| > |t| {
      var n := |s| - 1;
      assert SlotAt(s, n) == SlotAt(t, n) == None;
      assert forall i: nat :: SlotAt(s[..n], i) == SlotAt(s, i);
      CompactIgnoresHoles(s[..n], t);
    } else {
      var n := |t| - 1;
      assert SlotAt(t, n) == SlotAt(s, n) == None;
      assert forall i: nat :: SlotAt(t[..n], i) == SlotAt(t, i);
      CompactIgnoresHoles(s, t[..n]);
    }
  }

  /** Interleaving independence: the SDK's response depends only on the events of
      each index in their order and on the message events in theirs, not on how
      they are interleaved. */
  lemma {:induction false} InterleavingIndependence(a: seq<Event>, b: seq<Event>, unmarshal: Unmarshal)
    requires forall i: nat :: For(a, i) == For(b, i)
    requires Messages(a) == Messages(b)
    ensures SdkResponse(a, unmarshal) == SdkResponse(b, unmarshal)
  {
    hide SdkFold, CellFold, For, Messages, ResponseFold, Compact;
    var s, t := SdkFold(a, unmarshal), SdkFold(b, unmarshal);
    forall i: nat
      ensures SlotAt(Flushed(s, unmarshal), i) == SlotAt(Flushed(t, unmarshal), i)
    {
      assert For(a, i) == For(b, i);
      CellsAreIndependent(a, i, unmarshal);
      CellsAreIndependent(b, i, unmarshal);
      FlushedCell(s, i, unmarshal);
      FlushedCell(t, i, unmarshal);
    }
    CompactIgnoresHoles(Flushed(s, unmarshal), Flushed(t, unmarshal));
    MessagePartIsIndependent(a, unmarshal);
    MessagePartIsIndependent(b, unmarshal);
  }

  lemma FlushedCell(s: State, i: nat, unmarshal: Unmarshal)
    ensures SlotAt(Flushed(s, unmarshal), i) == Filled(Cells(s, i).slot, Cells(s, i).buffer, unmarshal)
  {
  }

  // ---------- compaction ----------

  /** The indices of the slots that are not holes. */
  function Occupied(slots: Slots): (ks: seq<nat>)
    ensures forall k :: 0 <= k < |ks| ==> ks[k] < |slots|
  {
    if slots == [] then []
    else
      var n := |slots| - 1;
      Occupied(slots[..n]) + if slots[n].Some? then [n] else []
  }

  /** `out` is what stands in the slots `ks`, in increasing order, and all other
      slots are holes. */
  predicate Selects(slots: Slots, ks: seq<nat>, out: seq<Block>) {
    && |out| == |ks|
    && (forall k :: 0 <= k < |ks| ==> ks[k] < |slots| && slots[ks[k]] == Some(out[k]))
    && (forall j, k :: 0 <= j < k < |ks| ==> ks[j] < ks[k])
    && (forall i :: 0 <= i < |slots| && i !in ks ==> slots[i].None?)
  }

  lemma SelectsOneMore(slots: Slots, slot: Option<Block>, ks: seq<nat>, out: seq<Block>)
    requires Selects(slots, ks, out)
    ensures slot.None? ==> Selects(slots + [slot], ks, out)
    ensures slot.Some? ==> Selects(slots + [slot], ks + [|slots|], out + [slot.value])
  {
    assert |slots| in ks + [|slots|];
    assert forall i :: i in ks ==> i in ks + [|slots|];
  }

  /** Compaction keeps exactly the occupied slots, in index order. */
  lemma {:induction false} CompactKeepsOccupied(slots: Slots)
    ensures Selects(slots, Occupied(slots), Compact(slots))
  {
    hide Selects;
    if slots == [] {
      assert Selects([], [], []) by { NothingSelected(); }
    } else {
      var n := |slots| - 1;
      CompactKeepsOccupied(slots[..n]);
      SelectsOneMore(slots[..n], slots[n], Occupied(slots[..n]), Compact(slots[..n]));
      assert slots == slots[..n] + [slots[n]];
      assert Compact(slots[..n]) + [] == Compact(slots[..n]) && Occupied(slots[..n]) + [] == Occupied(slots[..n]);
    }
  }

  lemma NothingSelected()
    ensures Selects([], [], [])
  {
  }

  // ---------- agreement ----------

  /** How many slots the start events have opened. */
  function Width(events: seq<Event>): nat {
    if events == [] then 0
    else
      var n := |events| - 1;
      var w := Width(events[..n]);
      if events[n].BlockStart? && events[n].index >= w then events[n].index + 1 else w
  }

  /** The input received for index `i` since its last stop event. */
  function Unused(events: seq<Event>, i: nat): Bytes {
    if events == [] then []
    else
      var n := |events| - 1;
      match events[n]
      case BlockStop(j) => if j == i then [] else Unused(events[..n], i)
      case BlockDelta(j, InputJSONDelta(partial)) =>
        if j == i then Unused(events[..n], i) + partial else Unused(events[..n], i)
      case _ => Unused(events[..n], i)
  }

  /** A stop event that comes before the slot is opened but after input for it. */
  predicate PrematureStop(before: seq<Event>, e: Event) {
    e.BlockStop? && e.index >= Width(before) && Unused(before, e.index) != []
  }

  predicate NoPrematureStop(events: seq<Event>) {
    events == [] ||
    var n := |events| - 1;
    NoPrematureStop(events[..n]) && !PrematureStop(events[..n], events[n])
  }

  lemma {:induction false} FoldShape(events: seq<Event>, i: nat, unmarshal: Unmarshal)
    ensures var s := SdkFold(events, unmarshal);
            |s.slots| == Width(events) && Buffered(s.buffers, i) == Unused(events, i)
  {
    if events != [] {
      var n := |events| - 1;
      FoldShape(events[..n], i, unmarshal);
    }
  }

  predicate Same(s: State, t: State) {
    s.response == t.response && s.slots == t.slots && SameBuffers(s.buffers, t.buffers)
  }

  /** Equal up to empty buffers. */
  predicate SameBuffers(b: map<nat, Bytes>, c: map<nat, Bytes>) {
    && (forall i | i in b :: b[i] == Buffered(c, i))
    && (forall i | i in c :: c[i] == Buffered(b, i))
  }

  lemma SameStep(s: State, t: State, e: Event, unmarshal: Unmarshal)
    requires Same(s, t)
    requires e.BlockStop? ==> e.index < |s.slots| || Buffered(s.buffers, e.index) == []
    ensures Same(SdkStep(s, e, unmarshal), GatewayStep(t, e, unmarshal))
  {
    hide Filled, Placed, ApplyDelta;
    if e.BlockStop? {
      assert Buffered(s.buffers, e.index) == Buffered(t.buffers, e.index);
      if e.index >= |s.slots| || Buffered(s.buffers, e.index) == [] {
        NothingToFill(s.slots, e.index, Buffered(s.buffers, e.index), unmarshal);
      }
    }
  }

  lemma NothingToFill(slots: Slots, i: nat, raw: Bytes, unmarshal: Unmarshal)
    requires i >= |slots| || raw == []
    ensures FilledAt(slots, i, raw, unmarshal) == slots
  {
  }

  lemma {:induction false} FoldsAgree(events: seq<Event>, unmarshal: Unmarshal)
    requires NoPrematureStop(events)
    ensures Same(SdkFold(events, unmarshal), GatewayFold(events, unmarshal))
  {
    hide Same, SdkStep, GatewayStep;
    if events == [] {
      assert Same(INITIAL, INITIAL) by { SameAtStart(); }
    } else {
      var n := |events| - 1;
      FoldsAgree(events[..n], unmarshal);
      if events[n].BlockStop? {
        FoldShape(events[..n], events[n].index, unmarshal);
      }
      SameStep(SdkFold(events[..n], unmarshal), GatewayFold(events[..n], unmarshal), events[n], unmarshal);
    }
  }

  lemma SameAtStart()
    ensures Same(INITIAL, INITIAL)
  {
  }

  lemma SameFinish(s: State, t: State, unmarshal: Unmarshal)
    requires Same(s, t)
    ensures Finished(s, unmarshal) == Finished(t, unmarshal)
  {
    forall i: nat
      ensures Buffered(s.buffers, i) == Buffered(t.buffers, i)
    {
    }
    assert Flushed(s, unmarshal) == Flushed(t, unmarshal);
  }

  /** The two accumulators agree on every error-free stream in which no stop
      event comes between the input for a block and the opening of its slot: same
      content, stop reason and usage, or an empty response where the gateway has
      none. */
  lemma {:induction false} AccumulatorsAgree(events: seq<Event>, unmarshal: Unmarshal)
    requires NoPrematureStop(events)
    ensures var sdk := SdkResponse(events, unmarshal);
            match GatewayResponse(events, unmarshal)
            case Some(r) => r == sdk
            case None => sdk.kind == [] && sdk.content == [] && sdk.id == []
  {
    hide Same, SdkFold, GatewayFold;
    FoldsAgree(events, unmarshal);
    SameFinish(SdkFold(events, unmarshal), GatewayFold(events, unmarshal), unmarshal);
  }

  /** Every premature stop can make them disagree: once the slot is opened as a
      tool call, and if the input parses to another one than it was opened with,
      the gateway still has the input and the SDK has lost it. */
  lemma {:induction false} PrematureStopDiverges(
    events: seq<Event>, stop: Event, id: Bytes, name: Bytes, initial: Input, unmarshal: Unmarshal)
    requires NoPrematureStop(events) && PrematureStop(events, stop)
    requires unmarshal(Unused(events, stop.index)).Some? && unmarshal(Unused(events, stop.index)).value != initial
    ensures var all := events + [stop, BlockStart(stop.index, ToolUse(id, name, initial))];
            && Flushed(SdkFold(all, unmarshal), unmarshal)[stop.index] == Some(ToolUse(id, name, initial))
            && Flushed(GatewayFold(all, unmarshal), unmarshal)[stop.index] ==
               Some(ToolUse(id, name, unmarshal(Unused(events, stop.index)).value))
            && SdkResponse(all, unmarshal).content != GatewayContent(all, unmarshal)
  {
    hide SdkFold, GatewayFold, Same, Unused, Width, NoPrematureStop, Compact;
    var i := stop.index;
    var start := BlockStart(i, ToolUse(id, name, initial));
    var all := events + [stop, start];
    assert all[..|all| - 1] == events + [stop] && (events + [stop])[..|events|] == events;
    FoldTwice(events, stop, start, unmarshal);
    FoldsAgree(events, unmarshal);
    FoldShape(events, i, unmarshal);
    var s, t := SdkFold(events, unmarshal), GatewayFold(events, unmarshal);
    assert Buffered(t.buffers, i) == Buffered(s.buffers, i) by { SameMeans(s, t, i); }
    assert |t.slots| == |s.slots| by { SameMeans(s, t, i); }
    var sdk, gateway := Flushed(SdkFold(all, unmarshal), unmarshal), Flushed(GatewayFold(all, unmarshal), unmarshal);
    LastBlock(sdk, i, ToolUse(id, name, initial));
    LastBlock(gateway, i, ToolUse(id, name, unmarshal(Unused(events, i)).value));
  }

  function GatewayContent(events: seq<Event>, unmarshal: Unmarshal): seq<Block> {
    Finished(GatewayFold(events, unmarshal), unmarshal).content
  }

  lemma SameMeans(s: State, t: State, i: nat)
    requires Same(s, t)
    ensures Buffered(t.buffers, i) == Buffered(s.buffers, i) && s.slots == t.slots
  {
  }

  lemma FoldTwice(events: seq<Event>, a: Event, b: Event, unmarshal: Unmarshal)
    ensures SdkFold(events + [a, b], unmarshal) ==
            SdkStep(SdkStep(SdkFold(events, unmarshal), a, unmarshal), b, unmarshal)
    ensures GatewayFold(events + [a, b], unmarshal) ==
            GatewayStep(GatewayStep(GatewayFold(events, unmarshal), a, unmarshal), b, unmarshal)
  {
    hide SdkStep, GatewayStep;
    assert (events + [a, b])[..|events| + 1] == events + [a] && (events + [a])[..|events|] == events;
  }

  lemma LastBlock(slots: Slots, i: nat, b: Block)
    requires |slots| == i + 1 && slots[i] == Some(b)
    ensures Compact(slots) != [] && Compact(slots)[|Compact(slots)| - 1] == b
  {
  }

  /** Whatever block is opened behind a stop event, and however inputs are decoded,
      both sides have the same content. */
  ghost predicate AgreeBehind(events: seq<Event>, stop: Event)
    requires stop.BlockStop?
  {
    forall block: Block, unmarshal: Unmarshal ::
      var all := events + [stop, BlockStart(stop.index, block)];
      SdkResponse(all, unmarshal).content == GatewayContent(all, unmarshal)
  }

  lemma StopAndStart(events: seq<Event>, stop: Event, start: Event)
    requires NoPrematureStop(events) && stop.BlockStop? && start.BlockStart? && !PrematureStop(events, stop)
    ensures NoPrematureStop(events + [stop, start])
  {
    hide Width, Unused;
    NoStopAdded(events, stop);
    NoStopAdded(events + [stop], start);
    assert events + [stop, start] == events + [stop] + [start];
  }

  lemma NoStopAdded(events: seq<Event>, e: Event)
    requires NoPrematureStop(events) && !PrematureStop(events, e)
    ensures NoPrematureStop(events + [e])
  {
    hide PrematureStop;
    assert (events + [e])[..|events|] == events;
  }

  /** A stop event is harmless if and only if it is not premature. */
  lemma {:induction false} StopIsHarmlessIff(events: seq<Event>, stop: Event)
    requires NoPrematureStop(events) && stop.BlockStop?
    ensures AgreeBehind(events, stop) <==> !PrematureStop(events, stop)
  {
    hide PrematureStop, NoPrematureStop, SdkFold, GatewayFold, Same, Finished;
    if PrematureStop(events, stop) {
      var unmarshal: Unmarshal := _ => Some([1]);
      PrematureStopDiverges(events, stop, [], [], [], unmarshal);
      var all := events + [stop, BlockStart(stop.index, ToolUse([], [], []))];
      assert SdkResponse(all, unmarshal).content != GatewayContent(all, unmarshal);
    } else {
      forall block: Block, unmarshal: Unmarshal
        ensures var all := events + [stop, BlockStart(stop.index, block)];
                SdkResponse(all, unmarshal).content == GatewayContent(all, unmarshal)
      {
        var all := events + [stop, BlockStart(stop.index, block)];
        StopAndStart(events, stop, BlockStart(stop.index, block));
        FoldsAgree(all, unmarshal);
        SameFinish(SdkFold(all, unmarshal), GatewayFold(all, unmarshal), unmarshal);
      }
    }
  }
}
