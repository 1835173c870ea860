/** The two independent folds that turn a stream of events into a response: the
    SDK's `readEvents` and the gateway's `materializeMessageResponseFromSSE`. */
module Accumulators {
  import opened GoStrings
  import opened StreamTypes

  /** Content slots; a slot that no start event has filled is a hole. */
  type Slots = seq<Option<Block>>

  /** `json.Unmarshal` of a tool input: some object, or an error. */
  type Unmarshal = Bytes -> Option<Input>

  datatype State = State(response: Response, slots: Slots, buffers: map<nat, Bytes>)

  const BLANK := Response([], [], [], OtherStop([]), Usage(0, 0, 0, None, None))

  const INITIAL := State(BLANK, [], map[])

  function Buffered(buffers: map<nat, Bytes>, i: nat): Bytes {
    if i in buffers then buffers[i] else []
  }

  function SlotAt(slots: Slots, i: nat): Option<Block> {
    if i < |slots| then slots[i] else None
  }

  // ---------- slots ----------

  function Grown(slots: Slots, n: nat): Slots {
    if |slots| < n then slots + seq(n - |slots|, _ => None) else slots
  }

  function Placed(slots: Slots, i: nat, b: Block): Slots {
    Grown(slots, i + 1)[i := Some(b)]
  }

  /** `applyDelta`; `applyObservedDelta` differs only on pointer blocks, which
      decoding an event never produces. */
  function ApplyDelta(slot: Option<Block>, d: Delta): Option<Block> {
    match (slot, d)
    case (Some(Text(text)), TextDelta(more)) => Some(Text(text + more))
    case (Some(Thinking(text)), ThinkingDelta(more)) => Some(Thinking(text + more))
    case _ => slot
  }

  /** What a complete buffered input makes of a slot. */
  function Filled(slot: Option<Block>, raw: Bytes, unmarshal: Unmarshal): Option<Block> {
    if raw == [] then slot
    else
      match (unmarshal(raw), slot)
      case (Some(input), Some(ToolUse(id, name, _))) => Some(ToolUse(id, name, input))
      case (Some(input), Some(ServerToolUse(id, name, _))) => Some(ServerToolUse(id, name, input))
      case _ => slot
  }

  function FilledAt(slots: Slots, i: nat, raw: Bytes, unmarshal: Unmarshal): Slots {
    if i < |slots| then slots[i := Filled(slots[i], raw, unmarshal)] else slots
  }

  /** `compactContentBlocks`: the blocks without the holes. */
  function Compact(slots: Slots): seq<Block> {
    if slots == [] then []
    else
      var n := |slots| - 1;
      Compact(slots[..n]) + (match slots[n] case None => [] case Some(b) => [b])
  }

  method CompactContentBlocks(slots: Slots) returns (out: seq<Block>)
    ensures out == Compact(slots)
  {
    if |slots| == 0 {
      return [];
    }
    out := [];
    for n := 0 to |slots|
      invariant out == Compact(slots[..n])
    {
      assert slots[..n + 1][..n] == slots[..n];
      if slots[n].None? {
        continue;
      }
      out := out + [slots[n].value];
    }
    assert slots[..|slots|] == slots;
  }

  // ---------- one event ----------

  /** What an event does apart from a block stop, the same in both folds. */
  function Advance(s: State, e: Event): State {
    match e
    case MessageStart(message) => s.(response := message)
    case BlockStart(i, block) => s.(slots := Placed(s.slots, i, block))
    case BlockDelta(i, d) =>
      var slots := if i < |s.slots| then s.slots[i := ApplyDelta(s.slots[i], d)] else s.slots;
      var buffers := if d.InputJSONDelta? then s.buffers[i := Buffered(s.buffers, i) + d.partial] else s.buffers;
      s.(slots := slots, buffers := buffers)
    case BlockStop(_) => s
    case MessageDelta(stopReason, usage) =>
      s.(response := s.response.(stopReason := stopReason, usage := usage))
    case OtherEvent(_) => s
  }

  /** A stop event in the SDK: the buffer is always used up. */
  function SdkStop(s: State, i: nat, unmarshal: Unmarshal): State {
    s.(slots := FilledAt(s.slots, i, Buffered(s.buffers, i), unmarshal), buffers := s.buffers - {i})
  }

  /** A stop event in the gateway: without a slot or without input nothing
      happens, and the buffer stays. */
  function GatewayStop(s: State, i: nat, unmarshal: Unmarshal): State {
    if i >= |s.slots| || Buffered(s.buffers, i) == [] then s else SdkStop(s, i, unmarshal)
  }

  function SdkStep(s: State, e: Event, unmarshal: Unmarshal): State {
    if e.BlockStop? then SdkStop(s, e.index, unmarshal) else Advance(s, e)
  }

  function GatewayStep(s: State, e: Event, unmarshal: Unmarshal): State {
    if e.BlockStop? then GatewayStop(s, e.index, unmarshal) else Advance(s, e)
  }

  function SdkFold(events: seq<Event>, unmarshal: Unmarshal): State {
    if events == [] then INITIAL
    else var n := |events| - 1; SdkStep(SdkFold(events[..n], unmarshal), events[n], unmarshal)
  }

  function GatewayFold(events: seq<Event>, unmarshal: Unmarshal): State {
    if events == [] then INITIAL
    else var n := |events| - 1; GatewayStep(GatewayFold(events[..n], unmarshal), events[n], unmarshal)
  }

  // ---------- the end of the stream ----------

  /** Whatever input is still buffered is applied, to every slot at once. */
  function Flushed(s: State, unmarshal: Unmarshal): (slots: Slots)
    ensures |slots| == |s.slots|
  {
    seq(|s.slots|, i requires 0 <= i < |s.slots| => Filled(s.slots[i], Buffered(s.buffers, i), unmarshal))
  }

  function Finished(s: State, unmarshal: Unmarshal): Response {
    s.response.(content := Compact(Flushed(s, unmarshal)))
  }

  /** The response of the SDK's stream. */
  function SdkResponse(events: seq<Event>, unmarshal: Unmarshal): Response {
    Finished(SdkFold(events, unmarshal), unmarshal)
  }

  /** The gateway's response; nothing if no message was seen at all. */
  function GatewayResponse(events: seq<Event>, unmarshal: Unmarshal): Option<Response> {
    var r := Finished(GatewayFold(events, unmarshal), unmarshal);
    if r.kind == [] && r.content == [] && r.id == [] then None else Some(r)
  }

  // ---------- the SDK ----------

  method GrowTo(slots: Slots, n: nat) returns (out: Slots)
    ensures out == Grown(slots, n)
  {
    out := slots;
    while |out| < n
      invariant |slots| <= |out| && (|out| <= n || out == slots)
      invariant out == slots + seq(|out| - |slots|, _ => None)
    {
      out := out + [None];
    }
  }

  /** `applyToolInput` of `readEvents`. */
  method SdkApplyToolInput(s: State, index: nat, unmarshal: Unmarshal) returns (t: State)
    ensures t == SdkStop(s, index, unmarshal)
  {
    if index !in s.buffers {
      assert s.buffers - {index} == s.buffers;
      assert FilledAt(s.slots, index, [], unmarshal) == s.slots;
      return s;
    }
    var raw := s.buffers[index];
    t := s.(buffers := s.buffers - {index});
    if raw == [] || index >= |t.slots| {
      assert FilledAt(s.slots, index, raw, unmarshal) == s.slots;
      return;
    }
    var parsed := unmarshal(raw);
    if parsed.None? {
      assert s.slots[index := s.slots[index]] == s.slots;
      return;
    }
    match t.slots[index] {
      case Some(ToolUse(id, name, _)) =>
        t := t.(slots := t.slots[index := Some(ToolUse(id, name, parsed.value))]);
      case Some(ServerToolUse(id, name, _)) =>
        t := t.(slots := t.slots[index := Some(ServerToolUse(id, name, parsed.value))]);
      case _ =>
        assert s.slots[index := s.slots[index]] == s.slots;
    }
  }

  /** The content accumulation of `readEvents`. */
  method ReadEvents(events: seq<Event>, unmarshal: Unmarshal) returns (response: Response)
    ensures response == SdkResponse(events, unmarshal)
  {
    var s := INITIAL;
    for n := 0 to |events|
      invariant s == SdkFold(events[..n], unmarshal)
    {
      assert events[..n + 1][..n] == events[..n];
      match events[n] {
        case MessageStart(message) => s := s.(response := message);
        case BlockStart(index, block) =>
          var grown := GrowTo(s.slots, index + 1);
          s := s.(slots := grown[index := Some(block)]);
        case BlockDelta(index, delta) =>
          if index < |s.slots| {
            s := s.(slots := s.slots[index := ApplyDelta(s.slots[index], delta)]);
          }
          if delta.InputJSONDelta? {
            s := s.(buffers := s.buffers[index := Buffered(s.buffers, index) + delta.partial]);
          }
        case BlockStop(index) => s := SdkApplyToolInput(s, index, unmarshal);
        case MessageDelta(stopReason, usage) =>
          s := s.(response := s.response.(stopReason := stopReason, usage := usage));
        case OtherEvent(_) =>
      }
    }
    assert events[..|events|] == events;
    // the remaining buffers, in whatever order the map yields them
    ghost var before := s;
    var left := s.buffers.Keys;
    while left != {}
      invariant s.response == before.response && |s.slots| == |before.slots| && s.buffers.Keys == left
      invariant left <= before.buffers.Keys && forall i :: i in left ==> s.buffers[i] == before.buffers[i]
      invariant forall i :: 0 <= i < |s.slots| ==>
        s.slots[i] == if i in left then before.slots[i] else Flushed(before, unmarshal)[i]
      decreases left
    {
      var index :| index in left;
      s := SdkApplyToolInput(s, index, unmarshal);
      left := left - {index};
    }
    assert s.slots == Flushed(before, unmarshal);
    var content := CompactContentBlocks(s.slots);
    response := s.response.(content := content);
  }

  // ---------- the gateway ----------

  /** `applyToolInput` of `materializeMessageResponseFromSSE`. */
  method GatewayApplyToolInput(s: State, index: nat, unmarshal: Unmarshal) returns (t: State)
    ensures t == GatewayStop(s, index, unmarshal)
  {
    if index !in s.buffers || s.buffers[index] == [] || index >= |s.slots| {
      return s;
    }
    var raw := s.buffers[index];
    t := s.(buffers := s.buffers - {index});
    var parsed := unmarshal(raw);
    if parsed.None? {
      assert s.slots[index := s.slots[index]] == s.slots;
      return;
    }
    match t.slots[index] {
      case Some(ToolUse(id, name, _)) =>
        t := t.(slots := t.slots[index := Some(ToolUse(id, name, parsed.value))]);
      case Some(ServerToolUse(id, name, _)) =>
        t := t.(slots := t.slots[index := Some(ServerToolUse(id, name, parsed.value))]);
      case _ =>
        assert s.slots[index := s.slots[index]] == s.slots;
    }
  }

  /** `materializeMessageResponseFromSSE` on decoded events. */
  method MaterializeMessageResponse(events: seq<Event>, unmarshal: Unmarshal) returns (result: Option<Response>)
    ensures result == GatewayResponse(events, unmarshal)
  {
    var s := INITIAL;
    for n := 0 to |events|
      invariant s == GatewayFold(events[..n], unmarshal)
    {
      assert events[..n + 1][..n] == events[..n];
      match events[n] {
        case MessageStart(message) => s := s.(response := message);
        case BlockStart(index, block) =>
          var grown := GrowTo(s.slots, index + 1);
          s := s.(slots := grown[index := Some(block)]);
        case BlockDelta(index, delta) =>
          if index < |s.slots| {
            s := s.(slots := s.slots[index := ApplyDelta(s.slots[index], delta)]);
          }
          if delta.InputJSONDelta? {
            s := s.(buffers := s.buffers[index := Buffered(s.buffers, index) + delta.partial]);
          }
        case BlockStop(index) => s := GatewayApplyToolInput(s, index, unmarshal);
        case MessageDelta(stopReason, usage) =>
          s := s.(response := s.response.(stopReason := stopReason, usage := usage));
        case OtherEvent(_) =>
      }
    }
    assert events[..|events|] == events;
    ghost var before := s;
    var left := s.buffers.Keys;
    while left != {}
      invariant s.response == before.response && |s.slots| == |before.slots| && left <= s.buffers.Keys
      invariant left <= before.buffers.Keys && forall i :: i in left ==> s.buffers[i] == before.buffers[i]
      invariant forall i :: 0 <= i < |s.slots| ==>
        s.slots[i] == if i in left then before.slots[i] else Flushed(before, unmarshal)[i]
      decreases left
    {
      var index :| index in left;
      s := GatewayApplyToolInput(s, index, unmarshal);
      left := left - {index};
    }
    assert s.slots == Flushed(before, unmarshal);
    var content := CompactContentBlocks(s.slots);
    var response := s.response.(content := content);
    if response.kind == [] && |response.content| == 0 && response.id == [] {
      return None;
    }
    return Some(response);
  }
}
