/** Exactly which streams the two accumulators turn into the same content, however
    tool inputs are decoded. */
module AccumulatorAgreement {
  import opened GoStrings
  import opened StreamTypes
  import opened Accumulators
  import opened AccumulatorProperties

  // ---------- what a stream does to one slot ----------

  /** The block of index `i` as it was last opened, with the text it has received
      and without any tool input. */
  function Shape(events: seq<Event>, i: nat): Option<Block> {
    if events == [] then None
    else
      var n := |events| - 1;
      match events[n]
      case BlockStart(j, block) => if j == i then Some(block) else Shape(events[..n], i)
      case BlockDelta(j, d) => if j == i then ApplyDelta(Shape(events[..n], i), d) else Shape(events[..n], i)
      case _ => Shape(events[..n], i)
  }

  /** The inputs a slot was filled with since it was last opened, and the input
      that is still buffered. */
  datatype Trail = Trail(raws: seq<Bytes>, buffer: Bytes) {
    function Take(e: Event): Trail {
      match e
      case BlockStart(_, _) => this.(raws := [])
      case BlockDelta(_, InputJSONDelta(partial)) => this.(buffer := buffer + partial)
      case BlockStop(_) => Trail(raws + [buffer], [])
      case _ => this
    }

    /** With what is still buffered at the end of the stream. */
    function All(): seq<Bytes> {
      raws + [buffer]
    }
  }

  function SdkTrail(events: seq<Event>, i: nat): Trail {
    if events == [] then Trail([], [])
    else
      var n := |events| - 1;
      var t := SdkTrail(events[..n], i);
      if Concerns(events[n], i) then t.Take(events[n]) else t
  }

  function GatewayTrail(events: seq<Event>, i: nat): Trail {
    if events == [] then Trail([], [])
    else
      var n := |events| - 1;
      var t := GatewayTrail(events[..n], i);
      if !Concerns(events[n], i) then t
      else if events[n].BlockStop? && (i >= Width(events[..n]) || t.buffer == []) then t
      else t.Take(events[n])
  }

  /** A slot filled with one input after the other. */
  function Applied(shape: Option<Block>, raws: seq<Bytes>, unmarshal: Unmarshal): Option<Block> {
    if raws == [] then shape
    else var n := |raws| - 1; Filled(Applied(shape, raws[..n], unmarshal), raws[n], unmarshal)
  }

  lemma AppliedOneMore(shape: Option<Block>, raws: seq<Bytes>, raw: Bytes, unmarshal: Unmarshal)
    ensures Applied(shape, raws + [raw], unmarshal) == Filled(Applied(shape, raws, unmarshal), raw, unmarshal)
  {
    assert (raws + [raw])[..|raws|] == raws;
  }

  lemma {:induction false} DeltasAndFillsCommute(shape: Option<Block>, raws: seq<Bytes>, d: Delta, unmarshal: Unmarshal)
    ensures ApplyDelta(Applied(shape, raws, unmarshal), d) == Applied(ApplyDelta(shape, d), raws, unmarshal)
    decreases |raws|
  {
    if raws != [] {
      DeltasAndFillsCommute(shape, raws[..|raws| - 1], d, unmarshal);
    }
  }

  lemma {:induction false} HolesStay(raws: seq<Bytes>, unmarshal: Unmarshal)
    ensures Applied(None, raws, unmarshal) == None
    decreases |raws|
  {
    if raws != [] {
      HolesStay(raws[..|raws| - 1], unmarshal);
    }
  }

  /** The cell of an index is its shape filled along its trail. */
  predicate Follows(c: Cell, shape: Option<Block>, t: Trail, unmarshal: Unmarshal) {
    c == Cell(Applied(shape, t.raws, unmarshal), t.buffer)
  }

  /** One event of an index, or of another one. */
  lemma CellFollows(c: Cell, shape: Option<Block>, t: Trail, e: Event, i: nat, unmarshal: Unmarshal)
    requires Concerns(e, i) && Follows(c, shape, t, unmarshal)
    ensures var shape' :=
              match e
              case BlockStart(_, b) => Some(b)
              case BlockDelta(_, d) => ApplyDelta(shape, d)
              case _ => shape;
            Follows(CellStep(c, e, unmarshal), shape', t.Take(e), unmarshal)
  {
    hide ApplyDelta, Filled;
    match e
    case BlockDelta(_, d) => DeltasAndFillsCommute(shape, t.raws, d, unmarshal);
    case BlockStop(_) => AppliedOneMore(shape, t.raws, t.buffer, unmarshal);
    case _ =>
  }

  lemma {:induction false} SdkFollows(events: seq<Event>, i: nat, unmarshal: Unmarshal)
    ensures Follows(Cells(SdkFold(events, unmarshal), i), Shape(events, i), SdkTrail(events, i), unmarshal)
    decreases |events|
  {
    hide SdkStep, CellStep, Applied, ApplyDelta, Trail.Take;
    if events == [] {
      assert Applied(None, [], unmarshal) == None by { HolesStay([], unmarshal); }
    } else {
      var n := |events| - 1;
      var e, before := events[n], SdkFold(events[..n], unmarshal);
      SdkFollows(events[..n], i, unmarshal);
      StepCell(before, e, i, unmarshal);
      if Concerns(e, i) {
        CellFollows(Cells(before, i), Shape(events[..n], i), SdkTrail(events[..n], i), e, i, unmarshal);
      }
    }
  }

  lemma GatewayStepCell(s: State, e: Event, i: nat, unmarshal: Unmarshal)
    ensures Cells(GatewayStep(s, e, unmarshal), i) ==
            if !Concerns(e, i) || (e.BlockStop? && (i >= |s.slots| || Buffered(s.buffers, i) == [])) then Cells(s, i)
            else CellStep(Cells(s, i), e, unmarshal)
  {
    hide SdkStop, Advance, CellStep;
    StepCell(s, e, i, unmarshal);
  }

  lemma {:induction false} GatewayWidth(events: seq<Event>, unmarshal: Unmarshal)
    ensures |GatewayFold(events, unmarshal).slots| == Width(events)
    decreases |events|
  {
    hide Filled, ApplyDelta;
    if events != [] {
      GatewayWidth(events[..|events| - 1], unmarshal);
    }
  }

  lemma {:induction false} GatewayFollows(events: seq<Event>, i: nat, unmarshal: Unmarshal)
    ensures Follows(Cells(GatewayFold(events, unmarshal), i), Shape(events, i), GatewayTrail(events, i), unmarshal)
    decreases |events|
  {
    hide GatewayStep, CellStep, Applied, ApplyDelta, Trail.Take, Width;
    if events == [] {
      assert Applied(None, [], unmarshal) == None by { HolesStay([], unmarshal); }
    } else {
      var n := |events| - 1;
      var e, before := events[n], GatewayFold(events[..n], unmarshal);
      GatewayFollows(events[..n], i, unmarshal);
      GatewayWidth(events[..n], unmarshal);
      GatewayStepCell(before, e, i, unmarshal);
      if Concerns(e, i) {
        CellFollows(Cells(before, i), Shape(events[..n], i), GatewayTrail(events[..n], i), e, i, unmarshal);
      }
    }
  }

  /** The slots at the end, input that is still buffered included. */
  lemma FinalSlots(events: seq<Event>, i: nat, unmarshal: Unmarshal)
    ensures SlotAt(Flushed(SdkFold(events, unmarshal), unmarshal), i) ==
            Applied(Shape(events, i), SdkTrail(events, i).All(), unmarshal)
    ensures SlotAt(Flushed(GatewayFold(events, unmarshal), unmarshal), i) ==
            Applied(Shape(events, i), GatewayTrail(events, i).All(), unmarshal)
  {
    hide SdkFold, GatewayFold, Applied, Shape, SdkTrail, GatewayTrail, Filled, Flushed;
    SdkFollows(events, i, unmarshal);
    GatewayFollows(events, i, unmarshal);
    FlushedCell(SdkFold(events, unmarshal), i, unmarshal);
    FlushedCell(GatewayFold(events, unmarshal), i, unmarshal);
    AppliedOneMore(Shape(events, i), SdkTrail(events, i).raws, SdkTrail(events, i).buffer, unmarshal);
    AppliedOneMore(Shape(events, i), GatewayTrail(events, i).raws, GatewayTrail(events, i).buffer, unmarshal);
  }

  // ---------- the input that wins ----------

  predicate IsTool(slot: Option<Block>) {
    slot.Some? && (slot.value.ToolUse? || slot.value.ServerToolUse?)
  }

  /** The last input that can be decoded. */
  function LastParsed(raws: seq<Bytes>, unmarshal: Unmarshal, initial: Input): Input {
    if raws == [] then initial
    else
      var n := |raws| - 1;
      if raws[n] != [] && unmarshal(raws[n]).Some? then unmarshal(raws[n]).value
      else LastParsed(raws[..n], unmarshal, initial)
  }

  lemma {:induction false} ToolIsLastParsed(shape: Option<Block>, raws: seq<Bytes>, unmarshal: Unmarshal)
    requires IsTool(shape)
    ensures Applied(shape, raws, unmarshal) ==
            Some(shape.value.(input := LastParsed(raws, unmarshal, shape.value.input)))
    decreases |raws|
  {
    if raws != [] {
      ToolIsLastParsed(shape, raws[..|raws| - 1], unmarshal);
    }
  }

  lemma {:induction false} OthersStay(shape: Option<Block>, raws: seq<Bytes>, unmarshal: Unmarshal)
    requires !IsTool(shape)
    ensures Applied(shape, raws, unmarshal) == shape
    decreases |raws|
  {
    if raws != [] {
      OthersStay(shape, raws[..|raws| - 1], unmarshal);
    }
  }

  function Without(raws: seq<Bytes>, raw: Bytes): (out: seq<Bytes>)
    ensures forall r :: r in out <==> r in raws && r != raw
  {
    if raws == [] then []
    else
      var n := |raws| - 1;
      Without(raws[..n], raw) + if raws[n] == raw then [] else [raws[n]]
  }

  /** The different non-empty inputs, in the order of their last occurrence. */
  function Latest(raws: seq<Bytes>): seq<Bytes> {
    if raws == [] then []
    else
      var n := |raws| - 1;
      if raws[n] == [] then Latest(raws[..n]) else Without(Latest(raws[..n]), raws[n]) + [raws[n]]
  }

  predicate Distinct(raws: seq<Bytes>) {
    && (forall k :: 0 <= k < |raws| ==> raws[k] != [])
    && forall i, j :: 0 <= i < j < |raws| ==> raws[i] != raws[j]
  }

  lemma {:induction false} WithoutIsDistinct(raws: seq<Bytes>, raw: Bytes)
    requires Distinct(raws)
    ensures Distinct(Without(raws, raw))
    decreases |raws|
  {
    if raws != [] {
      var n := |raws| - 1;
      WithoutIsDistinct(raws[..n], raw);
      assert raws[n] !in raws[..n];
    }
  }

  lemma {:induction false} LatestIsDistinct(raws: seq<Bytes>)
    ensures Distinct(Latest(raws))
    decreases |raws|
  {
    if raws != [] {
      var n := |raws| - 1;
      LatestIsDistinct(raws[..n]);
      WithoutIsDistinct(Latest(raws[..n]), raws[n]);
      var before := Without(Latest(raws[..n]), raws[n]);
      forall k | 0 <= k < |before|
        ensures before[k] != raws[n]
      {
        assert before[k] in before;
      }
    }
  }

  lemma LastParsedOneMore(raws: seq<Bytes>, raw: Bytes, unmarshal: Unmarshal, initial: Input)
    ensures LastParsed(raws + [raw], unmarshal, initial) ==
            if raw != [] && unmarshal(raw).Some? then unmarshal(raw).value else LastParsed(raws, unmarshal, initial)
  {
    assert (raws + [raw])[..|raws|] == raws;
  }

  lemma {:induction false} WithoutUndecodable(raws: seq<Bytes>, raw: Bytes, unmarshal: Unmarshal, initial: Input)
    requires raw == [] || unmarshal(raw).None?
    ensures LastParsed(Without(raws, raw), unmarshal, initial) == LastParsed(raws, unmarshal, initial)
    decreases |raws|
  {
    if raws != [] {
      var n := |raws| - 1;
      var before := Without(raws[..n], raw);
      WithoutUndecodable(raws[..n], raw, unmarshal, initial);
      if raws[n] == raw {
        assert before + [] == before;
      } else {
        LastParsedOneMore(before, raws[n], unmarshal, initial);
      }
    }
  }

  /** Only the last occurrence of each input matters. */
  lemma {:induction false} LatestDecides(raws: seq<Bytes>, unmarshal: Unmarshal, initial: Input)
    ensures LastParsed(Latest(raws), unmarshal, initial) == LastParsed(raws, unmarshal, initial)
    decreases |raws|
  {
    if raws != [] {
      var n := |raws| - 1;
      LatestDecides(raws[..n], unmarshal, initial);
      if raws[n] != [] {
        LastParsedOneMore(Without(Latest(raws[..n]), raws[n]), raws[n], unmarshal, initial);
        if unmarshal(raws[n]).None? {
          WithoutUndecodable(Latest(raws[..n]), raws[n], unmarshal, initial);
        }
      }
    }
  }

  lemma {:induction false} NothingParsed(raws: seq<Bytes>, unmarshal: Unmarshal, initial: Input)
    requires forall r :: r in raws ==> unmarshal(r).None?
    ensures LastParsed(raws, unmarshal, initial) == initial
    decreases |raws|
  {
    if raws != [] {
      var n := |raws| - 1;
      assert raws[n] in raws && forall r :: r in raws[..n] ==> r in raws;
      NothingParsed(raws[..n], unmarshal, initial);
    }
  }

  /** Different orders can be told apart by a decoder that knows only two inputs. */
  lemma {:induction false} TellApart(a: seq<Bytes>, b: seq<Bytes>, initial: Input) returns (unmarshal: Unmarshal)
    requires Distinct(a) && Distinct(b) && a != b
    ensures LastParsed(a, unmarshal, initial) != LastParsed(b, unmarshal, initial)
    ensures forall r :: unmarshal(r).Some? ==> r in a || r in b
    decreases |a|
  {
    var x: Input, y: Input := initial + [1], initial + [2];
    if a == [] {
      var r := b[|b| - 1];
      unmarshal := raw => if raw == r then Some(x) else None;
    } else if b == [] {
      var r := a[|a| - 1];
      unmarshal := raw => if raw == r then Some(x) else None;
    } else {
      var d, e := a[|a| - 1], b[|b| - 1];
      if d != e {
        unmarshal := raw => if raw == d then Some(x) else if raw == e then Some(y) else None;
        assert x[|initial|] != y[|initial|];
      } else {
        var a', b' := a[..|a| - 1], b[..|b| - 1];
        assert a == a' + [d] && b == b' + [d];
        unmarshal := TellApart(a', b', initial);
        assert d !in a' && d !in b';
        LastParsedOneMore(a', d, unmarshal, initial);
        LastParsedOneMore(b', d, unmarshal, initial);
      }
    }
  }

  // ---------- whole streams ----------

  /** However tool inputs are decoded, both sides have the same content. */
  ghost predicate AgreeAlways(events: seq<Event>) {
    forall unmarshal: Unmarshal :: SdkResponse(events, unmarshal).content == GatewayContent(events, unmarshal)
  }

  /** Every slot that ends as a tool call has been filled, since it was last opened,
      with the same inputs on both sides, each counted at its last time. */
  ghost predicate SameInputs(events: seq<Event>) {
    forall i: nat :: IsTool(Shape(events, i)) ==>
      Latest(SdkTrail(events, i).All()) == Latest(GatewayTrail(events, i).All())
  }

  lemma SlotsAgree(events: seq<Event>, i: nat, unmarshal: Unmarshal)
    requires IsTool(Shape(events, i)) ==> Latest(SdkTrail(events, i).All()) == Latest(GatewayTrail(events, i).All())
    ensures SlotAt(Flushed(SdkFold(events, unmarshal), unmarshal), i) ==
            SlotAt(Flushed(GatewayFold(events, unmarshal), unmarshal), i)
  {
    hide SdkFold, GatewayFold, Flushed, Applied, Shape, SdkTrail, GatewayTrail, Latest, LastParsed, Trail.All;
    var shape, f, g := Shape(events, i), SdkTrail(events, i).All(), GatewayTrail(events, i).All();
    FinalSlots(events, i, unmarshal);
    if IsTool(shape) {
      ToolIsLastParsed(shape, f, unmarshal);
      ToolIsLastParsed(shape, g, unmarshal);
      LatestDecides(f, unmarshal, shape.value.input);
      LatestDecides(g, unmarshal, shape.value.input);
    } else {
      OthersStay(shape, f, unmarshal);
      OthersStay(shape, g, unmarshal);
    }
  }

  lemma SlotsDiffer(events: seq<Event>, i: nat) returns (unmarshal: Unmarshal)
    requires IsTool(Shape(events, i)) && Latest(SdkTrail(events, i).All()) != Latest(GatewayTrail(events, i).All())
    ensures SlotAt(Flushed(SdkFold(events, unmarshal), unmarshal), i) !=
            SlotAt(Flushed(GatewayFold(events, unmarshal), unmarshal), i)
  {
    hide SdkFold, GatewayFold, Flushed, Applied, Shape, SdkTrail, GatewayTrail, Latest, LastParsed, Trail.All, Distinct;
    var shape, f, g := Shape(events, i), SdkTrail(events, i).All(), GatewayTrail(events, i).All();
    LatestIsDistinct(f);
    LatestIsDistinct(g);
    unmarshal := TellApart(Latest(f), Latest(g), shape.value.input);
    FinalSlots(events, i, unmarshal);
    ToolIsLastParsed(shape, f, unmarshal);
    ToolIsLastParsed(shape, g, unmarshal);
    LatestDecides(f, unmarshal, shape.value.input);
    LatestDecides(g, unmarshal, shape.value.input);
  }

  lemma SameHoles(events: seq<Event>, i: nat, unmarshal: Unmarshal)
    ensures SlotAt(Flushed(SdkFold(events, unmarshal), unmarshal), i).None? <==>
            SlotAt(Flushed(GatewayFold(events, unmarshal), unmarshal), i).None?
  {
    hide SdkFold, GatewayFold, Flushed, Applied, Shape, SdkTrail, GatewayTrail, Trail.All;
    var shape, f, g := Shape(events, i), SdkTrail(events, i).All(), GatewayTrail(events, i).All();
    FinalSlots(events, i, unmarshal);
    if IsTool(shape) {
      ToolIsLastParsed(shape, f, unmarshal);
      ToolIsLastParsed(shape, g, unmarshal);
    } else {
      OthersStay(shape, f, unmarshal);
      OthersStay(shape, g, unmarshal);
    }
  }

  /** Slots with the same holes are compacted alike only if they are alike. */
  lemma {:induction false} CompactIsInjective(s: Slots, t: Slots)
    requires |s| == |t| && Compact(s) == Compact(t)
    requires forall i :: 0 <= i < |s| ==> (s[i].None? <==> t[i].None?)
    ensures s == t
    decreases |s|
  {
    if s != [] {
      var n := |s| - 1;
      var c, d := Compact(s[..n]), Compact(t[..n]);
      if s[n].Some? {
        assert c == (c + [s[n].value])[..|Compact(s)| - 1] && d == (d + [t[n].value])[..|Compact(t)| - 1];
        assert Compact(s)[|Compact(s)| - 1] == s[n].value && Compact(t)[|Compact(t)| - 1] == t[n].value;
      } else {
        assert c + [] == c && d + [] == d;
      }
      CompactIsInjective(s[..n], t[..n]);
      assert s == s[..n] + [s[n]] && t == t[..n] + [t[n]];
    }
  }

  /** Exactly when the two accumulators agree on a stream, however tool inputs are
      decoded: when every slot that ends as a tool call was filled with the same
      inputs on both sides since it was last opened. */
  lemma {:induction false} AgreeAlwaysIff(events: seq<Event>)
    ensures AgreeAlways(events) <==> SameInputs(events)
  {
    hide SdkFold, GatewayFold, Shape, SdkTrail, GatewayTrail, Latest, Trail.All, Compact, Width;
    if SameInputs(events) {
      forall unmarshal: Unmarshal
        ensures SdkResponse(events, unmarshal).content == GatewayContent(events, unmarshal)
      {
        forall i: nat
          ensures SlotAt(Flushed(SdkFold(events, unmarshal), unmarshal), i) ==
                  SlotAt(Flushed(GatewayFold(events, unmarshal), unmarshal), i)
        {
          SlotsAgree(events, i, unmarshal);
        }
        CompactIgnoresHoles(
          Flushed(SdkFold(events, unmarshal), unmarshal), Flushed(GatewayFold(events, unmarshal), unmarshal));
      }
    } else {
      var i: nat :|
        IsTool(Shape(events, i)) && Latest(SdkTrail(events, i).All()) != Latest(GatewayTrail(events, i).All());
      var unmarshal := SlotsDiffer(events, i);
      ContentsDiffer(events, i, unmarshal);
    }
  }

  lemma ContentsDiffer(events: seq<Event>, i: nat, unmarshal: Unmarshal)
    requires SlotAt(Flushed(SdkFold(events, unmarshal), unmarshal), i) !=
             SlotAt(Flushed(GatewayFold(events, unmarshal), unmarshal), i)
    ensures SdkResponse(events, unmarshal).content != GatewayContent(events, unmarshal)
  {
    hide SdkFold, GatewayFold, Compact, Width;
    var s, t := Flushed(SdkFold(events, unmarshal), unmarshal), Flushed(GatewayFold(events, unmarshal), unmarshal);
    FoldShape(events, i, unmarshal);
    GatewayWidth(events, unmarshal);
    if Compact(s) == Compact(t) {
      forall k | 0 <= k < |s|
        ensures s[k].None? <==> t[k].None?
      {
        SameHoles(events, k, unmarshal);
      }
      CompactIsInjective(s, t);
    }
  }
}
