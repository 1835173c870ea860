/** Every input of the frame parsers as lines, and what they make of it. */
module FrameStreams {
  import opened GoStrings
  import opened SseFrames

  // ---------- lines ----------

  /** A line that is not blank: a comment, a field with or without the one space
      that does not belong to its value, or a name alone. */
  datatype Text = Comment(text: Bytes) | Field(name: Bytes, spaced: bool, value: Bytes) | Bare(name: Bytes) {
    function Content(): Bytes {
      match this
      case Comment(text) => Ascii(":") + text
      case Field(name, spaced, value) => name + (if spaced then Ascii(": ") else Ascii(":")) + value
      case Bare(name) => name
    }

    predicate Legal() {
      && LF !in Content()
      && (Field? || Bare? ==> name != [] && 58 !in name)
      && (Field? && !spaced && value != [] ==> value[0] != 32)
    }

    predicate Says(field: Bytes) { !Comment? && name == field }

    function Said(): Bytes {
      if Field? then value else []
    }
  }

  /** A line as it is sent, with CR LF or LF behind it. */
  datatype Sent = Sent(text: Text, cr: bool) {
    /** A carriage return behind the text belongs to the line end. */
    predicate Legal() {
      text.Legal() && (cr || NoTrailingCR(text.Content()))
    }

    function Wire(): Bytes {
      text.Content() + Return(cr)
    }
  }

  function Return(cr: bool): Bytes {
    if cr then [13] else []
  }

  predicate AllLegal(lines: seq<Sent>) {
    forall k :: 0 <= k < |lines| ==> lines[k].Legal()
  }

  function LinesWire(lines: seq<Sent>): Bytes {
    if lines == [] then [] else LinesWire(lines[..|lines| - 1]) + (lines[|lines| - 1].Wire() + [10])
  }

  // ---------- what lines say ----------

  /** The value of the last line that says "event". */
  function EventOf(lines: seq<Sent>): Bytes {
    if lines == [] then []
    else
      var n := |lines| - 1;
      if lines[n].text.Says(Ascii("event")) then lines[n].text.Said() else EventOf(lines[..n])
  }

  /** The values of the lines that say "data", in order. */
  function DataOf(lines: seq<Sent>): seq<Bytes> {
    if lines == [] then []
    else
      var n := |lines| - 1;
      DataOf(lines[..n]) + if lines[n].text.Says(Ascii("data")) then [lines[n].text.Said()] else []
  }

  predicate SaysAnything(lines: seq<Sent>) {
    EventOf(lines) != [] || DataOf(lines) != []
  }

  /** The frames that lines make, if they say anything. */
  function FrameOf(lines: seq<Sent>): seq<Outcome> {
    if SaysAnything(lines) then [Frame(EventOf(lines), Joined(DataOf(lines)))] else []
  }

  /** Lines up to a blank line, which may have a carriage return. */
  datatype Block = Block(lines: seq<Sent>, cr: bool) {
    function Wire(): Bytes {
      LinesWire(lines) + Return(cr) + [10]
    }
  }

  /** The last line of an input may lack its line feed, and even have nothing in it
      but a carriage return. */
  datatype End = Closed | LoneCR | Open(line: Sent) {
    function Wire(): Bytes {
      match this
      case Closed => []
      case LoneCR => [13]
      case Open(line) => line.Wire()
    }

    function Lines(): seq<Sent> {
      if Open? then [line] else []
    }
  }

  /** Blocks, then lines that no blank line follows. */
  datatype Input = Input(blocks: seq<Block>, tail: seq<Sent>, end: End) {
    predicate Legal() {
      && (forall k :: 0 <= k < |blocks| ==> AllLegal(blocks[k].lines))
      && AllLegal(tail) && AllLegal(end.Lines())
    }

    function Wire(): Bytes {
      BlocksWire(blocks) + LinesWire(tail) + end.Wire()
    }
  }

  function BlocksWire(blocks: seq<Block>): Bytes {
    if blocks == [] then [] else blocks[0].Wire() + BlocksWire(blocks[1..])
  }

  function FramesOf(blocks: seq<Block>): seq<Outcome> {
    if blocks == [] then [] else FrameOf(blocks[0].lines) + FramesOf(blocks[1..])
  }

  // ---------- one line ----------

  lemma FieldNames()
    ensures Ascii("event") == EVENT && Ascii("data") == DATA
    ensures Ascii(":") == [COLON] && Ascii(": ") == [COLON, SPACE]
  {
  }

  lemma {:induction false} ColonBehind(name: Bytes, x: Bytes)
    requires COLON !in name
    ensures IndexColon(name + [COLON] + x) == |name|
    decreases |name|
  {
    if name != [] {
      ColonBehind(name[1..], x);
      assert (name + [COLON] + x)[1..] == name[1..] + [COLON] + x;
    }
  }

  lemma NoColon(name: Bytes)
    requires COLON !in name
    ensures SplitAtColon(name) == (name, [])
  {
  }

  lemma FieldIsSplit(name: Bytes, x: Bytes)
    requires COLON !in name
    ensures SplitAtColon(name + [COLON] + x) == (name, DropSpace(x))
  {
    ColonBehind(name, x);
    hide IndexColon, DropSpace;
    var line := name + [COLON] + x;
    assert line[..|name|] == name && line[|name| + 1..] == x;
  }

  lemma ContentIsSplit(t: Text)
    requires t.Legal() && !t.Comment?
    ensures SplitAtColon(t.Content()) == (t.name, t.Said()) && t.Content() != [] && t.Content()[0] != COLON
  {
    FieldNames();
    hide Ascii, SplitAtColon;
    if t.Bare? {
      NoColon(t.name);
    } else {
      var x := (if t.spaced then [SPACE] else []) + t.value;
      FieldIsSplit(t.name, x);
      assert t.Content() == t.name + [COLON] + x;
      assert DropSpace(x) == t.value;
    }
  }

  /** What a line adds to what is known of a frame. */
  lemma LineIsRead(t: Text, d: Draft)
    requires t.Legal()
    ensures t.Content() != []
    ensures d.Read(t.Content()) ==
            Draft(if t.Says(Ascii("event")) then t.Said() else d.event,
                  if t.Says(Ascii("data")) then d.lines + [t.Said()] else d.lines)
  {
    FieldNames();
    assert EVENT[0] != DATA[0];
    hide Ascii, SplitAtColon;
    if !t.Comment? {
      ContentIsSplit(t);
    }
  }

  lemma WireEnds(s: Sent)
    requires s.Legal()
    ensures LF !in s.Wire() && TrimLineEnd(s.Wire() + [LF]) == s.text.Content() && StripCR(s.Wire()) == s.text.Content()
  {
    LineEnd(s.Wire());
    hide TrimLineEnd;
    if s.cr {
      assert s.Wire()[..|s.Wire()| - 1] == s.text.Content();
    } else {
      assert s.Wire() == s.text.Content();
    }
  }

  lemma {:induction false} LinesAreRead(lines: seq<Sent>, rest: Bytes, broken: bool)
    requires AllLegal(lines)
    ensures NextFrom(LinesWire(lines) + rest, broken, EMPTY) ==
            NextFrom(rest, broken, Draft(EventOf(lines), DataOf(lines)))
    decreases |lines|
  {
    hide NextFrom, Sent.Legal, Text.Legal, Text.Content, Text.Says, Text.Said, Draft.Read, TrimLineEnd, CutLine;
    if lines == [] {
      assert LinesWire(lines) + rest == rest;
    } else {
      var n := |lines| - 1;
      var s, front := lines[n], lines[..n];
      LinesAreRead(front, s.Wire() + [LF] + rest, broken);
      assert LinesWire(lines) + rest == LinesWire(front) + (s.Wire() + [LF] + rest);
      OneMoreLine(s, rest, broken, Draft(EventOf(front), DataOf(front)));
      assert DataOf(front) + [] == DataOf(front);
    }
  }

  lemma OneMoreLine(s: Sent, rest: Bytes, broken: bool, d: Draft)
    requires s.Legal()
    ensures NextFrom(s.Wire() + [LF] + rest, broken, d) ==
            NextFrom(rest, broken, Draft(if s.text.Says(Ascii("event")) then s.text.Said() else d.event,
                                         if s.text.Says(Ascii("data")) then d.lines + [s.text.Said()] else d.lines))
  {
    WireEnds(s);
    LineIsRead(s.text, d);
    hide NextFrom, Text.Legal, Text.Content, Text.Says, Text.Said, Draft.Read, TrimLineEnd, CutLine, Sent.Wire;
    CutAt(s.Wire(), rest);
    NextUnfold(s.Wire() + [LF] + rest, s.text.Content(), rest, broken, d);
  }

  // ---------- blocks ----------

  lemma BlankIsRead(cr: bool, rest: Bytes, broken: bool, d: Draft)
    ensures NextFrom(Return(cr) + [LF] + rest, broken, d) ==
            if d.HasContent() then (d.Finish(), rest) else NextFrom(rest, broken, d)
  {
    CutAt(Return(cr), rest);
    LineEnd(Return(cr));
    hide CutLine, TrimLineEnd;
    assert StripCR(Return(cr)) == [];
  }

  lemma BlockIsRead(b: Block, rest: Bytes, broken: bool)
    requires AllLegal(b.lines)
    ensures NextFrom(b.Wire() + rest, broken, EMPTY) ==
            if SaysAnything(b.lines) then (Frame(EventOf(b.lines), Joined(DataOf(b.lines))), rest)
            else NextFrom(rest, broken, EMPTY)
  {
    hide NextFrom, LinesWire, EventOf, DataOf, Joined, Sent.Legal;
    LinesAreRead(b.lines, Return(b.cr) + [LF] + rest, broken);
    assert b.Wire() + rest == LinesWire(b.lines) + (Return(b.cr) + [LF] + rest);
    BlankIsRead(b.cr, rest, broken, Draft(EventOf(b.lines), DataOf(b.lines)));
    JoinedIsJoin(DataOf(b.lines));
  }

  lemma UnfoldOutcomes(s: Bytes, broken: bool)
    ensures var (r, rest) := NextFrom(s, broken, EMPTY);
            Outcomes(s, broken) == if r.Frame? then [r] + Outcomes(rest, broken) else [r]
  {
    hide NextFrom;
  }

  lemma OneBlock(b: Block, behind: Bytes, broken: bool)
    requires AllLegal(b.lines)
    ensures Outcomes(b.Wire() + behind, broken) == FrameOf(b.lines) + Outcomes(behind, broken)
  {
    hide NextFrom, Outcomes, Block.Wire, EventOf, DataOf, AllLegal, Joined, SaysAnything;
    BlockIsRead(b, behind, broken);
    UnfoldOutcomes(b.Wire() + behind, broken);
    UnfoldOutcomes(behind, broken);
    assert [] + Outcomes(behind, broken) == Outcomes(behind, broken);
  }

  lemma {:induction false} BlocksAreRead(blocks: seq<Block>, rest: Bytes, broken: bool)
    requires forall k :: 0 <= k < |blocks| ==> AllLegal(blocks[k].lines)
    ensures Outcomes(BlocksWire(blocks) + rest, broken) == FramesOf(blocks) + Outcomes(rest, broken)
    decreases |blocks|
  {
    hide NextFrom, Outcomes, Block.Wire, AllLegal, FrameOf;
    if blocks == [] {
      assert BlocksWire(blocks) + rest == rest;
      assert FramesOf(blocks) + Outcomes(rest, broken) == Outcomes(rest, broken);
    } else {
      var behind := BlocksWire(blocks[1..]) + rest;
      assert BlocksWire(blocks) + rest == blocks[0].Wire() + behind;
      BlocksAreRead(blocks[1..], rest, broken);
      OneBlock(blocks[0], behind, broken);
      Regroup(FrameOf(blocks[0].lines), FramesOf(blocks[1..]), Outcomes(rest, broken));
    }
  }

  lemma Regroup(a: seq<Outcome>, b: seq<Outcome>, c: seq<Outcome>)
    ensures a + b + c == a + (b + c)
  {
  }

  // ---------- the end of the input ----------

  lemma {:induction false} CutRest(s: Bytes)
    requires LF !in s
    ensures CutLine(s) == Line(s, [], true)
    decreases |s|
  {
    if s != [] {
      CutRest(s[1..]);
      assert s == [s[0]] + s[1..];
    }
  }

  lemma EndIsRead(end: End, broken: bool, lines: seq<Sent>)
    requires AllLegal(end.Lines())
    ensures NextFrom(end.Wire(), broken, Draft(EventOf(lines), DataOf(lines))) ==
            (if broken then ReadError
             else if SaysAnything(lines + end.Lines()) then FrameOf(lines + end.Lines())[0] else EndOfInput, [])
  {
    hide EventOf, DataOf, Joined, Text.Legal, Text.Content, Text.Says, Text.Said, Draft.Read;
    var d, all := Draft(EventOf(lines), DataOf(lines)), lines + end.Lines();
    if end.Open? {
      assert end.Lines()[0] == end.line;
      WireEnds(end.line);
      LineIsRead(end.line.text, d);
      OneMoreSaid(lines, end.line);
    } else {
      assert all == lines;
    }
    assert LF !in end.Wire();
    CutRest(end.Wire());
    hide CutLine, Sent.Wire;
    JoinedIsJoin(DataOf(all));
    TrimOpen(end.Wire());
  }

  lemma OneMoreSaid(lines: seq<Sent>, s: Sent)
    ensures EventOf(lines + [s]) == if s.text.Says(Ascii("event")) then s.text.Said() else EventOf(lines)
    ensures DataOf(lines + [s]) == if s.text.Says(Ascii("data")) then DataOf(lines) + [s.text.Said()] else DataOf(lines)
  {
    assert (lines + [s])[..|lines|] == lines;
    assert DataOf(lines) + [] == DataOf(lines);
  }

  lemma TrimOpen(s: Bytes)
    requires LF !in s
    ensures TrimLineEnd(s) == StripCR(s)
  {
  }

  /** What both parsers yield on an input: one frame for each block that says
      anything, with the last "event" and all "data", then one for the lines at the
      end that no blank line follows, and then the end of the input.  Comments,
      other fields and blank lines yield nothing.  If reading breaks off, the lines
      at the end are not delivered and the error is. */
  lemma {:induction false} InputIsReadAsSent(input: Input, broken: bool)
    requires input.Legal()
    ensures Outcomes(input.Wire(), broken) ==
            FramesOf(input.blocks)
            + (if broken then [ReadError] else FrameOf(input.tail + input.end.Lines()) + [EndOfInput])
  {
    hide NextFrom, Outcomes, BlocksWire, LinesWire, End.Wire, EventOf, DataOf, FramesOf, AllLegal, Joined;
    var rest := LinesWire(input.tail) + input.end.Wire();
    assert input.Wire() == BlocksWire(input.blocks) + rest;
    BlocksAreRead(input.blocks, rest, broken);
    LinesAreRead(input.tail, input.end.Wire(), broken);
    EndIsRead(input.end, broken, input.tail);
    UnfoldOutcomes(rest, broken);
    NothingIsRead();
  }

  lemma NothingIsRead()
    ensures Outcomes([], false) == [EndOfInput]
  {
  }

  // ---------- every input ----------

  /** Every line that is not blank is a comment, a field or a name alone. */
  lemma LineIsText(s: Bytes) returns (t: Text)
    requires s != [] && LF !in s
    ensures t.Legal() && t.Content() == s
  {
    FieldNames();
    hide Ascii;
    var i := IndexColon(s);
    if i < 0 {
      t := Bare(s);
    } else if i == 0 {
      t := Comment(s[1..]);
      assert s == [COLON] + s[1..];
    } else {
      var spaced := i + 1 < |s| && s[i + 1] == SPACE;
      t := Field(s[..i], spaced, if spaced then s[i + 2..] else s[i + 1..]);
      assert s == s[..i] + [COLON] + s[i + 1..];
      assert spaced ==> s[i + 1..] == [SPACE] + s[i + 2..];
      assert t.Content() == s;
    }
  }

  lemma LineIsSent(s: Bytes) returns (l: Sent)
    requires LF !in s && StripCR(s) != []
    ensures l.Legal() && l.Wire() == s
  {
    var cr := s[|s| - 1] == CR;
    var content := StripCR(s);
    assert s == content + Return(cr);
    var t := LineIsText(content);
    hide Text.Legal, Text.Content;
    l := Sent(t, cr);
  }

  /** Every input consists of such lines, so both parsers are known on all of them. */
  lemma {:induction false} EveryInputIsLines(s: Bytes) returns (input: Input)
    ensures input.Legal() && input.Wire() == s
    decreases |s|
  {
    hide Sent.Legal, Sent.Wire, StripCR;
    var l := CutLine(s);
    var body := CutLineBody(s);
    hide CutLine;
    if l.last {
      assert s == body;
      input := LastLine(body);
    } else {
      assert s == body + [LF] + l.rest;
      var behind := EveryInputIsLines(l.rest);
      if StripCR(body) == [] {
        BlankBody(body);
        input := FirstBlank(body != [], behind);
      } else {
        var line := LineIsSent(body);
        input := FirstLine(line, behind);
      }
      hide Input.Legal, Input.Wire;
    }
  }

  lemma BlankBody(body: Bytes)
    requires StripCR(body) == []
    ensures body == Return(body != [])
  {
  }

  lemma LastLine(body: Bytes) returns (input: Input)
    requires LF !in body
    ensures input.Legal() && input.Wire() == body
  {
    hide Sent.Legal, Sent.Wire, StripCR;
    if StripCR(body) != [] {
      var line := LineIsSent(body);
      input := Input([], [], Open(line));
    } else {
      BlankBody(body);
      input := Input([], [], if body == [] then Closed else LoneCR);
    }
  }

  lemma FirstBlank(cr: bool, behind: Input) returns (input: Input)
    requires behind.Legal()
    ensures input.Legal() && input.Wire() == Return(cr) + [LF] + behind.Wire()
  {
    hide Sent.Legal, LinesWire, End.Wire, Return;
    var b := Block([], cr);
    NoLines();
    input := behind.(blocks := [b] + behind.blocks);
    OneMoreBlock(b, behind.blocks);
    hide BlocksWire;
    assert b.Wire() == Return(cr) + [LF];
  }

  lemma OneMoreBlock(b: Block, blocks: seq<Block>)
    ensures BlocksWire([b] + blocks) == b.Wire() + BlocksWire(blocks)
  {
    assert ([b] + blocks)[1..] == blocks;
  }

  lemma NoLines()
    ensures LinesWire([]) == []
  {
  }

  lemma {:induction false} OneLineFirst(line: Sent, lines: seq<Sent>)
    ensures LinesWire([line] + lines) == line.Wire() + [LF] + LinesWire(lines)
    decreases |lines|
  {
    hide Sent.Wire;
    if lines == [] {
      assert [line] + lines == [line];
      assert [line][..0] == [];
    } else {
      var n := |lines| - 1;
      OneLineFirst(line, lines[..n]);
      assert ([line] + lines)[..n + 1] == [line] + lines[..n];
      var start, before, last := line.Wire() + [LF], LinesWire(lines[..n]), lines[n].Wire() + [10];
      assert start + before + last == start + (before + last);
    }
  }

  lemma FirstLine(line: Sent, behind: Input) returns (input: Input)
    requires line.Legal() && behind.Legal()
    ensures input.Legal() && input.Wire() == line.Wire() + [LF] + behind.Wire()
  {
    hide Sent.Legal, Sent.Wire, LinesWire, End.Wire;
    if behind.blocks == [] {
      OneLineFirst(line, behind.tail);
      input := behind.(tail := [line] + behind.tail);
    } else {
      var b := behind.blocks[0];
      OneLineFirst(line, b.lines);
      var more := b.(lines := [line] + b.lines);
      input := behind.(blocks := [more] + behind.blocks[1..]);
      assert input.blocks[1..] == behind.blocks[1..];
      assert more.Wire() == line.Wire() + [LF] + b.Wire();
    }
  }
}
