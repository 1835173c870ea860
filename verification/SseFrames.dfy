/** Server-sent-event frames: the SDK's `sseParser`, the core `sseframe.Parser`
    and the gateway's `sse.Writer`.  Unlike section 9.2.6 of the WHATWG HTML
    standard, both parsers deliver a partial frame at the end of the input,
    deliver a frame that only names an event, and do not take a lone CR for a
    line end. */
module SseFrames {
  import opened GoStrings

  const EVENT: Bytes := [101, 118, 101, 110, 116]  // "event"
  const DATA: Bytes := [100, 97, 116, 97]          // "data"

  /** What one call of `Next` returns. */
  datatype Outcome = Frame(event: Bytes, data: Bytes) | EndOfInput | ReadError

  // ---------- reading lines ----------

  datatype Line = Line(text: Bytes, rest: Bytes, last: bool)

  /** `ReadString('\n')`: up to and including the next line feed; everything, and
      the end of the input, if there is none. */
  function CutLine(s: Bytes): (l: Line)
    ensures l.text + l.rest == s && l.last == (LF !in s)
    ensures l.last ==> l.rest == []
    ensures !l.last ==> |l.rest| < |s|
  {
    if s == [] then Line([], [], true)
    else if s[0] == LF then Line([LF], s[1..], false)
    else var l := CutLine(s[1..]); assert s == [s[0]] + s[1..]; l.(text := [s[0]] + l.text)
  }

  class Reader {
    var rest: Bytes
    const broken: bool  // the input ends in an error instead of io.EOF

    constructor (input: Bytes, broken: bool)
      ensures rest == input && this.broken == broken
    {
      rest := input;
      this.broken := broken;
    }

    method ReadString() returns (text: Bytes, last: bool)
      modifies this
      ensures CutLine(old(rest)) == Line(text, rest, last)
    {
      var l := CutLine(rest);
      rest := l.rest;
      return l.text, l.last;
    }
  }

  function StripCR(s: Bytes): Bytes {
    if s != [] && s[|s| - 1] == CR then s[..|s| - 1] else s
  }

  /** The line without its line feed and one carriage return before it. */
  function TrimLineEnd(s: Bytes): Bytes {
    StripCR(if s != [] && s[|s| - 1] == LF then s[..|s| - 1] else s)
  }

  // ---------- fields ----------

  /** `strings.IndexByte(s, ':')`. */
  function IndexColon(s: Bytes): (i: int)
    ensures -1 <= i < |s|
    ensures i >= 0 ==> s[i] == COLON && COLON !in s[..i]
    ensures i < 0 ==> COLON !in s
  {
    if s == [] then -1
    else if s[0] == COLON then 0
    else
      var i := IndexColon(s[1..]);
      if i < 0 then -1 else assert s[..i + 1] == [s[0]] + s[1..][..i]; i + 1
  }

  function DropSpace(value: Bytes): Bytes {
    if value != [] && value[0] == SPACE then value[1..] else value
  }

  function SplitAtColon(line: Bytes): (Bytes, Bytes) {
    var i := IndexColon(line);
    if i < 0 then (line, []) else (line[..i], DropSpace(line[i + 1..]))
  }

  /** `splitSSEField` of the SDK, by index. */
  method SplitSSEField(line: Bytes) returns (field: Bytes, value: Bytes)
    ensures (field, value) == SplitAtColon(line)
  {
    var index := IndexColon(line);
    if index < 0 {
      return line, [];
    }
    field := line[..index];
    value := line[index + 1..];
    if value != [] && value[0] == SPACE {
      value := value[1..];
    }
  }

  /** `strings.Cut(s, ":")`. */
  function Cut(s: Bytes): (Bytes, Bytes, bool) {
    if s == [] then ([], [], false)
    else if s[0] == COLON then ([], s[1..], true)
    else var (before, after, found) := Cut(s[1..]); ([s[0]] + before, after, found)
  }

  lemma {:induction false} CutIsIndex(s: Bytes)
    ensures var i := IndexColon(s);
            Cut(s) == if i < 0 then (s, [], false) else (s[..i], s[i + 1..], true)
    decreases |s|
  {
    if s != [] && s[0] != COLON {
      CutIsIndex(s[1..]);
      assert s == [s[0]] + s[1..];
      var i := IndexColon(s);
      if i >= 0 {
        assert s[..i] == [s[0]] + s[1..][..i - 1] && s[1..][i..] == s[i + 1..];
      }
    }
  }

  /** `splitField` of the core parser, by `strings.Cut`. */
  method SplitField(line: Bytes) returns (field: Bytes, value: Bytes)
    ensures (field, value) == SplitAtColon(line)
  {
    CutIsIndex(line);
    var (before, after, found) := Cut(line);
    if !found {
      return line, [];
    }
    field, value := before, after;
    if value != [] && value[0] == SPACE {
      value := value[1..];
    }
  }

  // ---------- frames ----------

  /** The frame under construction. */
  datatype Draft = Draft(event: Bytes, lines: seq<Bytes>) {
    predicate HasContent() {
      event != [] || lines != []
    }

    function Finish(): Outcome {
      if HasContent() then Frame(event, JoinLines(lines)) else EndOfInput
    }

    function Take(field: Bytes, value: Bytes): Draft {
      if field == EVENT then this.(event := value)
      else if field == DATA then this.(lines := lines + [value])
      else this
    }

    /** A non-blank line: a comment, or a field. */
    function Read(line: Bytes): Draft
      requires line != []
    {
      if line[0] == COLON then this else var (field, value) := SplitAtColon(line); Take(field, value)
    }
  }

  const EMPTY := Draft([], [])

  /** What `Next` returns on the remaining input `s`, and what it leaves of it. */
  function NextFrom(s: Bytes, broken: bool, d: Draft): (r: (Outcome, Bytes))
    ensures |r.1| <= |s|
    ensures r.0.Frame? && !d.HasContent() ==> |r.1| < |s|
    decreases |s|
  {
    var l := CutLine(s);
    var line := TrimLineEnd(l.text);
    if l.last && broken then (ReadError, l.rest)
    else if line == [] && (d.HasContent() || l.last) then (d.Finish(), l.rest)
    else if line == [] then NextFrom(l.rest, broken, d)
    else if l.last then (d.Read(line).Finish(), l.rest)
    else NextFrom(l.rest, broken, d.Read(line))
  }

  /** The SDK's parser. */
  class SSEParser {
    const reader: Reader

    constructor (reader: Reader)
      ensures this.reader == reader
    {
      this.reader := reader;
    }

    method Next() returns (r: Outcome)
      modifies reader
      ensures (r, reader.rest) == NextFrom(old(reader.rest), reader.broken, EMPTY)
    {
      var eventType: Bytes := [];
      var dataLines: seq<Bytes> := [];
      while true
        invariant NextFrom(old(reader.rest), reader.broken, EMPTY) ==
                  NextFrom(reader.rest, reader.broken, Draft(eventType, dataLines))
        decreases |reader.rest|
      {
        var line, last := reader.ReadString();
        var eof := last && !reader.broken;
        if last && !eof {
          return ReadError;
        }
        if line != [] {
          line := TrimLineEnd(line);
        }
        if line == [] {
          if |dataLines| == 0 && eventType == [] {
            if eof {
              return EndOfInput;
            }
            continue;
          }
          return Frame(eventType, JoinLines(dataLines));
        }
        if line[0] == COLON {
          if eof {
            if |dataLines| == 0 && eventType == [] {
              return EndOfInput;
            }
            return Frame(eventType, JoinLines(dataLines));
          }
          continue;
        }
        var field, value := SplitSSEField(line);
        if field == EVENT {
          eventType := value;
        } else if field == DATA {
          dataLines := dataLines + [value];
        }
        if eof {
          if |dataLines| == 0 && eventType == [] {
            return EndOfInput;
          }
          return Frame(eventType, JoinLines(dataLines));
        }
      }
    }
  }

  /** The core parser. */
  class Parser {
    const reader: Reader

    constructor (reader: Reader)
      ensures this.reader == reader
    {
      this.reader := reader;
    }

    static predicate HasFrameContent(event: Bytes, dataLines: seq<Bytes>) {
      event != [] || |dataLines| > 0
    }

    method Next() returns (r: Outcome)
      modifies reader
      ensures (r, reader.rest) == NextFrom(old(reader.rest), reader.broken, EMPTY)
    {
      var event: Bytes := [];
      var dataLines: seq<Bytes> := [];
      while true
        invariant NextFrom(old(reader.rest), reader.broken, EMPTY) ==
                  NextFrom(reader.rest, reader.broken, Draft(event, dataLines))
        decreases |reader.rest|
      {
        var line, last := reader.ReadString();
        if last && reader.broken {
          return ReadError;
        }
        line := TrimLineEnd(line);
        if line == [] {
          if HasFrameContent(event, dataLines) {
            return Frame(event, JoinLines(dataLines));
          }
          if last {
            return EndOfInput;
          }
          continue;
        }
        if line[0] == COLON {
          if last {
            if HasFrameContent(event, dataLines) {
              return Frame(event, JoinLines(dataLines));
            }
            return EndOfInput;
          }
          continue;
        }
        var field, value := SplitField(line);
        if field == EVENT {
          event := value;
        } else if field == DATA {
          dataLines := dataLines + [value];
        }
        if last {
          if HasFrameContent(event, dataLines) {
            return Frame(event, JoinLines(dataLines));
          }
          return EndOfInput;
        }
      }
    }
  }

  /** All outcomes up to and including the first that is not a frame. */
  function Outcomes(s: Bytes, broken: bool): seq<Outcome>
    decreases |s|
  {
    var (r, rest) := NextFrom(s, broken, EMPTY);
    if r.Frame? then [r] + Outcomes(rest, broken) else [r]
  }

  /** The two parsers yield the same frames, and end the same way, on every input. */
  method ParsersAgree(input: Bytes, broken: bool) returns (sdk: seq<Outcome>, core: seq<Outcome>)
    ensures sdk == core == Outcomes(input, broken)
  {
    hide NextFrom;
    var r1 := new Reader(input, broken);
    var r2 := new Reader(input, broken);
    var p1 := new SSEParser(r1);
    var p2 := new Parser(r2);
    sdk, core := [], [];
    while true
      invariant p1.reader == r1 && p2.reader == r2 && r1 != r2 && fresh(r1) && fresh(r2)
      invariant r1.rest == r2.rest && r1.broken == r2.broken == broken && sdk == core
      invariant Outcomes(input, broken) == sdk + Outcomes(r1.rest, broken)
      decreases |r1.rest|
    {
      var a := p1.Next();
      var b := p2.Next();
      sdk, core := sdk + [a], core + [b];
      if !a.Frame? {
        return;
      }
    }
  }

  // ---------- printing ----------

  const EVENT_PREFIX: Bytes := EVENT + [COLON, SPACE]
  const DATA_PREFIX: Bytes := DATA + [COLON, SPACE]

  function PrintData(lines: seq<Bytes>): Bytes {
    if lines == [] then [] else DATA_PREFIX + lines[0] + [LF] + PrintData(lines[1..])
  }

  /** A frame as a stream of lines, ending in a blank one. */
  function Print(f: Outcome): Bytes
    requires f.Frame?
  {
    EVENT_PREFIX + f.event + [LF] + PrintData(SplitLines(f.data)) + [LF]
  }

  /** What a frame loses when it is printed and read: a carriage return at the end
      of each line. */
  function StripAll(lines: seq<Bytes>): seq<Bytes> {
    seq(|lines|, k requires 0 <= k < |lines| => StripCR(lines[k]))
  }

  predicate Printable(f: Outcome) {
    && f.Frame? && LF !in f.event && NoTrailingCR(f.event)
    && var lines := SplitLines(f.data); forall k :: 0 <= k < |lines| ==> NoTrailingCR(lines[k])
  }

  predicate NoTrailingCR(s: Bytes) {
    s == [] || s[|s| - 1] != CR
  }

  /** `sse.Writer.Send` after marshalling: `data` is one line of JSON. */
  method Send(sent: Bytes, event: Bytes, data: Bytes) returns (out: Bytes)
    requires LF !in data
    ensures out == sent + Print(Frame(event, data))
  {
    out := sent + EVENT_PREFIX + event + [LF];
    out := out + DATA_PREFIX + data + [LF, LF];
    SplitOneLine(data);
    assert PrintData([data]) == DATA_PREFIX + data + [LF] + PrintData([]);
    assert DATA_PREFIX + data + [LF, LF] == DATA_PREFIX + data + [LF] + [LF];
  }

  lemma CutCons(b: Byte, s: Bytes)
    requires b != LF
    ensures CutLine([b] + s) == CutLine(s).(text := [b] + CutLine(s).text)
  {
    assert ([b] + s)[1..] == s;
  }

  lemma CutHere(rest: Bytes)
    ensures CutLine([LF] + rest) == Line([LF], rest, false)
  {
    assert ([LF] + rest)[1..] == rest;
  }

  lemma {:induction false} CutAt(line: Bytes, rest: Bytes)
    requires LF !in line
    ensures CutLine(line + [LF] + rest) == Line(line + [LF], rest, false)
    decreases |line|
  {
    hide CutLine;
    if line != [] {
      var tail := line[1..];
      CutAt(tail, rest);
      CutCons(line[0], tail + [LF] + rest);
      assert line + [LF] + rest == [line[0]] + (tail + [LF] + rest);
      assert line + [LF] == [line[0]] + (tail + [LF]);
    } else {
      CutHere(rest);
      assert line + [LF] + rest == [LF] + rest && line + [LF] == [LF];
    }
  }

  lemma {:induction false} IndexOf(name: Bytes, value: Bytes)
    requires COLON !in name
    ensures IndexColon(name + [COLON, SPACE] + value) == |name|
    decreases |name|
  {
    if name != [] {
      IndexOf(name[1..], value);
      assert (name + [COLON, SPACE] + value)[1..] == name[1..] + [COLON, SPACE] + value;
    }
  }

  /** A printed field line is read back as that field. */
  lemma FieldLine(name: Bytes, value: Bytes, d: Draft)
    requires name != [] && COLON !in name
    ensures d.Read(name + [COLON, SPACE] + value) == d.Take(name, value)
  {
    var line := name + [COLON, SPACE] + value;
    IndexOf(name, value);
    assert line[..|name|] == name;
    assert line[|name| + 1..] == [SPACE] + value;
    assert ([SPACE] + value)[1..] == value;
  }

  lemma StripField(name: Bytes, value: Bytes)
    ensures StripCR(name + [COLON, SPACE] + value) == name + [COLON, SPACE] + StripCR(value)
  {
    var line := name + [COLON, SPACE] + value;
    if value == [] {
      assert line[|line| - 1] == SPACE;
    } else {
      assert line[|line| - 1] == value[|value| - 1];
    }
  }

  lemma NextLine(name: Bytes, value: Bytes, rest: Bytes, broken: bool, d: Draft)
    requires name != [] && COLON !in name && LF !in name && LF !in value
    ensures NextFrom(name + [COLON, SPACE] + value + [LF] + rest, broken, d) ==
            NextFrom(rest, broken, d.Take(name, StripCR(value)))
  {
    var line := name + [COLON, SPACE] + value;
    CutAt(line, rest);
    StripField(name, value);
    FieldLine(name, StripCR(value), d);
    hide CutLine, SplitAtColon, StripCR;
    LineEnd(line);
    NextUnfold(line + [LF] + rest, StripCR(line), rest, broken, d);
  }

  lemma NextUnfold(s: Bytes, line: Bytes, rest: Bytes, broken: bool, d: Draft)
    requires CutLine(s).rest == rest && !CutLine(s).last && TrimLineEnd(CutLine(s).text) == line && line != []
    ensures NextFrom(s, broken, d) == NextFrom(rest, broken, d.Read(line))
  {
  }

  lemma LineEnd(line: Bytes)
    ensures TrimLineEnd(line + [LF]) == StripCR(line)
  {
    assert (line + [LF])[..|line|] == line;
  }

  lemma NextBlank(rest: Bytes, broken: bool, d: Draft)
    requires d.HasContent()
    ensures NextFrom([LF] + rest, broken, d) == (d.Finish(), rest)
  {
    CutHere(rest);
    hide CutLine;
    assert TrimLineEnd([LF]) == [];
  }

  lemma TakeData(d: Draft, value: Bytes)
    ensures d.Take(DATA, value) == d.(lines := d.lines + [value])
  {
  }

  lemma PrintNoData()
    ensures PrintData([]) == []
  {
  }

  lemma PrintDataStep(lines: seq<Bytes>, rest: Bytes)
    requires lines != []
    ensures PrintData(lines) + [LF] + rest ==
            DATA + [COLON, SPACE] + lines[0] + [LF] + (PrintData(lines[1..]) + [LF] + rest)
  {
  }

  lemma {:induction false} NextData(lines: seq<Bytes>, rest: Bytes, broken: bool, d: Draft)
    requires forall k :: 0 <= k < |lines| ==> LF !in lines[k]
    requires d.HasContent() || lines != []
    ensures NextFrom(PrintData(lines) + [LF] + rest, broken, d) ==
            (Frame(d.event, JoinLines(d.lines + StripAll(lines))), rest)
    decreases |lines|
  {
    hide NextFrom, JoinLines, StripCR, Draft.Take, PrintData;
    if lines == [] {
      NextBlank(rest, broken, d);
      assert PrintData(lines) + [LF] + rest == [LF] + rest by { PrintNoData(); }
      assert d.lines + StripAll(lines) == d.lines;
    } else {
      var tail := PrintData(lines[1..]) + [LF] + rest;
      PrintDataStep(lines, rest);
      NextLine(DATA, lines[0], tail, broken, d);
      var next := d.(lines := d.lines + [StripCR(lines[0])]);
      TakeData(d, StripCR(lines[0]));
      NextData(lines[1..], rest, broken, next);
      assert d.lines + StripAll(lines) == next.lines + StripAll(lines[1..]);
    }
  }

  /** A printed frame with a one-line event name, whatever follows it, is read back
      without the carriage returns at its line ends. */
  lemma PrintedFrame(f: Outcome, rest: Bytes, broken: bool)
    requires f.Frame? && LF !in f.event
    ensures NextFrom(Print(f) + rest, broken, EMPTY) ==
            (Frame(StripCR(f.event), JoinLines(StripAll(SplitLines(f.data)))), rest)
  {
    hide StripCR, StripAll, NextFrom, JoinLines, SplitLines;
    var lines := SplitLines(f.data);
    var tail := PrintData(lines) + [LF] + rest;
    assert Print(f) + rest == EVENT + [COLON, SPACE] + f.event + [LF] + tail;
    NextLine(EVENT, f.event, tail, broken, EMPTY);
    SplitLinesHaveNoLF(f.data);
    assert forall k :: 0 <= k < |lines| ==> lines[k] in lines;
    NextData(lines, rest, broken, Draft(StripCR(f.event), []));
    assert [] + StripAll(lines) == StripAll(lines);
  }

  lemma {:induction false} CutLineBody(s: Bytes) returns (body: Bytes)
    ensures LF !in body && CutLine(s).text == body + if CutLine(s).last then [] else [LF]
    decreases |s|
  {
    if s == [] || s[0] == LF {
      return [];
    }
    body := CutLineBody(s[1..]);
    assert [s[0]] + (body + [LF]) == ([s[0]] + body) + [LF] && [s[0]] + (body + []) == ([s[0]] + body) + [];
    body := [s[0]] + body;
  }

  lemma CutLineHasNoLF(s: Bytes)
    ensures LF !in TrimLineEnd(CutLine(s).text)
  {
    hide CutLine;
    var body := CutLineBody(s);
    LineEnd(body);
    assert body + [] == body;
  }

  lemma FieldOfLine(line: Bytes)
    requires LF !in line
    ensures LF !in SplitAtColon(line).1
  {
  }

  lemma ReadKeepsLine(d: Draft, line: Bytes)
    requires line != [] && LF !in line && LF !in d.event
    ensures LF !in d.Read(line).event
  {
    hide SplitAtColon;
    FieldOfLine(line);
  }

  /** No event name that is read contains a line feed. */
  lemma {:induction false} EventsAreLines(s: Bytes, broken: bool, d: Draft)
    requires LF !in d.event
    ensures NextFrom(s, broken, d).0.Frame? ==> LF !in NextFrom(s, broken, d).0.event
    decreases |s|
  {
    hide Draft.Read, TrimLineEnd, JoinLines;
    var l := CutLine(s);
    var line := TrimLineEnd(l.text);
    CutLineHasNoLF(s);
    if line != [] {
      ReadKeepsLine(d, line);
      if !l.last {
        EventsAreLines(l.rest, broken, d.Read(line));
      }
    } else if !l.last {
      EventsAreLines(l.rest, broken, d);
    }
  }

  /** Stripping shortens every text in which a line ends in a carriage return. */
  lemma {:induction false} StrippingShortens(lines: seq<Bytes>)
    ensures |JoinLines(StripAll(lines))| <= |JoinLines(lines)|
    ensures |JoinLines(StripAll(lines))| == |JoinLines(lines)| ==>
              StripAll(lines) == lines && forall k :: 0 <= k < |lines| ==> NoTrailingCR(lines[k])
    decreases |lines|
  {
    if |lines| > 1 {
      StrippingShortens(lines[1..]);
      assert StripAll(lines)[1..] == StripAll(lines[1..]);
      assert forall k :: 0 < k < |lines| ==> lines[k] == lines[1..][k - 1];
    }
  }

  lemma NothingToStrip(lines: seq<Bytes>)
    requires forall k :: 0 <= k < |lines| ==> NoTrailingCR(lines[k])
    ensures StripAll(lines) == lines
  {
  }

  /** Round trip: a printed frame, whatever follows it, is read back as it was if
      and only if its event name is one line and neither the name nor any line of
      the data ends in a carriage return. */
  lemma {:induction false} PrintedFrameIsReadIff(f: Outcome, rest: Bytes, broken: bool)
    requires f.Frame?
    ensures NextFrom(Print(f) + rest, broken, EMPTY) == (f, rest) <==> Printable(f)
  {
    hide NextFrom, Print, SplitLines, JoinLines, StripAll;
    if LF in f.event {
      EventsAreLines(Print(f) + rest, broken, EMPTY);
    } else {
      PrintedFrame(f, rest, broken);
      JoinSplitLines(f.data);
      StrippingShortens(SplitLines(f.data));
      if Printable(f) {
        NothingToStrip(SplitLines(f.data));
      }
    }
  }

  function PrintAll(fs: seq<Outcome>): Bytes
    requires forall k :: 0 <= k < |fs| ==> Printable(fs[k])
  {
    if fs == [] then [] else assert Printable(fs[0]); Print(fs[0]) + PrintAll(fs[1..])
  }

  lemma NextAtEnd()
    ensures NextFrom([], false, EMPTY) == (EndOfInput, [])
  {
  }

  /** A printed list of frames is read back as that list, then the end. */
  lemma {:induction false} PrintedFramesAreRead(fs: seq<Outcome>)
    requires forall k :: 0 <= k < |fs| ==> Printable(fs[k])
    ensures Outcomes(PrintAll(fs), false) == fs + [EndOfInput]
    decreases |fs|
  {
    hide NextFrom, Print;
    if fs == [] {
      assert NextFrom([], false, EMPTY) == (EndOfInput, []) by { NextAtEnd(); }
    } else {
      assert Printable(fs[0]);
      PrintedFrameIsReadIff(fs[0], PrintAll(fs[1..]), false);
      PrintedFramesAreRead(fs[1..]);
      assert fs == [fs[0]] + fs[1..];
    }
  }
}
