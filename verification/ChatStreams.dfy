/** What the chat runtime reads from a stream that says what it says in so many
    bytes, and when the capture writer passes it on. */
module ChatStreams {
  import opened GoStrings
  import opened ChatRuntime
  import opened LineEnds
  import opened Trimming
  import opened CaptureAgreement
  import Utf8Text

  // ---------- white space ----------

  /** The code points with the Unicode property White_Space. */
  const WHITE_SPACE: set<int> := {
    0x09, 0x0A, 0x0B, 0x0C, 0x0D, 0x20, 0x85, 0xA0, 0x1680,
    0x2000, 0x2001, 0x2002, 0x2003, 0x2004, 0x2005, 0x2006, 0x2007, 0x2008, 0x2009, 0x200A,
    0x2028, 0x2029, 0x202F, 0x205F, 0x3000}

  /** The white space runes are the encodings of exactly these code points. */
  lemma SpaceRunesAreWhiteSpace(t: Bytes)
    ensures IsSpaceRune(t) <==>
              var c := Utf8Text.ReadCharacter(t); c.Character? && c.rest == [] && c.r in WHITE_SPACE
  {
  }

  predicate SpaceRunes(rs: seq<Bytes>) {
    forall k :: 0 <= k < |rs| ==> IsSpaceRune(rs[k])
  }

  lemma CutRunes(s: Bytes)
    ensures LeadSpace(s) > 0 ==> IsSpaceRune(s[..LeadSpace(s)])
    ensures TrailSpace(s) > 0 ==> IsSpaceRune(s[|s| - TrailSpace(s)..])
  {
    hide IsSpaceRune;
  }

  lemma NoSpaceRunes()
    ensures SpaceRunes([])
  {
  }

  lemma OneMoreSpaceRune(rs: seq<Bytes>, r: Bytes)
    requires SpaceRunes(rs) && IsSpaceRune(r)
    ensures SpaceRunes([r] + rs) && SpaceRunes(rs + [r])
  {
    hide IsSpaceRune;
  }

  lemma {:induction false} TrimLeftCuts(s: Bytes) returns (rs: seq<Bytes>)
    ensures s == Concat(rs) + TrimLeft(s) && SpaceRunes(rs) && LeadSpace(TrimLeft(s)) == 0
    decreases |s|
  {
    hide LeadSpace, TrailSpace, IsSpaceRune, SpaceRunes;
    var n := LeadSpace(s);
    if n == 0 {
      NoSpaceRunes();
      return [];
    }
    CutRunes(s);
    var rest := TrimLeftCuts(s[n..]);
    rs := [s[..n]] + rest;
    OneMoreSpaceRune(rest, s[..n]);
    assert rs[1..] == rest;
    assert s == s[..n] + (Concat(rest) + TrimLeft(s));
  }

  lemma {:induction false} TrimRightCuts(s: Bytes) returns (rs: seq<Bytes>)
    ensures s == TrimRight(s) + Concat(rs) && SpaceRunes(rs) && TrailSpace(TrimRight(s)) == 0
    ensures TrimRight(s) <= s
    decreases |s|
  {
    hide LeadSpace, TrailSpace, IsSpaceRune, SpaceRunes;
    var n := TrailSpace(s);
    if n == 0 {
      NoSpaceRunes();
      assert s + [] == s;
      return [];
    }
    var m := |s| - n;
    CutRunes(s);
    var rest := TrimRightCuts(s[..m]);
    rs := rest + [s[m..]];
    OneMoreSpaceRune(rest, s[m..]);
    ConcatOneMore(rest, s[m..]);
    hide Concat;
    assert TrimRight(s) == TrimRight(s[..m]);
    assert s == TrimRight(s) + (Concat(rest) + s[m..]);
  }

  /** `TrimSpace` cuts off white space on both sides, all of it and nothing else. */
  lemma TrimSpaceMeaning(s: Bytes) returns (before: seq<Bytes>, after: seq<Bytes>)
    ensures s == Concat(before) + TrimSpace(s) + Concat(after) && SpaceRunes(before) && SpaceRunes(after)
    ensures LeadSpace(TrimSpace(s)) == 0 && TrailSpace(TrimSpace(s)) == 0
  {
    hide LeadSpace, TrailSpace, Concat, SpaceRunes, TrimLeft, TrimRight;
    before := TrimLeftCuts(s);
    after := TrimRightCuts(TrimLeft(s));
    LeadOfPrefix(TrimSpace(s), TrimLeft(s));
    assert Concat(before) + (TrimSpace(s) + Concat(after)) == Concat(before) + TrimSpace(s) + Concat(after);
  }

  lemma LeadOfPrefix(s: Bytes, t: Bytes)
    requires s <= t && LeadSpace(t) == 0
    ensures LeadSpace(s) == 0
  {
    hide IsSpaceRune;
    assert |s| >= 1 ==> s[..1] == t[..1];
    assert |s| >= 2 ==> s[..2] == t[..2];
    assert |s| >= 3 ==> s[..3] == t[..3];
  }

  // ---------- a stream in so many bytes ----------

  /** An event as it is sent: its name, its lines of data, and whether its lines
      end in CR LF instead of LF. */
  datatype Sent = Sent(name: Bytes, lines: seq<Bytes>, crlf: bool)

  /** A line that is not blank, and has no line end and no white space around it. */
  predicate Clean(s: Bytes) {
    s != [] && LF !in s && LeadSpace(s) == 0 && TrailSpace(s) == 0
  }

  predicate CleanEvent(s: Sent) {
    Clean(s.name) && forall k :: 0 <= k < |s.lines| ==> Clean(s.lines[k])
  }

  function Eol(crlf: bool): Bytes {
    if crlf then [13, 10] else [10]
  }

  function DataWire(lines: seq<Bytes>, eol: Bytes): Bytes {
    if lines == [] then []
    else DataWire(lines[..|lines| - 1], eol) + Ascii("data: ") + lines[|lines| - 1] + eol
  }

  lemma OneMoreDataLine(lines: seq<Bytes>, eol: Bytes)
    requires lines != []
    ensures var n := |lines| - 1;
            DataWire(lines, eol) == DataWire(lines[..n], eol) + (Ascii("data: ") + lines[n] + eol)
  {
    hide Ascii;
  }

  lemma NoDataLines(eol: Bytes)
    ensures DataWire([], eol) == []
  {
  }

  function Wire(s: Sent): Bytes {
    Ascii("event: ") + s.name + Eol(s.crlf) + DataWire(s.lines, Eol(s.crlf)) + Eol(s.crlf)
  }

  function WireAll(sent: seq<Sent>): Bytes {
    if sent == [] then [] else Wire(sent[0]) + WireAll(sent[1..])
  }

  function Received(sent: seq<Sent>): seq<SSEEvent> {
    seq(|sent|, k requires 0 <= k < |sent| => SSEEvent(sent[k].name, Joined(sent[k].lines)))
  }

  // ---------- line ends ----------

  lemma CleanLine(prefix: Bytes, s: Bytes)
    requires Clean(s) && LF !in prefix
    ensures var line := prefix + s;
            LF !in line && line != [] && NoCRLF(line) && line[|line| - 1] != CR && line[|line| - 1] != LF
  {
    var line := prefix + s;
    assert line[|line| - 1] == s[|s| - 1];
    assert s[|s| - 1..] == [s[|s| - 1]];
    forall k: nat
      ensures !CRLFAt(line, k)
    {
      assert k + 1 < |line| ==> line[k + 1] in line;
    }
  }

  /** Either line end is normalized to a line feed. */
  lemma NormalizeLine(line: Bytes, crlf: bool, rest: Bytes)
    requires NoCRLF(line) && line != [] && line[|line| - 1] != CR
    ensures Normalize(line + Eol(crlf) + rest) == line + [LF] + Normalize(rest)
  {
    hide Normalize, NoCRLF;
    assert line + Eol(crlf) + rest == line + (Eol(crlf) + rest);
    NormalizeConcat(line, Eol(crlf) + rest);
    NormalizeFixes(line);
    NormalizeEol(crlf, rest);
    assert line + ([LF] + Normalize(rest)) == line + [LF] + Normalize(rest);
  }

  lemma NormalizeEol(crlf: bool, rest: Bytes)
    ensures Normalize(Eol(crlf) + rest) == [LF] + Normalize(rest)
  {
    hide Normalize;
    if crlf {
      NormalizePair(rest);
    } else {
      NormalizeOne(LF, rest);
    }
  }

  lemma {:induction false} NormalizeData(lines: seq<Bytes>, crlf: bool, rest: Bytes)
    requires forall k :: 0 <= k < |lines| ==> Clean(lines[k])
    ensures Normalize(DataWire(lines, Eol(crlf)) + rest) == DataWire(lines, [LF]) + Normalize(rest)
    decreases |lines|
  {
    hide Normalize, Clean, Eol, NoCRLF, Ascii, DataWire;
    if lines == [] {
      assert DataWire(lines, Eol(crlf)) == [] == DataWire(lines, [LF]) by { NoDataLines(Eol(crlf)); NoDataLines([LF]); }
      assert DataWire(lines, Eol(crlf)) + rest == rest && DataWire(lines, [LF]) + Normalize(rest) == Normalize(rest);
    } else {
      var n := |lines| - 1;
      var line := Ascii("data: ") + lines[n];
      assert LF !in Ascii("data: ") by { PrefixesHaveNoLF(); }
      CleanLine(Ascii("data: "), lines[n]);
      NormalizeLine(line, crlf, rest);
      var tail := line + Eol(crlf) + rest;
      NormalizeData(lines[..n], crlf, tail);
      OneMoreDataLine(lines, Eol(crlf));
      OneMoreDataLine(lines, [LF]);
      assert DataWire(lines, Eol(crlf)) + rest == DataWire(lines[..n], Eol(crlf)) + tail;
      assert DataWire(lines, [LF]) + Normalize(rest) == DataWire(lines[..n], [LF]) + (line + [LF] + Normalize(rest));
    }
  }

  lemma PrefixesHaveNoLF()
    ensures LF !in Ascii("data: ") && LF !in Ascii("event: ")
  {
  }

  lemma NormalizeWire(s: Sent, rest: Bytes)
    requires CleanEvent(s)
    ensures Normalize(Wire(s) + rest) == Wire(s.(crlf := false)) + Normalize(rest)
  {
    hide Normalize, Clean, Eol, NoCRLF, DataWire;
    assert Eol(false) == [LF] by { PlainEol(); }
    PrefixesHaveNoLF();
    var line, eol := Ascii("event: ") + s.name, Eol(s.crlf);
    CleanLine(Ascii("event: "), s.name);
    NormalizeEol(s.crlf, rest);
    NormalizeData(s.lines, s.crlf, eol + rest);
    var data, tail := DataWire(s.lines, eol), DataWire(s.lines, eol) + (eol + rest);
    NormalizeLine(line, s.crlf, tail);
    assert Wire(s) + rest == line + eol + tail;
    assert Wire(s.(crlf := false)) + Normalize(rest) ==
           line + [LF] + (DataWire(s.lines, [LF]) + ([LF] + Normalize(rest)));
  }

  lemma PlainEol()
    ensures Eol(false) == [LF]
  {
  }

  // ---------- one event ----------

  /** The lines of an event without the last line end. */
  function Body(name: Bytes, lines: seq<Bytes>): Bytes {
    if lines == [] then Ascii("event: ") + name
    else Body(name, lines[..|lines| - 1]) + [LF] + (Ascii("data: ") + lines[|lines| - 1])
  }

  lemma {:induction false} WireIsBody(name: Bytes, lines: seq<Bytes>)
    ensures Ascii("event: ") + name + [LF] + DataWire(lines, [LF]) == Body(name, lines) + [LF]
    decreases |lines|
  {
    hide Ascii;
    if lines == [] {
      assert Ascii("event: ") + name + [LF] + [] == Ascii("event: ") + name + [LF];
    } else {
      var n := |lines| - 1;
      WireIsBody(name, lines[..n]);
      var start, data := Ascii("event: ") + name + [LF], DataWire(lines[..n], [LF]);
      var line := Ascii("data: ") + lines[n];
      assert start + (data + Ascii("data: ") + lines[n] + [LF]) == (start + data) + (line + [LF]);
      assert Body(name, lines[..n]) + [LF] + (line + [LF]) == Body(name, lines) + [LF];
    }
  }

  /** The lines of data, read one by one. */
  lemma {:induction false} BodyIsRead(name: Bytes, lines: seq<Bytes>)
    requires Clean(name) && forall k :: 0 <= k < |lines| ==> Clean(lines[k])
    ensures Fields([], []).ReadAll(SplitLines(Body(name, lines))) == Fields(name, lines)
    decreases |lines|
  {
    hide Clean, SplitLines, Fields.ReadAll, Fields.Read, Ascii;
    assert LF !in Ascii("event: ") && LF !in Ascii("data: ") by { PrefixesHaveNoLF(); }
    if lines == [] {
      CleanLine(Ascii("event: "), name);
      SplitOneLine(Ascii("event: ") + name);
      ReadOne(Fields([], []), Ascii("event: ") + name);
      NameIsRead(Fields([], []), name);
    } else {
      var n := |lines| - 1;
      var line := Ascii("data: ") + lines[n];
      BodyIsRead(name, lines[..n]);
      CleanLine(Ascii("data: "), lines[n]);
      SplitOneLine(line);
      SplitLinesAt(Body(name, lines[..n]), line);
      ReadAllConcat(Fields([], []), SplitLines(Body(name, lines[..n])), [line]);
      ReadOne(Fields(name, lines[..n]), line);
      DataIsRead(Fields(name, lines[..n]), lines[n]);
      assert lines[..n] + [lines[n]] == lines;
    }
  }

  lemma SpaceLeads(s: Bytes)
    ensures LeadSpace([SPACE] + s) == 1 && ([SPACE] + s)[1..] == s
  {
    assert ([SPACE] + s)[..1] == [SPACE];
    assert IsSpaceRune([SPACE]);
    hide IsSpaceRune;
  }

  lemma TrimmedValue(s: Bytes)
    requires Clean(s)
    ensures TrimSpace([SPACE] + s) == s
  {
    SpaceLeads(s);
    hide LeadSpace, TrailSpace;
    assert TrimLeft([SPACE] + s) == TrimLeft(s) == s;
    assert TrimRight(s) == s;
  }

  lemma PrefixBytes()
    ensures Ascii("event: ") == EVENT_PREFIX + [SPACE] && Ascii("data: ") == DATA_PREFIX + [SPACE]
    ensures forall s: Bytes :: !(EVENT_PREFIX <= Ascii("data: ") + s)
  {
    assert EVENT_PREFIX[0] != Ascii("data: ")[0];
  }

  lemma BehindPrefix(p: Bytes, x: Bytes)
    ensures p <= p + x && (p + x)[|p|..] == x
  {
  }

  lemma NameIsRead(f: Fields, name: Bytes)
    requires Clean(name)
    ensures f.Read(Ascii("event: ") + name) == f.(event := name)
  {
    hide TrimSpace, Clean, Ascii, EVENT_PREFIX, DATA_PREFIX;
    TrimmedValue(name);
    PrefixBytes();
    var line := Ascii("event: ") + name;
    assert line == EVENT_PREFIX + ([SPACE] + name);
    BehindPrefix(EVENT_PREFIX, [SPACE] + name);
  }

  lemma DataIsRead(f: Fields, data: Bytes)
    requires Clean(data)
    ensures f.Read(Ascii("data: ") + data) == f.(data := f.data + [data])
  {
    hide TrimSpace, Clean, Ascii, EVENT_PREFIX, DATA_PREFIX;
    TrimmedValue(data);
    PrefixBytes();
    var line := Ascii("data: ") + data;
    assert line == DATA_PREFIX + ([SPACE] + data);
    BehindPrefix(DATA_PREFIX, [SPACE] + data);
  }

  lemma {:induction false} BodyEnds(name: Bytes, lines: seq<Bytes>)
    requires Clean(name) && forall k :: 0 <= k < |lines| ==> Clean(lines[k])
    ensures var b := Body(name, lines);
            && |b| >= 1 && b[0] == 101 && TrailSpace(b) == 0
            && (forall k :: 0 <= k < |b| - 1 ==> b[k] != LF || b[k + 1] != LF) && b[|b| - 1] != LF
    decreases |lines|
  {
    hide Clean, TrailSpace;
    assert LF !in Ascii("event: ") && LF !in Ascii("data: ") by { PrefixesHaveNoLF(); }
    if lines == [] {
      CleanLine(Ascii("event: "), name);
      ValueEnds(Ascii("event:"), name);
      assert Ascii("event:") + [SPACE] + name == Ascii("event: ") + name;
    } else {
      var n := |lines| - 1;
      var before := Body(name, lines[..n]);
      BodyEnds(name, lines[..n]);
      CleanLine(Ascii("data: "), lines[n]);
      ValueEnds(before + [LF] + Ascii("data:"), lines[n]);
      assert before + [LF] + Ascii("data:") + [SPACE] + lines[n] == Body(name, lines);
      NoBlankLineBetween(before, Ascii("data: ") + lines[n]);
    }
  }

  lemma NoBlankLineBetween(a: Bytes, line: Bytes)
    requires forall k :: 0 <= k < |a| - 1 ==> a[k] != LF || a[k + 1] != LF
    requires a != [] && a[|a| - 1] != LF && LF !in line && line != []
    ensures var b := a + [LF] + line; forall k :: 0 <= k < |b| - 1 ==> b[k] != LF || b[k + 1] != LF
  {
    var b := a + [LF] + line;
    forall k | 0 <= k < |b| - 1
      ensures b[k] != LF || b[k + 1] != LF
    {
      if k > |a| {
        assert b[k] == line[k - |a| - 1];
      } else if k == |a| {
        assert b[k + 1] == line[0];
      }
    }
  }

  /** What ends in a clean value behind a space ends without white space. */
  lemma ValueEnds(x: Bytes, s: Bytes)
    requires Clean(s)
    ensures TrailSpace(x + [SPACE] + s) == 0
  {
    var t := x + [SPACE] + s;
    forall k | 1 <= k <= 3
      ensures !SpaceBehind(t, k)
    {
      SpaceStands(x, s, k);
    }
  }

  lemma CleanEnd(s: Bytes, k: nat)
    requires Clean(s) && 1 <= k <= 3
    ensures s != [] && !SpaceBehind(s, k)
  {
    hide SpaceBehind, SpaceAhead;
  }

  lemma SpaceStands(x: Bytes, s: Bytes, k: nat)
    requires Clean(s) && 1 <= k <= 3
    ensures !SpaceBehind(x + [SPACE] + s, k)
  {
    hide IsSpaceRune, Clean;
    CleanEnd(s, k);
    var t := x + [SPACE] + s;
    if k <= |t| {
      var tail := t[|t| - k..];
      if k <= |s| {
        assert tail == s[|s| - k..];
      } else {
        assert tail[k - 1 - |s|] == SPACE;
        SpaceIsSingle(tail, k - 1 - |s|);
      }
    }
  }

  lemma SpaceIsSingle(r: Bytes, k: nat)
    requires k < |r| && r[k] == SPACE && |r| > 1
    ensures !IsSpaceRune(r)
  {
  }

  /** One event, of its lines without the blank one, is read as what was sent. */
  lemma BodyIsOneEvent(s: Sent)
    requires CleanEvent(s)
    ensures ChunkEvents(Body(s.name, s.lines)) == [SSEEvent(s.name, Joined(s.lines))]
  {
    BodyEnds(s.name, s.lines);
    BodyIsRead(s.name, s.lines);
    JoinedIsJoin(s.lines);
    var b := Body(s.name, s.lines);
    assert TrimSpace(b) == b by { StartsWithLetter(b); }
    assert s.name != [];
    hide Fields.ReadAll, SplitLines, TrimSpace, Clean, Body;
  }

  lemma StartsWithLetter(b: Bytes)
    requires b != [] && b[0] == 101 && TrailSpace(b) == 0
    ensures TrimSpace(b) == b
  {
    LettersAreNotSpaceAround(b, 1);
    LettersAreNotSpaceAround(b, 2);
    LettersAreNotSpaceAround(b, 3);
    hide SpaceAhead, TrailSpace;
  }

  // ---------- any lines ----------

  predicate Says(line: Bytes, field: Bytes) {
    field <= line
  }

  /** Line `k` is the last one that names an event. */
  predicate LastName(lines: seq<Bytes>, k: nat) {
    k < |lines| && Says(lines[k], Ascii("event:")) && forall j :: k < j < |lines| ==> !Says(lines[j], Ascii("event:"))
  }

  predicate NoName(lines: seq<Bytes>) {
    forall k :: 0 <= k < |lines| ==> !Says(lines[k], Ascii("event:"))
  }

  predicate Increasing(picks: seq<nat>) {
    forall i, j :: 0 <= i < j < |picks| ==> picks[i] < picks[j]
  }

  /** `picks` are the lines of data. */
  predicate DataLines(lines: seq<Bytes>, picks: seq<nat>) {
    && Increasing(picks)
    && (forall i :: 0 <= i < |picks| ==> picks[i] < |lines| && Says(lines[picks[i]], Ascii("data:")))
    && (forall k :: 0 <= k < |lines| && Says(lines[k], Ascii("data:")) ==> k in picks)
  }

  predicate Values(lines: seq<Bytes>, picks: seq<nat>, data: seq<Bytes>) {
    && |data| == |picks|
    && forall i :: 0 <= i < |picks| ==>
         picks[i] < |lines| && |lines[picks[i]]| >= 5 && data[i] == TrimSpace(lines[picks[i]][5..])
  }

  ghost predicate NameValue(lines: seq<Bytes>, name: Bytes) {
    if NoName(lines) then name == []
    else exists k: nat :: LastName(lines, k) && |lines[k]| >= 6 && name == TrimSpace(lines[k][6..])
  }

  lemma FieldNames()
    ensures Ascii("event:") == EVENT_PREFIX && Ascii("data:") == DATA_PREFIX
    ensures forall s :: !(Says(s, EVENT_PREFIX) && Says(s, DATA_PREFIX))
  {
    assert EVENT_PREFIX[0] != DATA_PREFIX[0];
  }

  /** Of any lines, the last one that begins with "event:" gives the name, and each
      one that begins with "data:" one line of data, in order; all others say
      nothing. */
  lemma {:induction false} AnyLinesMean(lines: seq<Bytes>) returns (picks: seq<nat>)
    ensures var f := Fields([], []).ReadAll(lines);
            NameValue(lines, f.event) && DataLines(lines, picks) && Values(lines, picks, f.data)
    decreases |lines|
  {
    hide TrimSpace, Ascii, EVENT_PREFIX, DATA_PREFIX, NameValue, DataLines, Values, Says, Fields.Read, Fields.ReadAll;
    if lines == [] {
      NoLinesMean();
      return [];
    }
    var n := |lines| - 1;
    var line, before := lines[n], lines[..n];
    var f := Fields([], []).ReadAll(before);
    picks := AnyLinesMean(before);
    ReadAllConcat(Fields([], []), before, [line]);
    ReadOne(f, line);
    assert before + [line] == lines;
    ReadSays(f, line);
    OneMoreName(before, line, f.event);
    OneMoreDatum(before, line, picks, f.data);
    if Says(line, Ascii("data:")) {
      picks := picks + [n];
    }
  }

  lemma NoLinesMean()
    ensures var f := Fields([], []).ReadAll([]);
            NameValue([], f.event) && DataLines([], []) && Values([], [], f.data)
  {
  }

  lemma ReadSays(f: Fields, line: Bytes)
    ensures Says(line, Ascii("event:")) ==> !Says(line, Ascii("data:")) && |line| >= 6
    ensures Says(line, Ascii("data:")) ==> |line| >= 5
    ensures f.Read(line).event == if Says(line, Ascii("event:")) then TrimSpace(line[6..]) else f.event
    ensures f.Read(line).data == if Says(line, Ascii("data:")) then f.data + [TrimSpace(line[5..])] else f.data
  {
    hide TrimSpace, Ascii;
    FieldNames();
  }

  lemma OneMoreName(lines: seq<Bytes>, line: Bytes, name: Bytes)
    requires NameValue(lines, name) && (Says(line, Ascii("event:")) ==> |line| >= 6)
    ensures NameValue(lines + [line], if Says(line, Ascii("event:")) then TrimSpace(line[6..]) else name)
  {
    hide Says, TrimSpace, Ascii;
    var all := lines + [line];
    assert all[|lines|] == line;
    if Says(line, Ascii("event:")) {
      assert LastName(all, |lines|);
    } else if !NoName(lines) {
      var k: nat :| LastName(lines, k) && |lines[k]| >= 6 && name == TrimSpace(lines[k][6..]);
      assert LastName(all, k) && all[k] == lines[k];
    }
  }

  lemma OneMoreDatum(lines: seq<Bytes>, line: Bytes, picks: seq<nat>, data: seq<Bytes>)
    requires DataLines(lines, picks) && Values(lines, picks, data) && (Says(line, Ascii("data:")) ==> |line| >= 5)
    ensures var says := Says(line, Ascii("data:"));
            var more := if says then picks + [|lines|] else picks;
            && DataLines(lines + [line], more)
            && Values(lines + [line], more, if says then data + [TrimSpace(line[5..])] else data)
  {
    OneMorePick(lines, line, picks);
    OneMoreValue(lines, line, picks, data);
    hide *;
  }

  lemma OneMorePick(lines: seq<Bytes>, line: Bytes, picks: seq<nat>)
    requires DataLines(lines, picks)
    ensures DataLines(lines + [line], if Says(line, Ascii("data:")) then picks + [|lines|] else picks)
  {
    hide Says, Ascii;
    var all, more := lines + [line], if Says(line, Ascii("data:")) then picks + [|lines|] else picks;
    assert all[|lines|] == line && forall k :: 0 <= k < |lines| ==> all[k] == lines[k];
    forall k | 0 <= k < |all| && Says(all[k], Ascii("data:"))
      ensures k in more
    {
      if k < |lines| {
        assert k in picks;
      } else {
        assert more[|picks|] == k;
      }
    }
  }

  lemma OneMoreValue(lines: seq<Bytes>, line: Bytes, picks: seq<nat>, data: seq<Bytes>)
    requires Values(lines, picks, data) && (Says(line, Ascii("data:")) ==> |line| >= 5)
    ensures var says := Says(line, Ascii("data:"));
            Values(lines + [line], if says then picks + [|lines|] else picks,
                   if says then data + [TrimSpace(line[5..])] else data)
  {
    hide Says, TrimSpace, Ascii;
    var all := lines + [line];
    assert all[|lines|] == line && forall k :: 0 <= k < |lines| ==> all[k] == lines[k];
  }

  // ---------- whole streams ----------

  lemma {:induction false} NormalizeAll(sent: seq<Sent>)
    requires forall k :: 0 <= k < |sent| ==> CleanEvent(sent[k])
    ensures Normalize(WireAll(sent)) == WireAll(seq(|sent|, k requires 0 <= k < |sent| => sent[k].(crlf := false)))
    decreases |sent|
  {
    hide Normalize, Wire, CleanEvent;
    var plain := seq(|sent|, k requires 0 <= k < |sent| => sent[k].(crlf := false));
    if sent == [] {
      NormalizeNothing();
    } else {
      NormalizeAll(sent[1..]);
      NormalizeWire(sent[0], WireAll(sent[1..]));
      assert plain[1..] == seq(|sent[1..]|, k requires 0 <= k < |sent[1..]| => sent[1..][k].(crlf := false));
    }
  }

  lemma NormalizeNothing()
    ensures Normalize([]) == []
  {
  }

  lemma PlainWire(s: Sent)
    requires !s.crlf
    ensures Wire(s) == Body(s.name, s.lines) + [LF, LF]
  {
    hide Ascii;
    WireIsBody(s.name, s.lines);
    assert Body(s.name, s.lines) + [LF] + [LF] == Body(s.name, s.lines) + [LF, LF];
  }

  lemma {:induction false} PlainEvents(sent: seq<Sent>)
    requires forall k :: 0 <= k < |sent| ==> CleanEvent(sent[k]) && !sent[k].crlf
    ensures Events(WireAll(sent)) == Received(sent)
    decreases |sent|
  {
    hide SplitBlank, ChunkEvents, Wire, CleanEvent, Joined;
    if sent == [] {
      SplitEmpty();
      BlankChunks();
      assert EventsOf([[]]) == ChunkEvents([]) + EventsOf([]);
    } else {
      var s, rest := sent[0], WireAll(sent[1..]);
      assert CleanEvent(s);
      var body := Body(s.name, s.lines);
      PlainWire(s);
      PlainEvents(sent[1..]);
      BodyIsOneEvent(s);
      BodyIsChunk(s);
      TwoChunks(body, rest);
      assert SplitBlank(body + [LF, LF] + rest)[1..] == SplitBlank(rest);
      assert Received(sent) == [SSEEvent(s.name, Joined(s.lines))] + Received(sent[1..]);
    }
  }

  lemma BodyIsChunk(s: Sent)
    requires CleanEvent(s)
    ensures NoBlankLine(Body(s.name, s.lines) + [LF])
  {
    BodyEnds(s.name, s.lines);
    LineIsClosed(Body(s.name, s.lines));
  }

  lemma LineIsClosed(b: Bytes)
    requires b != [] && b[|b| - 1] != LF && forall k :: 0 <= k < |b| - 1 ==> b[k] != LF || b[k + 1] != LF
    ensures NoBlankLine(b + [LF])
  {
  }

  /** `ParseSSE` of a stream is that stream: every list of events, each written as
      its name behind "event: " and its lines of data behind "data: ", with LF or
      CR LF at the line ends and a blank line behind it, is read as exactly these
      events in their order, with the lines of data joined by line feeds. */
  lemma {:induction false} StreamIsReadAsSent(sent: seq<Sent>)
    requires forall k :: 0 <= k < |sent| ==> CleanEvent(sent[k])
    ensures Parse(WireAll(sent)) == Received(sent)
  {
    hide Normalize, CleanEvent, Wire, Joined, Events;
    var plain := seq(|sent|, k requires 0 <= k < |sent| => sent[k].(crlf := false));
    NormalizeAll(sent);
    forall k | 0 <= k < |plain|
      ensures CleanEvent(plain[k]) && !plain[k].crlf
    {
      StillClean(sent[k]);
    }
    PlainEvents(plain);
    assert Received(plain) == Received(sent);
  }

  lemma StillClean(s: Sent)
    requires CleanEvent(s)
    ensures CleanEvent(s.(crlf := false))
  {
  }

  lemma NoneAcross(a: Bytes, b: Bytes)
    requires NoCRCRLF(a) && NoCRCRLF(b) && (a == [] || a[|a| - 1] == LF)
    ensures NoCRCRLF(a + b)
  {
    forall k: nat
      ensures !CRCRLFAt(a + b, k)
    {
      assert !CRCRLFAt(a, k);
      if k >= |a| {
        assert !CRCRLFAt(b, k - |a|);
      }
    }
  }

  lemma LineHasNone(line: Bytes, crlf: bool)
    requires LF !in line && (line == [] || line[|line| - 1] != CR)
    ensures var s := line + Eol(crlf); NoCRCRLF(s) && s[|s| - 1] == LF
  {
    var s := line + Eol(crlf);
    forall k: nat
      ensures !CRCRLFAt(s, k)
    {
      if k + 2 < |line| {
        assert s[k + 2] == line[k + 2];
      }
    }
  }

  lemma {:induction false} DataHasNone(lines: seq<Bytes>, crlf: bool)
    requires forall k :: 0 <= k < |lines| ==> Clean(lines[k])
    ensures var s := DataWire(lines, Eol(crlf)); NoCRCRLF(s) && (s == [] || s[|s| - 1] == LF)
    decreases |lines|
  {
    hide Clean, Eol, Ascii, NoCRCRLF, DataWire;
    if lines == [] {
      NoDataLines(Eol(crlf));
      NothingHasNone();
    } else {
      var n := |lines| - 1;
      PrefixesHaveNoLF();
      DataHasNone(lines[..n], crlf);
      CleanLine(Ascii("data: "), lines[n]);
      LineHasNone(Ascii("data: ") + lines[n], crlf);
      NoneAcross(DataWire(lines[..n], Eol(crlf)), Ascii("data: ") + lines[n] + Eol(crlf));
      OneMoreDataLine(lines, Eol(crlf));
    }
  }

  lemma NothingHasNone()
    ensures NoCRCRLF([])
  {
  }

  lemma EventHasNone(s: Sent)
    requires CleanEvent(s)
    ensures NoCRCRLF(Wire(s)) && Wire(s)[|Wire(s)| - 1] == LF
  {
    hide Clean, Eol, Ascii, NoCRCRLF, DataWire;
    var line, eol := Ascii("event: ") + s.name, Eol(s.crlf);
    PrefixesHaveNoLF();
    CleanLine(Ascii("event: "), s.name);
    LineHasNone(line, s.crlf);
    DataHasNone(s.lines, s.crlf);
    LineHasNone([], s.crlf);
    assert [] + eol == eol;
    NoneAcross(line + eol, DataWire(s.lines, eol));
    NoneAcross(line + eol + DataWire(s.lines, eol), eol);
  }

  lemma {:induction false} StreamHasNone(sent: seq<Sent>)
    requires forall k :: 0 <= k < |sent| ==> CleanEvent(sent[k])
    ensures NoCRCRLF(WireAll(sent))
    decreases |sent|
  {
    hide NoCRCRLF, Wire, CleanEvent;
    if sent == [] {
      NothingHasNone();
    } else {
      assert CleanEvent(sent[0]);
      EventHasNone(sent[0]);
      StreamHasNone(sent[1..]);
      NoneAcross(Wire(sent[0]), WireAll(sent[1..]));
    }
  }

  /** The same for the capture writer, however the stream is cut into writes: what
      it has passed on and what it still holds are exactly the events sent. */
  lemma {:induction false} WriterPassesOnWhatWasSent(sent: seq<Sent>, writes: seq<Bytes>)
    requires forall k :: 0 <= k < |sent| ==> CleanEvent(sent[k])
    requires Concat(writes) == WireAll(sent)
    ensures var c := WriteAll(FRESH, writes); c.emitted + Parse(c.pending) == Received(sent)
  {
    hide NoCRLine, WireAll, Received, WriteAll, Parse, CleanEvent;
    StreamIsReadAsSent(sent);
    StreamHasNone(sent);
    NoCRCRLFHasNoCRLine(WireAll(sent), true);
    WriterAgreesWithParser(writes);
  }

  // ---------- as early as possible ----------

  lemma {:induction false} LastChunkIsOpen(text: Bytes)
    ensures NoBlankLine(Last(SplitBlank(text)))
    decreases |text|
  {
    hide SplitBlank;
    if text == [] {
      SplitEmpty();
    } else if |text| >= 2 && text[0] == LF && text[1] == LF {
      SplitSeparator(text[2..]);
      assert text == [LF, LF] + text[2..];
      LastChunkIsOpen(text[2..]);
      assert Last(SplitBlank(text)) == Last(SplitBlank(text[2..]));
    } else {
      var rest := text[1..];
      LastChunkIsOpen(rest);
      SplitOne(text[0], rest);
      assert text == [text[0]] + rest;
      ClosedThenLast(rest);
      var parts := SplitBlank(rest);
      if |parts| == 1 {
        assert rest == [] + parts[0] == parts[0];
        assert Last(SplitBlank(text)) == [text[0]] + rest;
        NoBlankLineAhead(text[0], rest);
      } else {
        assert Last(SplitBlank(text)) == Last(parts);
      }
    }
  }

  lemma NoBlankLineAhead(b: Byte, s: Bytes)
    requires NoBlankLine(s) && !(b == LF && s != [] && s[0] == LF)
    ensures NoBlankLine([b] + s)
  {
    var t := [b] + s;
    forall k | 0 <= k < |t| - 1
      ensures t[k] != LF || t[k + 1] != LF
    {
      if k > 0 {
        NoBlankLineAt(s, k - 1);
      }
    }
  }

  /** The capture writer passes an event on with the write that completes it: behind
      no write does it hold a blank line back. */
  lemma NothingCompleteIsHeldBack(c: Capture, p: Bytes)
    requires p != []
    ensures NoBlankLine(Written(c, p).pending)
  {
    hide Normalize, SplitBlank, EventsOf, Complete;
    LastChunkIsOpen(Normalize(c.pending + p));
  }
}
