/** The capture writer agrees with the batch parser, however the stream is cut
    into writes. */
module CaptureAgreement {
  import opened GoStrings
  import opened ChatRuntime
  import opened LineEnds
  import opened Trimming

  // ---------- chunks ----------

  lemma {:induction false} EventsOfConcat(a: seq<Bytes>, b: seq<Bytes>)
    ensures EventsOf(a + b) == EventsOf(a) + EventsOf(b)
    decreases |a|
  {
    hide ChunkEvents;
    if a == [] {
      assert a + b == b;
    } else {
      assert (a + b)[1..] == a[1..] + b;
      EventsOfConcat(a[1..], b);
    }
  }

  lemma ChunkIgnoresLeadingLF(c: Bytes)
    ensures ChunkEvents([LF] + c) == ChunkEvents(c)
  {
    TrimSpaceDropsLeadingLF(c);
  }

  lemma BlankChunks()
    ensures ChunkEvents([]) == [] && ChunkEvents([LF]) == []
  {
    ChunkIgnoresLeadingLF([]);
    assert [LF] + [] == [LF];
  }

  /** An extra line feed in front of a text changes no event. */
  lemma {:induction false} EventsIgnoreLeadingLF(x: Bytes)
    ensures Events([LF] + x) == Events(x)
    decreases |x|
  {
    hide ChunkEvents;
    var y := [LF] + x;
    assert y[1..] == x;
    BlankChunks();
    if x != [] && x[0] == LF {
      assert y[2..] == x[1..];
      assert x == [LF] + x[1..];
      EventsIgnoreLeadingLF(x[1..]);
      assert SplitBlank(y)[1..] == SplitBlank(x[1..]);
      assert Events(y) == Events(x[1..]);
    } else {
      var parts := SplitBlank(x);
      ChunkIgnoresLeadingLF(parts[0]);
      assert SplitBlank(y)[1..] == parts[1..];
    }
  }

  function Last(parts: seq<Bytes>): Bytes
    requires parts != []
  {
    parts[|parts| - 1]
  }

  function Front(parts: seq<Bytes>): seq<Bytes>
    requires parts != []
  {
    parts[..|parts| - 1]
  }

  /** The part of a text before its last chunk. */
  function Closed(text: Bytes): Bytes {
    if text == [] then []
    else if |text| >= 2 && text[0] == LF && text[1] == LF then [LF, LF] + Closed(text[2..])
    else var c := Closed(text[1..]); if c == [] then [] else [text[0]] + c
  }

  lemma SplitSeparator(s: Bytes)
    ensures SplitBlank([LF, LF] + s) == [[]] + SplitBlank(s)
  {
    assert ([LF, LF] + s)[2..] == s;
  }

  lemma SplitOne(b: Byte, s: Bytes)
    requires !(b == LF && s != [] && s[0] == LF)
    ensures SplitBlank([b] + s) == [[b] + SplitBlank(s)[0]] + SplitBlank(s)[1..]
  {
    assert ([b] + s)[1..] == s;
  }

  lemma SplitEmpty()
    ensures SplitBlank([]) == [[]]
  {
  }

  predicate IsClosedPart(c: Bytes, text: Bytes, parts: seq<Bytes>) {
    && parts != [] && text == c + Last(parts)
    && (|parts| == 1 <==> c == [])
    && (c == [] || c[|c| - 1] == LF)
  }

  lemma ClosedPartGrows(b: Byte, c: Bytes, s: Bytes, parts: seq<Bytes>)
    requires IsClosedPart(c, s, parts)
    ensures IsClosedPart(if c == [] then [] else [b] + c, [b] + s, [[b] + parts[0]] + parts[1..])
  {
    if c != [] {
      assert [b] + s == ([b] + c) + Last(parts);
    }
  }

  lemma EmptyClosedPart()
    ensures IsClosedPart([], [], [[]])
  {
  }

  lemma ClosedPartAfterSeparator(c: Bytes, s: Bytes, parts: seq<Bytes>)
    requires IsClosedPart(c, s, parts)
    ensures IsClosedPart([LF, LF] + c, [LF, LF] + s, [[]] + parts)
  {
    assert [LF, LF] + s == ([LF, LF] + c) + Last(parts);
  }

  lemma {:induction false} ClosedThenLast(text: Bytes)
    ensures IsClosedPart(Closed(text), text, SplitBlank(text))
    decreases |text|
  {
    hide SplitBlank, IsClosedPart;
    if text == [] {
      SplitEmpty();
      EmptyClosedPart();
    } else if |text| >= 2 && text[0] == LF && text[1] == LF {
      ClosedThenLast(text[2..]);
      assert text == [LF, LF] + text[2..];
      SplitSeparator(text[2..]);
      ClosedPartAfterSeparator(Closed(text[2..]), text[2..], SplitBlank(text[2..]));
    } else {
      var rest := text[1..];
      ClosedThenLast(rest);
      assert text == [text[0]] + rest;
      SplitOne(text[0], rest);
      ClosedPartGrows(text[0], Closed(rest), rest, SplitBlank(rest));
    }
  }

  /** Whatever follows the closed part instead of the last chunk is split on its
      own. */
  lemma {:induction false} SplitAfterClosed(text: Bytes, x: Bytes)
    ensures SplitBlank(Closed(text) + x) == Front(SplitBlank(text)) + SplitBlank(x)
    decreases |text|
  {
    hide SplitBlank;
    var c := Closed(text);
    ClosedThenLast(text);
    if c == [] {
      assert c + x == x;
      assert Front(SplitBlank(text)) == [];
    } else if text[0] == LF && text[1] == LF {
      SplitAfterClosed(text[2..], x);
      SplitSeparator(text[2..]);
      SplitSeparator(Closed(text[2..]) + x);
      assert text == [LF, LF] + text[2..];
      assert c + x == [LF, LF] + (Closed(text[2..]) + x);
      assert Front(SplitBlank(text)) == [[]] + Front(SplitBlank(text[2..]));
    } else {
      SplitAfterClosed(text[1..], x);
      ClosedThenLast(text[1..]);
      SplitOneMore(text[0], text[1..], Closed(text[1..]), x);
      assert text == [text[0]] + text[1..];
    }
  }

  lemma SplitOneMore(b: Byte, s: Bytes, d: Bytes, x: Bytes)
    requires d != [] && s != [] && d[0] == s[0] && |SplitBlank(s)| > 1 && !(b == LF && s[0] == LF)
    requires SplitBlank(d + x) == Front(SplitBlank(s)) + SplitBlank(x)
    ensures SplitBlank([b] + d + x) == Front(SplitBlank([b] + s)) + SplitBlank(x)
  {
    hide SplitBlank;
    SplitOne(b, s);
    SplitOne(b, d + x);
    assert [b] + d + x == [b] + (d + x);
    var rest := SplitBlank(s);
    FrontBehindHead(rest, [b] + rest[0], SplitBlank(x));
  }

  lemma FrontBehindHead(rest: seq<Bytes>, head: Bytes, y: seq<Bytes>)
    requires |rest| > 1
    ensures (Front(rest) + y)[0] == rest[0]
    ensures [head] + (Front(rest) + y)[1..] == Front([head] + rest[1..]) + y
  {
    assert Front([head] + rest[1..]) == [head] + rest[1..|rest| - 1];
  }

  lemma {:induction false} BlankEnd(text: Bytes)
    requires EndsBlank(text)
    ensures Last(SplitBlank(text)) in {[], [LF]}
    decreases |text|
  {
    if text[0] == LF && text[1] == LF {
      var rest := text[2..];
      assert Last(SplitBlank(text)) == Last(SplitBlank(rest));
      if |rest| >= 2 {
        assert rest[|rest| - 2..] == text[|text| - 2..];
        BlankEnd(rest);
      } else if |rest| == 1 {
        assert text[|text| - 2..][1] == LF;
        assert rest == [LF] && rest[1..] == [];
        var lf: Bytes := [LF];
        assert lf + [] == lf;
        assert SplitBlank(rest) == [lf];
      }
    } else {
      var rest := text[1..];
      assert rest[|rest| - 2..] == text[|text| - 2..];
      BlankEnd(rest);
      ClosedThenLast(rest);
      assert Last(SplitBlank(text)) == Last(SplitBlank(rest));
    }
  }

  /** Emitting the complete chunks of a text and keeping the rest loses nothing:
      whatever follows, the events are those emitted and those of the rest with
      what follows. */
  lemma {:induction false} EmitKeepsEvents(text: Bytes, x: Bytes)
    ensures |Pending(text)| <= |text|
    ensures var c := text[..|text| - |Pending(text)|];
            && text == c + Pending(text) && (c == [] || c[|c| - 1] == LF)
            && Events(c + x) == EventsOf(Complete(text)) + Events(x)
  {
    hide ChunkEvents, SplitBlank, Closed, EventsOf;
    var parts := SplitBlank(text);
    ClosedThenLast(text);
    var last := Last(parts);
    if EndsBlank(text) {
      assert text[..|text|] == text;
      BlankEnd(text);
      LastChunkIsBlank(parts, last, x);
      SplitAfterClosed(text, last + x);
      assert Closed(text) + (last + x) == text + x;
      EventsOfConcat(Front(parts), SplitBlank(last + x));
    } else {
      assert text[..|text| - |last|] == Closed(text);
      SplitAfterClosed(text, x);
      EventsOfConcat(Front(parts), SplitBlank(x));
    }
  }

  lemma LastChunkIsBlank(parts: seq<Bytes>, last: Bytes, x: Bytes)
    requires parts != [] && last == Last(parts) && last in {[], [LF]}
    ensures EventsOf(parts) == EventsOf(Front(parts))
    ensures Events(last + x) == Events(x)
  {
    hide ChunkEvents, SplitBlank;
    if last == [] {
      assert last + x == x;
    } else {
      EventsIgnoreLeadingLF(x);
    }
    assert parts == Front(parts) + [last];
    EventsOfConcat(Front(parts), [last]);
    BlankChunks();
  }

  // ---------- carriage returns at line ends ----------

  lemma {:induction false} ReadAllConcat(f: Fields, a: seq<Bytes>, b: seq<Bytes>)
    ensures f.ReadAll(a + b) == f.ReadAll(a).ReadAll(b)
    decreases |a|
  {
    hide Fields.Read;
    if a == [] {
      assert a + b == b;
    } else {
      assert (a + b)[1..] == a[1..] + b;
      ReadAllConcat(f.Read(a[0]), a[1..], b);
    }
  }

  lemma PrefixWithoutCR(prefix: Bytes, line: Bytes)
    requires CR !in prefix
    ensures prefix <= line + [CR] <==> prefix <= line
    ensures prefix <= line ==> (line + [CR])[|prefix|..] == line[|prefix|..] + [CR]
  {
    if prefix <= line + [CR] && prefix != [] {
      assert prefix[|prefix| - 1] == (line + [CR])[|prefix| - 1];
    }
  }

  /** A carriage return at the end of a line does not change what it says. */
  lemma ReadIgnoresCR(f: Fields, line: Bytes)
    ensures f.Read(line + [CR]) == f.Read(line)
  {
    hide TrimSpace;
    PrefixWithoutCR(EVENT_PREFIX, line);
    PrefixWithoutCR(DATA_PREFIX, line);
    if EVENT_PREFIX <= line {
      TrimDropsLastCR(line[|EVENT_PREFIX|..]);
    }
    if DATA_PREFIX <= line {
      TrimDropsLastCR(line[|DATA_PREFIX|..]);
    }
  }

  lemma SplitLinesOne(b: Byte, s: Bytes)
    ensures SplitLines([b] + s) ==
            if b == LF then [[]] + SplitLines(s) else [[b] + SplitLines(s)[0]] + SplitLines(s)[1..]
  {
    assert ([b] + s)[1..] == s;
  }

  lemma {:induction false} SplitLinesAt(a: Bytes, b: Bytes)
    ensures SplitLines(a + [LF] + b) == SplitLines(a) + SplitLines(b)
    decreases |a|
  {
    hide SplitLines;
    if a == [] {
      SplitLinesNothing();
      SplitLinesOne(LF, b);
      assert a + [LF] + b == [LF] + b;
    } else {
      var rest := a[1..];
      SplitLinesAt(rest, b);
      SplitLinesOne(a[0], rest);
      SplitLinesOne(a[0], rest + [LF] + b);
      assert a == [a[0]] + rest && a + [LF] + b == [a[0]] + (rest + [LF] + b);
      var l, r := SplitLines(rest), SplitLines(b);
      assert (l + r)[1..] == l[1..] + r;
    }
  }

  lemma SplitLinesNothing()
    ensures SplitLines([]) == [[]]
  {
  }

  lemma LastLineGrows(b: Byte, ls: seq<Bytes>)
    requires ls != []
    ensures var grown := Front(ls) + [Last(ls) + [CR]];
            && [[]] + grown == Front([[]] + ls) + [Last([[]] + ls) + [CR]]
            && var ls' := [[b] + ls[0]] + ls[1..];
               [[b] + grown[0]] + grown[1..] == Front(ls') + [Last(ls') + [CR]]
  {
    if |ls| == 1 {
      assert [b] + (ls[0] + [CR]) == ([b] + ls[0]) + [CR];
    }
  }

  lemma {:induction false} SplitLinesCR(a: Bytes)
    ensures var ls := SplitLines(a); SplitLines(a + [CR]) == Front(ls) + [Last(ls) + [CR]]
    decreases |a|
  {
    hide SplitLines;
    if a == [] {
      SplitLinesNothing();
      SplitLinesOne(CR, []);
      var cr: Bytes := [CR];
      assert a + [CR] == cr && cr + [] == cr && [] + cr == cr;
    } else {
      var rest := a[1..];
      SplitLinesCR(rest);
      SplitLinesOne(a[0], rest);
      SplitLinesOne(a[0], rest + [CR]);
      assert a == [a[0]] + rest && a + [CR] == [a[0]] + (rest + [CR]);
      LastLineGrows(a[0], SplitLines(rest));
    }
  }

  lemma ReadAllIgnoresCR(a: Bytes, b: Bytes)
    ensures Fields([], []).ReadAll(SplitLines(a + [CR, LF] + b)) == Fields([], []).ReadAll(SplitLines(a + [LF] + b))
  {
    hide SplitLines, Fields.ReadAll, Fields.Read;
    var ls, rs, f := SplitLines(a), SplitLines(b), Fields([], []);
    assert a + [CR, LF] + b == (a + [CR]) + [LF] + b;
    SplitLinesAt(a + [CR], b);
    SplitLinesAt(a, b);
    SplitLinesCR(a);
    assert ls == Front(ls) + [Last(ls)];
    ReadAllConcat(f, SplitLines(a + [CR]), rs);
    ReadAllConcat(f, ls, rs);
    ReadAllConcat(f, Front(ls), [Last(ls) + [CR]]);
    ReadAllConcat(f, Front(ls), [Last(ls)]);
    ReadOne(f.ReadAll(Front(ls)), Last(ls) + [CR]);
    ReadOne(f.ReadAll(Front(ls)), Last(ls));
    ReadIgnoresCR(f.ReadAll(Front(ls)), Last(ls));
  }

  lemma ReadOne(f: Fields, line: Bytes)
    ensures f.ReadAll([line]) == f.Read(line)
  {
    hide Fields.Read;
    assert f.Read(line).ReadAll([]) == f.Read(line);
  }

  /** A carriage return before a line feed inside a chunk changes no event. */
  lemma ChunkIgnoresCR(a: Bytes, b: Bytes)
    ensures ChunkEvents(a + [CR, LF] + b) == ChunkEvents(a + [LF] + b)
  {
    hide TrimSpace, SplitLines, Fields.ReadAll;
    var before, after := TrimAroundLineEnd(a, b);
    if before != [] {
      ReadAllIgnoresCR(before, after);
    }
  }

  lemma ChunkIgnoresLastCR(a: Bytes)
    ensures ChunkEvents(a + [CR]) == ChunkEvents(a)
  {
    hide TrimSpace;
    TrimDropsLastCR(a);
  }

  /** Appending to a text that does not end in a line feed continues its last chunk. */
  lemma {:induction false} SplitContinues(a: Bytes, y: Bytes)
    requires a != [] && a[|a| - 1] != LF
    ensures var p, q := SplitBlank(a), SplitBlank(y);
            SplitBlank(a + y) == Front(p) + ([Last(p) + q[0]] + q[1..])
    decreases |a|
  {
    hide SplitBlank;
    var q := SplitBlank(y);
    if |a| == 1 {
      SplitEmpty();
      SplitOne(a[0], []);
      SplitOne(a[0], y);
      assert a == [a[0]] + [] && a + y == [a[0]] + y;
      var p, front := SplitBlank(a), Front(SplitBlank(a));
      var b: Bytes := [a[0]];
      assert a == b && SplitBlank(b + y) == [b + q[0]] + q[1..];
      assert p == [a] && front == [] && Last(p) == a;
      assert front + ([a + q[0]] + q[1..]) == [a + q[0]] + q[1..];
    } else if a[0] == LF && a[1] == LF {
      var rest := a[2..];
      SplitContinues(rest, y);
      assert a == [LF, LF] + rest && a + y == [LF, LF] + (rest + y);
      SplitSeparator(rest);
      SplitSeparator(rest + y);
      assert Front(SplitBlank(a)) == [[]] + Front(SplitBlank(rest));
    } else {
      var rest := a[1..];
      SplitContinues(rest, y);
      assert a == [a[0]] + rest && a + y == [a[0]] + (rest + y);
      SplitOne(a[0], rest);
      SplitOne(a[0], rest + y);
      HeadOfSplit(a[0], SplitBlank(rest), q);
    }
  }

  lemma HeadOfSplit(b: Byte, p: seq<Bytes>, q: seq<Bytes>)
    requires p != [] && q != []
    ensures var joined := Front(p) + ([Last(p) + q[0]] + q[1..]);
            var p' := [[b] + p[0]] + p[1..];
            [[b] + joined[0]] + joined[1..] == Front(p') + ([Last(p') + q[0]] + q[1..])
  {
    var p' := [[b] + p[0]] + p[1..];
    if |p| == 1 {
      assert Front(p) == [] && Front(p') == [] && Last(p') == [b] + p[0];
      assert Front(p) + ([Last(p) + q[0]] + q[1..]) == [p[0] + q[0]] + q[1..];
      assert [b] + (p[0] + q[0]) == ([b] + p[0]) + q[0];
    } else {
      var joined := Front(p) + ([Last(p) + q[0]] + q[1..]);
      assert Front(p') == [[b] + p[0]] + p[1..|p| - 1];
      assert joined[1..] == p[1..|p| - 1] + ([Last(p) + q[0]] + q[1..]);
    }
  }

  /** A carriage return before a line feed, in a line with anything before it,
      changes no event. */
  lemma DropCR(a: Bytes, b: Bytes)
    requires a != [] && a[|a| - 1] != LF
    ensures Events(a + [CR, LF] + b) == Events(a + [LF] + b)
  {
    hide SplitBlank, ChunkEvents, EventsOf;
    var x, y := [CR, LF] + b, [LF] + b;
    assert a + [CR, LF] + b == a + x && a + [LF] + b == a + y;
    SplitContinues(a, x);
    SplitContinues(a, y);
    assert x == [CR] + y;
    SplitOne(CR, y);
    var p, q, ps := SplitBlank(a), SplitBlank(y), SplitBlank(b);
    var l := Last(p);
    assert SplitBlank(x)[0] == [CR] + q[0] && SplitBlank(x)[1..] == q[1..];
    if b != [] && b[0] == LF {
      assert y == [LF, LF] + b[1..];
      SplitSeparator(b[1..]);
      assert [CR] + q[0] == [CR] && l + q[0] == l;
      ChunkIgnoresLastCR(l);
    } else {
      SplitOne(LF, b);
      assert l + ([CR] + q[0]) == l + [CR, LF] + ps[0] && l + q[0] == l + [LF] + ps[0];
      ChunkIgnoresCR(l, ps[0]);
    }
    EventsBehind(Front(p), l + ([CR] + q[0]), l + q[0], q[1..]);
  }

  lemma EventsBehind(front: seq<Bytes>, c: Bytes, d: Bytes, rest: seq<Bytes>)
    requires ChunkEvents(c) == ChunkEvents(d)
    ensures EventsOf(front + ([c] + rest)) == EventsOf(front + ([d] + rest))
  {
    hide ChunkEvents;
    EventsOfConcat(front, [c] + rest);
    EventsOfConcat(front, [d] + rest);
    assert ([c] + rest)[1..] == rest && ([d] + rest)[1..] == rest;
  }

  /** Collapsing whole lines changes no event, whatever comes before and behind. */
  lemma {:induction false} CollapsingKeepsEvents(a: Bytes, cc: Bytes, x: Bytes)
    requires NoBlankCR(cc, a == [] || a[|a| - 1] == LF)
    ensures Events(a + cc + x) == Events(a + Collapse(cc) + x)
    decreases |cc|
  {
    hide Events;
    if cc != [] {
      var b, rest := cc[0], cc[1..];
      var r := Collapse(rest);
      CollapsingKeepsEvents(a + [b], rest, x);
      assert a + cc + x == (a + [b]) + rest + x;
      if b == CR && r != [] && r[0] == LF {
        CollapsedHead(rest);
        DropCR(a, r[1..] + x);
        assert (a + [b]) + r + x == a + [CR, LF] + (r[1..] + x);
        assert a + r + x == a + [LF] + (r[1..] + x);
      } else {
        assert (a + [b]) + r + x == a + ([b] + r) + x;
      }
    }
  }

  lemma {:induction false} NoLineEndToCollapse(tail: Bytes)
    requires LF !in tail
    ensures Collapse(tail) == tail
    decreases |tail|
  {
    if tail != [] {
      NoLineEndToCollapse(tail[1..]);
    }
  }

  /** The whole lines of a text, and what follows the last line end. */
  lemma {:induction false} WholeLines(t: Bytes) returns (cc: Bytes, tail: Bytes)
    ensures t == cc + tail && LF !in tail && (cc == [] || cc[|cc| - 1] == LF)
    decreases |t|
  {
    if t == [] {
      return [], [];
    }
    cc, tail := WholeLines(t[1..]);
    if cc != [] || t[0] == LF {
      cc := [t[0]] + cc;
    } else {
      tail := [t[0]] + tail;
    }
  }

  lemma EventsOfCollapsed(t: Bytes)
    requires NoBlankCR(t, true)
    ensures Events(t) == Events(Collapse(t))
  {
    hide Events, Collapse, NoBlankCR;
    var cc, tail := WholeLines(t);
    BlankCRPrefix(cc, tail, true);
    CollapsingKeepsEvents([], cc, tail);
    CollapseWhole(cc, tail);
    NoLineEndToCollapse(tail);
    assert [] + cc + tail == t && [] + Collapse(cc) + tail == Collapse(t);
  }

  /** Without a line of carriage returns, the events of a stream are those of its
      collapsed text. */
  lemma ParseIsCollapsed(t: Bytes)
    requires NoCRLine(t, true)
    ensures Parse(t) == Events(Collapse(t))
  {
    hide Events, Collapse, NoBlankCR, NoCRLine, Normalize;
    NormalizedHasNoBlankCR(t, true);
    EventsOfCollapsed(Normalize(t));
    CollapseNormalized(t);
  }

  // ---------- runs ----------

  function WriteAll(c: Capture, writes: seq<Bytes>): Capture
    decreases |writes|
  {
    if writes == [] then c else WriteAll(Written(c, writes[0]), writes[1..])
  }

  /** After `total` has been written, `done` being the collapsed text that is no
      longer pending: it is a whole number of lines, and its events have been
      emitted once and for all. */
  ghost predicate Tracks(total: Bytes, done: Bytes, c: Capture) {
    && Collapse(total) == done + Collapse(c.pending)
    && NoCRLF(done) && (done == [] || done[|done| - 1] == LF)
    && forall x :: Events(done + x) == c.emitted + Events(x)
  }

  lemma WholeLinesTogether(a: Bytes, b: Bytes)
    requires NoCRLF(a) && NoCRLF(b) && (a == [] || a[|a| - 1] == LF) && (b == [] || b[|b| - 1] == LF)
    ensures NoCRLF(a + b) && (a + b == [] || (a + b)[|a + b| - 1] == LF)
  {
    forall k: nat
      ensures !CRLFAt(a + b, k)
    {
      assert k + 1 < |a| && CRLFAt(a + b, k) ==> CRLFAt(a, k);
      assert k >= |a| && CRLFAt(a + b, k) ==> CRLFAt(b, k - |a|);
    }
  }

  /** What has been written, collapsed, before and after one more write. */
  lemma CollapsedWrite(total: Bytes, done: Bytes, pending: Bytes, p: Bytes)
    requires Collapse(total) == done + Collapse(pending)
    requires NoCRLF(done) && (done == [] || done[|done| - 1] == LF)
    ensures Collapse(total + p) == done + Collapse(Normalize(pending + p))
  {
    hide Collapse, Normalize, NoCRLF;
    var held := Collapse(pending);
    CollapseConcat(total, p);
    assert (done + held) + p == done + (held + p);
    CollapseAfter(done, held + p);
    CollapseConcat(pending, p);
    CollapseNormalized(pending + p);
  }

  lemma WriteTracks(total: Bytes, done: Bytes, c: Capture, p: Bytes) returns (done': Bytes)
    requires Tracks(total, done, c) && NoCRLine(c.pending + p, true)
    ensures Tracks(total + p, done', Written(c, p))
  {
    hide Normalize, Events, EventsOf, Pending, Complete, NoCRLF, NoCRLine, NoBlankCR, Collapse;
    if p == [] {
      assert total + p == total;
      return done;
    }
    var text := Normalize(c.pending + p);
    NormalizedHasNoBlankCR(c.pending + p, true);
    EmitKeepsEvents(text, []);
    var cc := text[..|text| - |Pending(text)|];
    BlankCRPrefix(cc, Pending(text), true);
    CollapseWhole(cc, Pending(text));
    CollapsedWrite(total, done, c.pending, p);
    WholeLinesTogether(done, Collapse(cc));
    done' := done + Collapse(cc);
    assert done + (Collapse(cc) + Collapse(Pending(text))) == done' + Collapse(Pending(text));
    forall x
      ensures Events(done' + x) == Written(c, p).emitted + Events(x)
    {
      EmittedOnce(done, c.emitted, text, cc, x);
    }
  }

  lemma EmittedOnce(done: Bytes, emitted: seq<SSEEvent>, text: Bytes, cc: Bytes, x: Bytes)
    requires |Pending(text)| <= |text| && cc == text[..|text| - |Pending(text)|] && NoBlankCR(cc, true)
    requires forall y :: Events(done + y) == emitted + Events(y)
    ensures Events(done + Collapse(cc) + x) == emitted + EventsOf(Complete(text)) + Events(x)
  {
    hide Events, EventsOf, Pending, Complete, NoBlankCR, Collapse;
    EmitKeepsEvents(text, x);
    CollapsingKeepsEvents([], cc, x);
    assert [] + cc + x == cc + x && [] + Collapse(cc) + x == Collapse(cc) + x;
    assert done + Collapse(cc) + x == done + (Collapse(cc) + x);
  }

  /** Behind a write what is pending still makes no line of carriage returns with
      what is yet to come. */
  lemma PendingMakesNoCRLine(c: Capture, p: Bytes, rest: Bytes)
    requires NoCRLine(c.pending + p + rest, true)
    ensures NoCRLine(Written(c, p).pending + rest, true)
  {
    hide Normalize, Pending, NoCRLine, EventsOf, Complete, Events;
    if p == [] {
      assert c.pending + p == c.pending;
    } else {
      var text := Normalize(c.pending + p);
      NormalizingMakesNoCRLine(c.pending + p, rest, true);
      EmitKeepsEvents(text, []);
      var cc := text[..|text| - |Pending(text)|];
      assert text + rest == cc + (Pending(text) + rest);
      CRLineSuffix(cc, Pending(text) + rest, true);
    }
  }

  lemma {:induction false} WriteAllTracks(total: Bytes, done: Bytes, c: Capture, writes: seq<Bytes>)
    returns (done': Bytes)
    requires Tracks(total, done, c) && NoCRLine(c.pending + Concat(writes), true)
    ensures Tracks(total + Concat(writes), done', WriteAll(c, writes))
    ensures NoCRLine(WriteAll(c, writes).pending, true)
    decreases |writes|
  {
    hide Tracks, NoCRLine, Written;
    if writes == [] {
      assert total + [] == total && c.pending + [] == c.pending;
      return done;
    }
    var p, rest := writes[0], Concat(writes[1..]);
    assert total + Concat(writes) == total + p + rest;
    assert c.pending + Concat(writes) == c.pending + p + rest;
    CRLinePrefix(c.pending + p, rest, true);
    PendingMakesNoCRLine(c, p, rest);
    done' := WriteTracks(total, done, c, p);
    done' := WriteAllTracks(total + p, done', Written(c, p), writes[1..]);
  }

  /** The capture writer agrees with the batch parser: for every stream without a
      line of two or more carriage returns and nothing else, and every way of
      writing it, the events emitted so far followed by those of what is still
      pending are the events of the whole stream. */
  lemma {:induction false} WriterAgreesWithParser(writes: seq<Bytes>)
    requires NoCRLine(Concat(writes), true)
    ensures var c := WriteAll(FRESH, writes);
            c.emitted + Parse(c.pending) == Parse(Concat(writes))
  {
    hide NoCRLF, NoCRLine, WriteAll, Events, Collapse, Normalize;
    var total := Concat(writes);
    assert [] + total == total;
    assert Tracks([], [], FRESH) by { FreshTracks(); }
    var done := WriteAllTracks([], [], FRESH, writes);
    ParseIsCollapsed(total);
    ParseIsCollapsed(WriteAll(FRESH, writes).pending);
  }

  lemma FreshTracks()
    ensures Tracks([], [], FRESH)
  {
    hide Events;
    forall x
      ensures Events([] + x) == [] + Events(x)
    {
      assert [] + x == x && [] + Events(x) == Events(x);
    }
  }

  // ---------- where the two disagree ----------

  lemma {:induction false} OneChunk(s: Bytes)
    requires forall k :: 0 <= k < |s| - 1 ==> s[k] != LF || s[k + 1] != LF
    ensures SplitBlank(s) == [s]
    decreases |s|
  {
    if s != [] {
      OneChunk(s[1..]);
      SplitOne(s[0], s[1..]);
      assert s == [s[0]] + s[1..];
    }
  }

  lemma {:induction false} TwoChunks(a: Bytes, b: Bytes)
    requires NoBlankLine(a + [LF])
    ensures SplitBlank(a + [LF, LF] + b) == [a] + SplitBlank(b)
    decreases |a|
  {
    hide SplitBlank;
    if a == [] {
      SplitSeparator(b);
      assert a + [LF, LF] + b == [LF, LF] + b;
    } else {
      var rest := a[1..];
      assert (a + [LF])[1..] == rest + [LF];
      NoBlankLineBehind(a + [LF]);
      TwoChunks(rest, b);
      assert a + [LF, LF] + b == [a[0]] + (rest + [LF, LF] + b);
      assert (rest + [LF, LF] + b)[0] == (a + [LF])[1];
      assert !(a[0] == LF && (a + [LF])[1] == LF) by { NoBlankLineAt(a + [LF], 0); }
      SplitOne(a[0], rest + [LF, LF] + b);
      assert a == [a[0]] + rest;
    }
  }

  predicate NoBlankLine(s: Bytes) {
    forall k :: 0 <= k < |s| - 1 ==> s[k] != LF || s[k + 1] != LF
  }

  lemma NoBlankLineAt(s: Bytes, k: nat)
    requires NoBlankLine(s) && k + 1 < |s|
    ensures s[k] != LF || s[k + 1] != LF
  {
  }

  lemma NoBlankLineBehind(s: Bytes)
    requires NoBlankLine(s) && s != []
    ensures NoBlankLine(s[1..])
  {
    forall k | 0 <= k < |s[1..]| - 1
      ensures s[1..][k] != LF || s[1..][k + 1] != LF
    {
      NoBlankLineAt(s, k + 1);
    }
  }

  /** The lines of one event: none of them blank, their ends normalized, the last
      one without its end. */
  ghost predicate EventText(s: Bytes) {
    NoBlankLine([LF] + s + [LF]) && NoCRLF(s + [LF]) && |ChunkEvents(s)| == 1
  }

  lemma EventTextParts(s: Bytes)
    requires EventText(s)
    ensures s != [] && s[0] != LF && s[|s| - 1] != LF && NoBlankLine(s) && NoBlankLine(s + [LF]) && NoCRLF(s)
    ensures SplitBlank(s) == [s]
  {
    hide ChunkEvents, SplitBlank, NoBlankLine, NoCRLF;
    var framed := [LF] + s + [LF];
    NoBlankLineAt(framed, 0);
    NoBlankLineAt(framed, |s|);
    assert framed[0] == LF && framed[|s| + 1] == LF;
    assert s == [] || (framed[1] == s[0] && framed[|s|] == s[|s| - 1]);
    assert framed[1..] == s + [LF];
    NoBlankLineBehind(framed);
    NoBlankLineBefore(s, LF);
    PrefixHasNone(s, [LF]);
    NoBlankMeans(s);
    OneChunk(s);
  }

  lemma NoBlankLineBefore(s: Bytes, b: Byte)
    requires NoBlankLine(s + [b])
    ensures NoBlankLine(s)
  {
    forall k | 0 <= k < |s| - 1
      ensures s[k] != LF || s[k + 1] != LF
    {
      NoBlankLineAt(s + [b], k);
    }
  }

  function Letters(n: nat): Bytes {
    seq(n, _ => 97)
  }

  /** "event:" and some letters are an event of that name without data. */
  lemma NamedChunk(n: nat)
    requires n > 0
    ensures |ChunkEvents(EVENT_PREFIX + Letters(n))| == 1
  {
    hide TrimSpace, SplitLines, JoinLines;
    var chunk, name := EVENT_PREFIX + Letters(n), Letters(n);
    NothingToTrim(chunk);
    NothingToTrim(name);
    SplitOneLine(chunk);
    assert chunk[|EVENT_PREFIX|..] == name;
    assert Fields([], []).ReadAll([chunk]) == Fields([], []).Read(chunk).ReadAll([]);
  }

  /** There are such texts, of any length. */
  lemma NamedEventText(n: nat)
    requires n > 0
    ensures EventText(EVENT_PREFIX + Letters(n))
  {
    hide ChunkEvents;
    NamedChunk(n);
  }

  lemma AtMostOneEvent(chunk: Bytes)
    ensures |ChunkEvents(chunk)| <= 1
  {
  }

  lemma NoBlankMeans(s: Bytes)
    requires NoBlankLine(s)
    ensures forall k :: 0 <= k < |s| - 1 ==> s[k] != LF || s[k + 1] != LF
  {
  }

  lemma NothingIsNoBlankLine()
    ensures NoBlankLine([])
  {
  }

  lemma NoBlankLineOfPrefix(s: Bytes, t: Bytes)
    requires NoBlankLine(s + t)
    ensures NoBlankLine(s)
  {
    forall k | 0 <= k < |s| - 1
      ensures s[k] != LF || s[k + 1] != LF
    {
      NoBlankLineAt(s + t, k);
    }
  }

  function CRs(m: nat): Bytes {
    if m == 0 then [] else [CR] + CRs(m - 1)
  }

  lemma {:induction false} CRsAre(m: nat)
    ensures |CRs(m)| == m && forall k :: 0 <= k < m ==> CRs(m)[k] == CR
  {
    if m > 0 {
      CRsAre(m - 1);
    }
  }

  /** A text, and behind it a line of `m` carriage returns. */
  function Lines(a: Bytes, m: nat): Bytes {
    a + [LF] + CRs(m) + [LF]
  }

  lemma {:induction false} NormalizeCRs(m: nat, y: Bytes)
    requires m > 0 && NoCRLF(y)
    ensures Normalize(CRs(m) + [LF] + y) == CRs(m - 1) + [LF] + y
    decreases m
  {
    hide Normalize;
    if m == 1 {
      NormalizePair(y);
      NormalizeFixes(y);
      assert CRs(m) + [LF] + y == [CR, LF] + y && CRs(0) + [LF] + y == [LF] + y;
    } else {
      NormalizeCRs(m - 1, y);
      var rest := CRs(m - 1) + [LF] + y;
      assert CRs(m) + [LF] + y == [CR] + rest && rest[0] == CR;
      NormalizeOne(CR, rest);
      assert CRs(m - 1) + [LF] + y == [CR] + (CRs(m - 2) + [LF] + y);
    }
  }

  /** Every normalization takes one carriage return off. */
  lemma NormalizeLines(a: Bytes, m: nat, y: Bytes)
    requires m > 0 && NoCRLF(a + [LF]) && NoCRLF(y)
    ensures Normalize(Lines(a, m) + y) == Lines(a, m - 1) + y
  {
    hide Normalize, NoCRLF, CRs;
    NormalizeFixes(a + [LF]);
    NormalizeCRs(m, y);
    var tail := CRs(m) + [LF] + y;
    assert Lines(a, m) + y == (a + [LF]) + tail;
    NormalizeConcat(a + [LF], tail);
    assert Lines(a, m - 1) + y == (a + [LF]) + (CRs(m - 1) + [LF] + y);
  }

  /** As long as a carriage return is left, it is all one chunk. */
  lemma LinesAreOneChunk(a: Bytes, m: nat, y: Bytes)
    requires m > 0 && NoBlankLine(a + [LF]) && NoBlankLine(y) && (y != [] ==> y[0] != LF)
    ensures NoBlankLine(Lines(a, m) + y)
  {
    var s := Lines(a, m) + y;
    CRsAre(m);
    hide CRs;
    forall k | 0 <= k < |s| - 1
      ensures s[k] != LF || s[k + 1] != LF
    {
      if k < |a| {
        assert s[k] == (a + [LF])[k] && s[k + 1] == (a + [LF])[k + 1];
      } else if k == |a| {
        assert s[k + 1] == CRs(m)[0];
      } else if k <= |a| + m {
        assert s[k] == CRs(m)[k - |a| - 1];
      } else if k > |a| + m + 1 {
        NoBlankLineAt(y, k - |a| - m - 2);
      }
    }
  }

  lemma NoBlankAtEnd(s: Bytes)
    requires NoBlankLine(s)
    ensures !EndsBlank(s)
  {
    if |s| >= 2 {
      NoBlankLineAt(s, |s| - 2);
      var end := s[|s| - 2..];
      assert end[0] == s[|s| - 2] && end[1] == s[|s| - 1];
    }
  }

  /** A text without a blank line is held back whole. */
  lemma HeldBack(c: Capture, p: Bytes)
    requires p != [] && NoBlankLine(Normalize(c.pending + p))
    ensures Written(c, p) == c.(pending := Normalize(c.pending + p))
  {
    hide Normalize, SplitBlank, ChunkEvents, NoBlankLine;
    var text := Normalize(c.pending + p);
    NoBlankMeans(text);
    OneChunk(text);
    NoBlankAtEnd(text);
    assert Front([text]) == [] && c.emitted + EventsOf([]) == c.emitted;
  }

  /** The beginning of an event text, as far as it has been written. */
  ghost predicate Begins(y: Bytes) {
    y != [] && y[0] != LF && NoBlankLine(y) && NoCRLF(y)
  }

  lemma BeginningBegins(y: Bytes, rest: Bytes)
    requires y != [] && EventText(y + rest)
    ensures Begins(y)
  {
    hide NoBlankLine, NoCRLF, ChunkEvents;
    EventTextParts(y + rest);
    NoBlankLineOfPrefix(y, rest);
    PrefixHasNone(y, rest);
  }

  lemma OneLess(a: Bytes, m: nat, y: Bytes, p: Bytes)
    requires EventText(a) && m > 1 && p != [] && Begins(y + p)
    ensures Written(Capture(Lines(a, m) + y, []), p) == Capture(Lines(a, m - 1) + (y + p), [])
  {
    hide Normalize, NoBlankLine, NoCRLF, ChunkEvents, Written, Lines;
    EventTextParts(a);
    assert NoCRLF(a + [LF]) by { EventTextEnds(a); }
    NormalizeLines(a, m, y + p);
    assert (Lines(a, m) + y) + p == Lines(a, m) + (y + p);
    LinesAreOneChunk(a, m - 1, y + p);
    HeldBack(Capture(Lines(a, m) + y, []), p);
  }

  lemma EventTextEnds(a: Bytes)
    requires EventText(a)
    ensures NoCRLF(a + [LF])
  {
  }

  /** The last carriage return gone, the line is blank and the event is out. */
  lemma NoneLeft(a: Bytes, y: Bytes, p: Bytes)
    requires EventText(a) && p != [] && Begins(y + p)
    ensures Written(Capture(Lines(a, 1) + y, []), p) == Capture(y + p, ChunkEvents(a))
  {
    hide Normalize, SplitBlank, ChunkEvents, NoBlankLine, NoCRLF;
    EventTextParts(a);
    assert NoCRLF(a + [LF]) by { EventTextEnds(a); }
    var b := y + p;
    NormalizeLines(a, 1, b);
    assert (Lines(a, 1) + y) + p == Lines(a, 1) + b;
    var text := a + [LF, LF] + b;
    assert Lines(a, 0) + b == text;
    TwoChunks(a, b);
    NoBlankMeans(b);
    OneChunk(b);
    assert !EndsBlank(text) by {
      assert text[|text| - 2..][1] == b[|b| - 1];
      assert |b| >= 2 ==> text[|text| - 2..][0] == b[|b| - 2];
    }
    assert SplitBlank(text)[..1] == [a];
    assert EventsOf([a]) == ChunkEvents(a) + EventsOf([]);
    assert [] + EventsOf([a]) == ChunkEvents(a);
  }

  predicate NoneEmpty(pieces: seq<Bytes>) {
    forall k :: 0 <= k < |pieces| ==> pieces[k] != []
  }

  lemma {:induction false} WrittenInPieces(a: Bytes, m: nat, y: Bytes, pieces: seq<Bytes>)
    requires EventText(a) && m > 0 && |pieces| == m && NoneEmpty(pieces) && EventText(y + Concat(pieces))
    ensures WriteAll(Capture(Lines(a, m) + y, []), pieces) == Capture(y + Concat(pieces), ChunkEvents(a))
    decreases m
  {
    hide EventText, Lines, Written, ChunkEvents;
    var p, rest := pieces[0], pieces[1..];
    assert y + Concat(pieces) == (y + p) + Concat(rest);
    BeginningBegins(y + p, Concat(rest));
    if m == 1 {
      NoneLeft(a, y, p);
      assert rest == [] && (y + p) + [] == y + p;
    } else {
      OneLess(a, m, y, p);
      WrittenInPieces(a, m - 1, y + p, rest);
    }
  }

  /** Parsed at once, the two events and the line between them are one chunk. */
  lemma WholeStreamIsOneChunk(a: Bytes, k: nat, b: Bytes)
    requires EventText(a) && EventText(b) && k > 1
    ensures |Parse(Lines(a, k) + b)| <= 1
  {
    hide Normalize, SplitBlank, ChunkEvents, NoBlankLine, NoCRLF, Lines;
    EventTextParts(a);
    EventTextParts(b);
    assert NoCRLF(a + [LF]) by { EventTextEnds(a); }
    NormalizeLines(a, k, b);
    var whole := Lines(a, k - 1) + b;
    LinesAreOneChunk(a, k - 1, b);
    NoBlankMeans(whole);
    OneChunk(whole);
    assert EventsOf([whole]) == ChunkEvents(whole) + EventsOf([]);
    AtMostOneEvent(whole);
  }

  lemma FirstWriteIsHeld(a: Bytes, k: nat)
    requires EventText(a) && k > 1
    ensures Written(FRESH, Lines(a, k)) == Capture(Lines(a, k - 1), [])
  {
    hide Normalize, NoBlankLine, NoCRLF, ChunkEvents, Written, CRs;
    EventTextParts(a);
    assert NoCRLF(a + [LF]) by { EventTextEnds(a); }
    assert NoCRLF([]) by { NothingHasCRLF(); }
    NormalizeLines(a, k, []);
    NothingIsNoBlankLine();
    LinesAreOneChunk(a, k - 1, []);
    assert Lines(a, k) + [] == Lines(a, k) && [] + Lines(a, k) == Lines(a, k);
    assert Lines(a, k - 1) + [] == Lines(a, k - 1);
    HeldBack(FRESH, Lines(a, k));
  }

  lemma NothingHasCRLF()
    ensures NoCRLF([])
  {
  }

  /** The writer agrees with the parser on these writes. */
  predicate Agrees(writes: seq<Bytes>) {
    var c := WriteAll(FRESH, writes);
    c.emitted + Parse(c.pending) == Parse(Concat(writes))
  }

  /** Where a line of two or more carriage returns stands between two events the
      two do disagree: cut behind that line, and with as many writes behind it as
      it takes to use the carriage returns up, the stream gives both events; parsed
      at once it gives at most one. */
  lemma {:induction false} WriterDisagreesOnCRLine(a: Bytes, k: nat, pieces: seq<Bytes>)
    requires EventText(a) && EventText(Concat(pieces)) && k > 1 && |pieces| == k - 1 && NoneEmpty(pieces)
    ensures var b := Concat(pieces);
            var writes := [Lines(a, k)] + pieces;
            var c := WriteAll(FRESH, writes);
            && Concat(writes) == Lines(a, k) + b
            && c.emitted + Parse(c.pending) == ChunkEvents(a) + ChunkEvents(b)
            && |c.emitted + Parse(c.pending)| == 2 && |Parse(Concat(writes))| <= 1
            && !Agrees(writes)
  {
    hide Normalize, SplitBlank, ChunkEvents, Written, Lines, NoBlankLine;
    var b, writes := Concat(pieces), [Lines(a, k)] + pieces;
    FirstWriteIsHeld(a, k);
    assert Lines(a, k - 1) + [] == Lines(a, k - 1) && [] + b == b;
    WrittenInPieces(a, k - 1, [], pieces);
    assert writes[1..] == pieces;
    WholeStreamIsOneChunk(a, k, b);
    EventTextParts(b);
    NormalizeFixes(b);
    assert EventsOf([b]) == ChunkEvents(b) + EventsOf([]);
  }

  function Pieces(b: Bytes, m: nat): (pieces: seq<Bytes>)
    requires 0 < m <= |b|
    ensures |pieces| == m && NoneEmpty(pieces) && Concat(pieces) == b
    decreases m
  {
    if m == 1 then assert [b][1..] == [] && b + [] == b; [b]
    else
      var rest := Pieces(b[1..], m - 1);
      assert ([b[..1]] + rest)[1..] == rest && b[..1] + b[1..] == b;
      [b[..1]] + rest
  }

  lemma CRCRLFBehindLine(u: Bytes, v: Bytes)
    requires NoCRCRLF(u) && NoCRCRLF(v) && u != [] && u[|u| - 1] == LF
    ensures NoCRCRLF(u + v)
  {
    var s := u + v;
    forall n: nat
      ensures !CRCRLFAt(s, n)
    {
      if n + 2 < |u| {
        assert CRCRLFAt(s, n) ==> CRCRLFAt(u, n);
      } else if n >= |u| {
        assert CRCRLFAt(s, n) ==> CRCRLFAt(v, n - |u|);
      }
    }
  }

  lemma NoCRLFNoCRCRLF(s: Bytes)
    requires NoCRLF(s)
    ensures NoCRCRLF(s)
  {
    forall n: nat
      ensures !CRCRLFAt(s, n)
    {
      assert !CRLFAt(s, n + 1);
    }
  }

  lemma OneCRLineIsFine(k: nat)
    requires k <= 1
    ensures NoCRCRLF(CRs(k) + [LF]) && |CRs(k)| == k
  {
  }

  lemma FewCRsBefore(k: nat, b: Bytes)
    requires NoCRLF(b) && k <= 1
    ensures NoCRCRLF(CRs(k) + [LF] + b)
  {
    OneCRLineIsFine(k);
    NoCRLFNoCRCRLF(b);
    hide NoCRLF, NoCRCRLF, CRs;
    var line := CRs(k) + [LF];
    assert line[|line| - 1] == LF;
    CRCRLFBehindLine(line, b);
  }

  lemma LinesInTwo(a: Bytes, k: nat, b: Bytes)
    ensures Lines(a, k) + b == (a + [LF]) + (CRs(k) + [LF] + b)
  {
    hide CRs;
  }

  lemma FewCRs(a: Bytes, k: nat, b: Bytes)
    requires EventText(a) && EventText(b) && k <= 1
    ensures NoCRCRLF(Lines(a, k) + b)
  {
    EventTextEnds(a);
    assert NoCRLF(b) by { EventTextParts(b); }
    hide EventText, NoCRLF, NoCRCRLF, CRs, Lines;
    NoCRLFNoCRCRLF(a + [LF]);
    FewCRsBefore(k, b);
    LinesInTwo(a, k, b);
    CRCRLFBehindLine(a + [LF], CRs(k) + [LF] + b);
  }

  /** Between two events, agreement under every cut holds for all event texts if
      and only if the line between them has at most one carriage return. */
  lemma {:induction false} CRLineBetweenEventsIff(k: nat)
    ensures (forall a, b, writes ::
               EventText(a) && EventText(b) && Concat(writes) == Lines(a, k) + b ==> Agrees(writes))
            <==> k <= 1
  {
    hide EventText, Lines, Agrees;
    if k <= 1 {
      forall a, b, writes | EventText(a) && EventText(b) && Concat(writes) == Lines(a, k) + b
        ensures Agrees(writes)
      {
        FewCRs(a, k, b);
        NoCRCRLFHasNoCRLine(Concat(writes), true);
        WriterAgrees(writes);
      }
    } else {
      var a, b := EVENT_PREFIX + Letters(1), EVENT_PREFIX + Letters(k);
      NamedEventText(1);
      NamedEventText(k);
      var pieces := Pieces(b, k - 1);
      WriterDisagreesOnCRLine(a, k, pieces);
      assert EventText(a) && EventText(b) && Concat([Lines(a, k)] + pieces) == Lines(a, k) + b;
    }
  }

  lemma WriterAgrees(writes: seq<Bytes>)
    requires NoCRLine(Concat(writes), true)
    ensures Agrees(writes)
  {
    hide NoCRLine, WriteAll, Parse;
    WriterAgreesWithParser(writes);
  }
}
