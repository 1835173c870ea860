/** Server-sent events in the chat runtime: the batch parser `ParseSSE` and the
    capture writer that emits events while the stream is still being written. */
module ChatRuntime {
  import opened GoStrings

  const EVENT_PREFIX: Bytes := [101, 118, 101, 110, 116, 58]  // "event:"
  const DATA_PREFIX: Bytes := [100, 97, 116, 97, 58]          // "data:"

  datatype SSEEvent = SSEEvent(event: Bytes, data: Bytes)

  /** What the lines read so far say: the last event name and all data lines. */
  datatype Fields = Fields(event: Bytes, data: seq<Bytes>) {
    function Read(line: Bytes): Fields {
      if EVENT_PREFIX <= line then this.(event := TrimSpace(line[|EVENT_PREFIX|..]))
      else if DATA_PREFIX <= line then this.(data := data + [TrimSpace(line[|DATA_PREFIX|..])])
      else this
    }

    function ReadAll(lines: seq<Bytes>): Fields
      decreases |lines|
    {
      if lines == [] then this else Read(lines[0]).ReadAll(lines[1..])
    }
  }

  /** The events of one chunk: one if it names an event, otherwise none. */
  function ChunkEvents(chunk: Bytes): seq<SSEEvent> {
    var fields := Fields([], []).ReadAll(SplitLines(TrimSpace(chunk)));
    if TrimSpace(chunk) == [] || fields.event == [] then []
    else [SSEEvent(fields.event, JoinLines(fields.data))]
  }

  function EventsOf(chunks: seq<Bytes>): seq<SSEEvent> {
    if chunks == [] then [] else ChunkEvents(chunks[0]) + EventsOf(chunks[1..])
  }

  lemma NextChunk(chunks: seq<Bytes>, n: nat)
    requires n < |chunks|
    ensures EventsOf(chunks[n..]) == ChunkEvents(chunks[n]) + EventsOf(chunks[n + 1..])
  {
    hide ChunkEvents;
    assert chunks[n..][1..] == chunks[n + 1..];
  }

  /** The events of a text whose line ends are already normalized. */
  function Events(text: Bytes): seq<SSEEvent> {
    EventsOf(SplitBlank(text))
  }

  /** `ParseSSE` on a whole stream. */
  function Parse(raw: Bytes): seq<SSEEvent> {
    Events(Normalize(raw))
  }

  /** `parseSSEChunk`. */
  method ParseSSEChunk(chunk: Bytes) returns (event: SSEEvent, ok: bool)
    ensures var fields := Fields([], []).ReadAll(SplitLines(chunk));
            && ok == (fields.event != [])
            && event == (if ok then SSEEvent(fields.event, JoinLines(fields.data)) else SSEEvent([], []))
  {
    var eventName: Bytes := [];
    var dataLines: seq<Bytes> := [];
    var lines := SplitLines(chunk);
    for n := 0 to |lines|
      invariant Fields([], []).ReadAll(lines) == Fields(eventName, dataLines).ReadAll(lines[n..])
    {
      var line := lines[n];
      if EVENT_PREFIX <= line {
        eventName := TrimSpace(line[|EVENT_PREFIX|..]);
      } else if DATA_PREFIX <= line {
        dataLines := dataLines + [TrimSpace(line[|DATA_PREFIX|..])];
      }
    }
    if eventName == [] {
      return SSEEvent([], []), false;
    }
    return SSEEvent(eventName, JoinLines(dataLines)), true;
  }

  /** `ParseSSE`. */
  method ParseSSE(raw: Bytes) returns (events: seq<SSEEvent>)
    ensures events == Parse(raw)
  {
    hide TrimSpace, SplitLines, JoinLines, Fields.ReadAll, SplitBlank, Normalize, EventsOf;
    var chunks := SplitBlank(Normalize(raw));
    events := [];
    assert chunks[0..] == chunks;
    for n := 0 to |chunks|
      invariant EventsOf(chunks) == events + EventsOf(chunks[n..])
    {
      NextChunk(chunks, n);
      var chunk := TrimSpace(chunks[n]);
      if chunk == [] {
        continue;
      }
      var event, ok := ParseSSEChunk(chunk);
      if ok {
        events := events + [event];
      }
    }
    NoChunks(chunks);
  }

  lemma NoChunks(chunks: seq<Bytes>)
    ensures EventsOf(chunks[|chunks|..]) == []
  {
  }

  // ---------- the capture writer ----------

  /** What `emitCompleteEvents` leaves pending of a normalized buffer, and the
      chunks it hands out. */
  function Pending(text: Bytes): Bytes {
    var parts := SplitBlank(text);
    if EndsBlank(text) then [] else parts[|parts| - 1]
  }

  function Complete(text: Bytes): seq<Bytes> {
    var parts := SplitBlank(text);
    if EndsBlank(text) then parts else parts[..|parts| - 1]
  }

  predicate EndsBlank(text: Bytes) {
    |text| >= 2 && text[|text| - 2..] == [LF, LF]
  }

  /** What a listening writer holds back and has emitted. */
  datatype Capture = Capture(pending: Bytes, emitted: seq<SSEEvent>)

  const FRESH := Capture([], [])

  function Written(c: Capture, p: Bytes): Capture {
    if p == [] then c
    else
      var text := Normalize(c.pending + p);
      Capture(Pending(text), c.emitted + EventsOf(Complete(text)))
  }

  /** `streamCaptureWriter`; `emitted` is the sequence of calls to `onEvent`. */
  class StreamCaptureWriter {
    var status: int
    var body: Bytes
    var pending: Bytes
    var emitted: seq<SSEEvent>
    const listening: bool

    function Value(): Capture
      reads this`pending, this`emitted
    {
      Capture(pending, emitted)
    }

    constructor (listening: bool)
      ensures status == 200 && body == [] && Value() == FRESH && this.listening == listening
    {
      status, body, pending, emitted := 200, [], [], [];
      this.listening := listening;
    }

    method WriteHeader(status: int)
      modifies this`status
      ensures this.status == status
    {
      this.status := status;
    }

    method Write(p: Bytes) returns (n: nat)
      modifies this`body, this`pending, this`emitted
      ensures n == |p| && body == old(body) + p
      ensures Value() == if listening then Written(old(Value()), p) else old(Value())
    {
      if |p| == 0 {
        assert body + p == body;
        return 0;
      }
      body := body + p;
      if listening {
        pending := pending + p;
        EmitCompleteEvents();
      }
      return |p|;
    }

    method EmitCompleteEvents()
      modifies this`pending, this`emitted
      ensures var text := Normalize(old(pending));
              pending == Pending(text) && emitted == old(emitted) + EventsOf(Complete(text))
    {
      hide TrimSpace, SplitLines, JoinLines, Fields.ReadAll, SplitBlank, Normalize, EventsOf;
      var normalized := Normalize(pending);
      var parts := SplitBlank(normalized);
      var lastIndex := |parts| - 1;
      if |normalized| >= 2 && normalized[|normalized| - 2..] == [LF, LF] {
        pending := [];
      } else {
        pending := parts[lastIndex];
        parts := parts[..lastIndex];
      }
      assert pending == Pending(normalized) && parts == Complete(normalized);
      hide Pending, Complete, EndsBlank;
      ghost var before := emitted;
      assert parts[0..] == parts;
      for n := 0 to |parts|
        invariant before + EventsOf(parts) == emitted + EventsOf(parts[n..])
        invariant pending == Pending(normalized)
      {
        NextChunk(parts, n);
        var chunk := TrimSpace(parts[n]);
        if chunk == [] {
          continue;
        }
        var event, ok := ParseSSEChunk(chunk);
        if ok {
          emitted := emitted + [event];
        }
      }
      NoChunks(parts);
    }
  }
}
