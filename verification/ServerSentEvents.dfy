/**
 * The event stream the gateway writes, and the reader of the WHATWG HTML standard: parsing is its section 9.2.5,
 * interpreting its section 9.2.6.
 */
module ServerSentEvents {
  // ---- the writer ----

  // One message: its JSON body framed as an event of its own
  function Marshal(body: string): string {
    "data: " + body + "\n\n"
  }

  function MarshalAll(bodies: seq<string>): string {
    if bodies == [] then "" else Marshal(bodies[0]) + MarshalAll(bodies[1..])
  }

  function Concat(chunks: seq<string>): string {
    if chunks == [] then "" else chunks[0] + Concat(chunks[1..])
  }

  datatype Encoded = Written | MarshalFailed

  // A response writer that flushes each message as its own chunk; the delimiter between messages is empty.
  class ResponseWriter {
    var chunks: seq<string>

    constructor ()
      ensures chunks == []
    {
      chunks := [];
    }

    // body is None when the JSON marshaller fails; then nothing is written.
    method Encode(body: string, fails: bool) returns (result: Encoded)
      modifies this
      ensures result == if fails then MarshalFailed else Written
      ensures chunks == old(chunks) + (if fails then [] else [Marshal(body)])
      ensures !fails ==> chunks == old(chunks) + ["data: " + body + "\n\n"]
    {
      if fails {
        return MarshalFailed;
      }
      var buffer := "data: ";
      buffer := buffer + body;
      buffer := buffer + "\n\n";
      chunks := chunks + [buffer];
      return Written;
    }
  }

  // ---- interpreting lines (section 9.2.6) ----

  datatype Event = Event(kind: string, data: string, lastEventId: string)

  datatype Stream = Stream(data: string, kind: string, lastEventId: string, retry: string, events: seq<Event>)

  const EMPTY_STREAM := Stream("", "", "", "", [])

  function Dispatch(s: Stream): Stream {
    if s.data == "" then s.(kind := "")
    else
      var data := if s.data[|s.data| - 1] == '\n' then s.data[..|s.data| - 1] else s.data;
      var event := Event(if s.kind == "" then "message" else s.kind, data, s.lastEventId);
      s.(data := "", kind := "", events := s.events + [event])
  }

  function ProcessField(s: Stream, field: string, value: string): Stream {
    if field == "event" then s.(kind := value)
    else if field == "data" then s.(data := s.data + value + "\n")
    else if field == "id" then (if '\0' in value then s else s.(lastEventId := value))
    else if field == "retry" then (if forall c | c in value :: '0' <= c <= '9' then s.(retry := value) else s)
    else s
  }

  function Colon(line: string): nat
    ensures Colon(line) <= |line|
  {
    if line == "" || line[0] == ':' then 0 else 1 + Colon(line[1..])
  }

  function WithoutSpace(value: string): string {
    if value != "" && value[0] == ' ' then value[1..] else value
  }

  function ProcessLine(s: Stream, line: string): Stream {
    if line == "" then Dispatch(s)
    else if line[0] == ':' then s
    else
      var i := Colon(line);
      if i < |line| then ProcessField(s, line[..i], WithoutSpace(line[i + 1..]))
      else ProcessField(s, line, "")
  }

  function ProcessLines(s: Stream, lines: seq<string>): Stream
    decreases |lines|
  {
    if lines == [] then s else ProcessLines(ProcessLine(s, lines[0]), lines[1..])
  }

  // ---- parsing a whole stream (section 9.2.5): lines end in CR LF, LF or CR; an unfinished line is dropped ----

  const BOM := '\U{FEFF}'

  function Decode(text: string): string {
    if text != "" && text[0] == BOM then text[1..] else text
  }

  function Lines(line: string, text: string): seq<string>
    decreases |text|
  {
    if text == "" then []
    else if text[0] == '\n' then [line] + Lines("", text[1..])
    else if text[0] == '\r' then
      [line] + Lines("", if |text| > 1 && text[1] == '\n' then text[2..] else text[1..])
    else Lines(line + [text[0]], text[1..])
  }

  function Parse(text: string): Stream {
    ProcessLines(EMPTY_STREAM, Lines("", Decode(text)))
  }

  // ---- parsing as the bytes arrive ----

  datatype Reader = Reader(started: bool, afterCr: bool, line: string, stream: Stream)

  const FRESH := Reader(false, false, "", EMPTY_STREAM)

  function Feed(r: Reader, c: char): Reader {
    if !r.started && c == BOM then r.(started := true)
    else if r.afterCr && c == '\n' then r.(afterCr := false)
    else if c == '\n' || c == '\r' then Reader(true, c == '\r', "", ProcessLine(r.stream, r.line))
    else Reader(true, false, r.line + [c], r.stream)
  }

  function FeedAll(r: Reader, text: string): Reader
    decreases |text|
  {
    if text == "" then r else FeedAll(Feed(r, text[0]), text[1..])
  }

  function FeedChunks(r: Reader, chunks: seq<string>): Reader
    decreases |chunks|
  {
    if chunks == [] then r else FeedChunks(FeedAll(r, chunks[0]), chunks[1..])
  }

  lemma {:induction false} FeedConcat(r: Reader, a: string, b: string)
    ensures FeedAll(r, a + b) == FeedAll(FeedAll(r, a), b)
    decreases |a|
  {
    if a == "" {
      assert a + b == b;
    } else {
      FeedConcat(Feed(r, a[0]), a[1..], b);
      assert (a + b)[0] == a[0] && (a + b)[1..] == a[1..] + b;
    }
  }

  lemma {:induction false} ChunksAreOneText(r: Reader, chunks: seq<string>)
    ensures FeedChunks(r, chunks) == FeedAll(r, Concat(chunks))
    decreases |chunks|
  {
    if chunks == [] {
    } else {
      ChunksAreOneText(FeedAll(r, chunks[0]), chunks[1..]);
      FeedConcat(r, chunks[0], Concat(chunks[1..]));
    }
  }

  lemma {:induction false} FeedIsLines(r: Reader, text: string)
    requires r.started
    ensures FeedAll(r, text).stream ==
              var rest := if r.afterCr && text != "" && text[0] == '\n' then text[1..] else text;
              ProcessLines(r.stream, Lines(r.line, rest))
    decreases |text|
  {
    if text == "" {
    } else {
      FeedIsLines(Feed(r, text[0]), text[1..]);
    }
  }

  // However the bytes are cut into chunks, the reader ends where parsing the whole text ends.
  lemma ChunkingDoesNotMatter(chunks: seq<string>)
    ensures FeedChunks(FRESH, chunks).stream == Parse(Concat(chunks))
  {
    ChunksAreOneText(FRESH, chunks);
    var text := Concat(chunks);
    if text != "" {
      if text[0] == BOM {
        FeedIsLines(Feed(FRESH, BOM), text[1..]);
      } else {
        FeedIsLines(FRESH.(started := true), text);
        assert Feed(FRESH, text[0]) == Feed(FRESH.(started := true), text[0]);
      }
    }
  }
}
