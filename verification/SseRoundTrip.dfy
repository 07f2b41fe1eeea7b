/** What a standard reader makes of the marshalled stream: exactly the bodies, if and only if none breaks a line. */
module SseRoundTrip {
  import opened ServerSentEvents

  predicate OneLine(body: string) {
    '\n' !in body && '\r' !in body
  }

  // Between two events the reader holds no pending input.
  predicate Idle(r: Reader) {
    !r.afterCr && r.line == "" && r.stream.data == "" && r.stream.kind == ""
  }

  function Datas(events: seq<Event>): seq<string> {
    seq(|events|, i requires 0 <= i < |events| => events[i].data)
  }

  // ---- bodies without line breaks come back ----

  lemma {:induction false} FeedOneLine(r: Reader, text: string)
    requires r.started && !r.afterCr && OneLine(text)
    ensures FeedAll(r, text) == r.(line := r.line + text)
    decreases |text|
  {
    if text != "" {
      assert text[0] in text;
      FeedOneLine(Feed(r, text[0]), text[1..]);
      assert r.line + text == r.line + [text[0]] + text[1..];
    } else {
      assert r.line + text == r.line;
    }
  }

  lemma {:induction false} ColonAfter(field: string, rest: string)
    requires ':' !in field
    ensures Colon(field + ":" + rest) == |field|
  {
    if field == "" {
    } else {
      ColonAfter(field[1..], rest);
      assert (field + ":" + rest)[1..] == field[1..] + ":" + rest;
    }
  }

  lemma DataLine(s: Stream, body: string)
    ensures ProcessLine(s, "data: " + body) == s.(data := s.data + body + "\n")
  {
    var line := "data: " + body;
    assert line == "data" + ":" + (" " + body);
    ColonAfter("data", " " + body);
    assert line[..4] == "data" && line[5..] == " " + body;
    assert (" " + body)[1..] == body;
  }

  lemma NamedField(s: Stream, field: string, value: string)
    requires ':' !in field && field != ""
    ensures ProcessLine(s, field + ": " + value) == ProcessField(s, field, value)
  {
    var line := field + ": " + value;
    assert line == field + ":" + (" " + value);
    ColonAfter(field, " " + value);
    assert line[..|field|] == field && line[|field| + 1..] == " " + value;
    assert (" " + value)[1..] == value;
  }

  // The other lines of section 9.2.6: event and id fields, comments, and the blank line that dispatches
  lemma EventLine(s: Stream, value: string)
    ensures ProcessLine(s, "event" + ": " + value) == s.(kind := value)
  {
    NamedField(s, "event", value);
  }

  lemma IdLine(s: Stream, value: string)
    ensures ProcessLine(s, "id" + ": " + value) == if '\0' in value then s else s.(lastEventId := value)
  {
    NamedField(s, "id", value);
  }

  lemma CommentLine(s: Stream, value: string)
    ensures ProcessLine(s, [':'] + value) == s
  {
  }

  lemma BlankLine(s: Stream)
    ensures ProcessLine(s, "") ==
              if s.data == "" then s.(kind := "")
              else Stream("", "", s.lastEventId, s.retry, s.events +
                     [Event(if s.kind == "" then "message" else s.kind,
                            if s.data[|s.data| - 1] == '\n' then s.data[..|s.data| - 1] else s.data,
                            s.lastEventId)])
  {
  }

  // The reader after the start of a message, up to its first line break
  lemma FeedFirstLine(r: Reader, body: string)
    requires Idle(r) && OneLine(body)
    ensures FeedAll(r, "data: " + body) == Reader(true, false, "data: " + body, r.stream)
  {
    var text := "data: " + body;
    assert text == "d" + ("ata: " + body);
    var r' := Reader(true, false, "d", r.stream);
    assert Feed(r, 'd') == r';
    FeedOneLine(r', "ata: " + body);
    assert text[1..] == "ata: " + body;
  }

  lemma FeedBreaks(r: Reader, line: string)
    requires r.started && !r.afterCr && r.line == line
    ensures FeedAll(r, "\n\n") == Reader(true, false, "", ProcessLine(ProcessLine(r.stream, line), ""))
  {
    assert "\n\n"[1..] == "\n" && "\n"[1..] == "";
    var r1 := Feed(r, '\n');
    assert FeedAll(r, "\n\n") == FeedAll(r1, "\n");
    assert FeedAll(r1, "\n") == FeedAll(Feed(r1, '\n'), "");
  }

  lemma OneMessage(r: Reader, body: string)
    requires Idle(r) && OneLine(body)
    ensures FeedAll(r, Marshal(body)) ==
              Reader(true, false, "", r.stream.(events := r.stream.events +
                                                          [Event("message", body, r.stream.lastEventId)]))
  {
    FeedConcat(r, "data: " + body, "\n\n");
    FeedFirstLine(r, body);
    FeedBreaks(Reader(true, false, "data: " + body, r.stream), "data: " + body);
    DataLine(r.stream, body);
    assert "" + body + "\n" == body + "\n";
    assert (body + "\n")[..|body|] == body;
  }

  function Messages(bodies: seq<string>, lastEventId: string): seq<Event> {
    seq(|bodies|, i requires 0 <= i < |bodies| => Event("message", bodies[i], lastEventId))
  }

  lemma MessagesCons(events: seq<Event>, bodies: seq<string>, id: string)
    requires bodies != []
    ensures events + [Event("message", bodies[0], id)] + Messages(bodies[1..], id) == events + Messages(bodies, id)
  {
  }

  lemma {:induction false} MessagesComeBack(r: Reader, bodies: seq<string>)
    requires Idle(r) && forall b | b in bodies :: OneLine(b)
    ensures var r' := FeedAll(r, MarshalAll(bodies));
            && Idle(r')
            && r'.stream.lastEventId == r.stream.lastEventId
            && r'.stream.events == r.stream.events + Messages(bodies, r.stream.lastEventId)
    decreases |bodies|
  {
    if bodies == [] {
    } else {
      FeedConcat(r, Marshal(bodies[0]), MarshalAll(bodies[1..]));
      OneMessage(r, bodies[0]);
      MessagesComeBack(FeedAll(r, Marshal(bodies[0])), bodies[1..]);
      MessagesCons(r.stream.events, bodies, r.stream.lastEventId);
    }
  }

  // ---- a body with a line break never comes back: the reader loses weight on it ----

  function Total(events: seq<Event>): nat {
    if events == [] then 0 else Total(events[..|events| - 1]) + |events[|events| - 1].data| + 1
  }

  function Weight(s: Stream): nat {
    Total(s.events) + |s.data|
  }

  function Size(bodies: seq<string>): nat {
    if bodies == [] then 0 else |bodies[0]| + 1 + Size(bodies[1..])
  }

  // Every line of the data buffer is terminated, and a CR leaves no line begun.
  predicate Sane(r: Reader) {
    && (r.stream.data == "" || r.stream.data[|r.stream.data| - 1] == '\n')
    && (r.afterCr ==> r.line == "")
  }

  lemma LineWeighs(s: Stream, line: string)
    requires s.data == "" || s.data[|s.data| - 1] == '\n'
    ensures var s' := ProcessLine(s, line);
            && (s'.data == "" || s'.data[|s'.data| - 1] == '\n')
            && Weight(s') <= Weight(s) + |line|
  {
    if line == "" && s.data != "" {
      var s' := Dispatch(s);
      assert s'.events[..|s'.events| - 1] == s.events;
    }
  }

  lemma CharWeighs(r: Reader, c: char)
    requires Sane(r)
    ensures var r' := Feed(r, c);
            Sane(r') && Weight(r'.stream) + |r'.line| <= Weight(r.stream) + |r.line| + 1
  {
    if (!r.started && c == BOM) || (r.afterCr && c == '\n') {
      assert Feed(r, c).stream == r.stream && Feed(r, c).line == r.line;
    } else if c == '\n' || c == '\r' {
      LineWeighs(r.stream, r.line);
    } else {
      assert Feed(r, c).stream == r.stream && |Feed(r, c).line| == |r.line| + 1;
    }
  }

  lemma {:induction false} FeedWeighs(r: Reader, text: string)
    requires Sane(r)
    ensures var r' := FeedAll(r, text);
            Sane(r') && Weight(r'.stream) + |r'.line| <= Weight(r.stream) + |r.line| + |text|
    decreases |text|
  {
    if text == "" {
    } else {
      CharWeighs(r, text[0]);
      FeedWeighs(Feed(r, text[0]), text[1..]);
    }
  }

  lemma BreaksEndTheMessage(r: Reader)
    requires Sane(r) && r.started
    ensures var r' := FeedAll(r, "\n\n");
            Sane(r') && Idle(r') && Weight(r'.stream) <= Weight(r.stream) + |r.line|
  {
    assert "\n\n"[1..] == "\n" && "\n"[1..] == "";
    var r1 := Feed(r, '\n');
    var r2 := Feed(r1, '\n');
    assert FeedAll(r, "\n\n") == FeedAll(r1, "\n");
    assert FeedAll(r1, "\n") == FeedAll(r2, "");
    LineWeighs(r.stream, r.line);
    LineWeighs(r1.stream, r1.line);
    assert r1.line == "" && !r1.afterCr;
  }

  lemma {:induction false} FirstBreak(body: string) returns (i: nat)
    requires !OneLine(body)
    ensures i < |body| && OneLine(body[..i]) && (body[i] == '\n' || body[i] == '\r')
  {
    if body[0] == '\n' || body[0] == '\r' {
      i := 0;
    } else {
      assert body == [body[0]] + body[1..];
      i := FirstBreak(body[1..]);
      i := i + 1;
      assert body[..i] == [body[0]] + body[1..][..i - 1];
    }
  }

  lemma {:induction false} FeedStarts(r: Reader, text: string)
    requires r.started
    ensures FeedAll(r, text).started
    decreases |text|
  {
    if text == "" {
    } else {
      FeedStarts(Feed(r, text[0]), text[1..]);
    }
  }

  lemma BrokenMessageWeighs(r: Reader, body: string)
    requires Idle(r) && !OneLine(body)
    ensures var r' := FeedAll(r, Marshal(body));
            Sane(r') && Idle(r') && Weight(r'.stream) <= Weight(r.stream) + |body|
  {
    var i := FirstBreak(body);
    var x, c, y := body[..i], body[i], body[i + 1..];
    assert Marshal(body) == ("data: " + x) + ([c] + (y + "\n\n"));
    FeedConcat(r, "data: " + x, [c] + (y + "\n\n"));
    FeedFirstLine(r, x);
    var r1 := Reader(true, false, "data: " + x, r.stream);
    var r2 := Feed(r1, c);
    assert ([c] + (y + "\n\n"))[1..] == y + "\n\n";
    DataLine(r.stream, x);
    FeedConcat(r2, y, "\n\n");
    FeedWeighs(r2, y);
    FeedStarts(r2, y);
    BreaksEndTheMessage(FeedAll(r2, y));
  }

  lemma {:induction false} StreamWeighs(r: Reader, bodies: seq<string>)
    requires Idle(r)
    ensures var r' := FeedAll(r, MarshalAll(bodies));
            && Idle(r')
            && Weight(r'.stream) <= Weight(r.stream) + Size(bodies)
            && ((exists b | b in bodies :: !OneLine(b)) ==> Weight(r'.stream) < Weight(r.stream) + Size(bodies))
    decreases |bodies|
  {
    if bodies == [] {
    } else {
      var b, rest := bodies[0], bodies[1..];
      FeedConcat(r, Marshal(b), MarshalAll(rest));
      if OneLine(b) {
        OneMessage(r, b);
        var events := FeedAll(r, Marshal(b)).stream.events;
        assert events[..|events| - 1] == r.stream.events;
      } else {
        BrokenMessageWeighs(r, b);
      }
      StreamWeighs(FeedAll(r, Marshal(b)), rest);
      if broken :| broken in bodies && !OneLine(broken) {
        assert broken == b || broken in rest;
      }
    }
  }

  lemma {:induction false} TotalIsSize(events: seq<Event>, bodies: seq<string>)
    requires Datas(events) == bodies
    ensures Total(events) == Size(bodies)
  {
    if events == [] {
    } else {
      var n := |events| - 1;
      assert |bodies| == n + 1 && bodies[n] == events[n].data;
      TotalIsSize(events[..n], bodies[..n]);
      SizeConcat(bodies[..n], [bodies[n]]);
      assert bodies == bodies[..n] + [bodies[n]];
    }
  }

  lemma {:induction false} SizeConcat(a: seq<string>, b: seq<string>)
    ensures Size(a + b) == Size(a) + Size(b)
  {
    if a == [] {
      assert a + b == b;
    } else {
      SizeConcat(a[1..], b);
      assert (a + b)[1..] == a[1..] + b;
    }
  }

  // Reading the stream of any bodies, in any chunks, gives back exactly those bodies as data if and only if no
  // body contains a line break; they are then plain message events.
  lemma StreamRoundTripIff(bodies: seq<string>, chunks: seq<string>)
    requires Concat(chunks) == MarshalAll(bodies)
    ensures var events := FeedChunks(FRESH, chunks).stream.events;
            && (Datas(events) == bodies <==> forall b | b in bodies :: OneLine(b))
            && (Datas(events) == bodies ==> forall e | e in events :: e.kind == "message" && e.lastEventId == "")
  {
    ChunksAreOneText(FRESH, chunks);
    var r := FeedAll(FRESH, MarshalAll(bodies));
    if forall b | b in bodies :: OneLine(b) {
      MessagesComeBack(FRESH, bodies);
      assert r.stream.events == Messages(bodies, "");
      assert Datas(r.stream.events) == bodies;
    } else {
      StreamWeighs(FRESH, bodies);
      if Datas(r.stream.events) == bodies {
        TotalIsSize(r.stream.events, bodies);
      }
    }
  }
}
