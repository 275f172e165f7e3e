/** The receive loop over every control stream and every way of cutting it into read events. */
module OnionRecv {
  import opened Evbuffers
  import opened Lines
  import opened OnionCtrl

  // ----- One read event -----

  /** The lines up to the first one that stops the loop, that one included. */
  function UpToStop(lines: seq<Line>): seq<Line> {
    if lines == [] then []
    else if Stops(lines[0].text) then [lines[0]]
    else [lines[0]] + UpToStop(lines[1..])
  }

  /** The client after the callback ran on each line in turn; the callback for a line finds
      the later lines, and the rest, in the buffer. Empty lines are not dispatched. */
  function FoldLines<S>(client: S, lines: seq<Line>, rest: string, handle: Handler<S>): S
    decreases |lines|
  {
    if lines == [] then client
    else
      var client' := if lines[0].text == "" then client
                     else handle(client, Join(lines[1..]) + rest, Classify(lines[0].text));
      FoldLines(client', lines[1..], rest, handle)
  }

  /** What a run of the loop does, from the lines of the buffer: it consumes those up to the
      first that stops it, and leaves the others. */
  ghost predicate LoopSpec<S>(input: string, client: S, handle: Handler<S>, l: Loop<S>) {
    && l.consumed == UpToStop(Split(input))
    && Split(input) == l.consumed + Split(l.rest)
    && input == Join(l.consumed) + l.rest
    && l.client == FoldLines(client, l.consumed, l.rest, handle)
  }

  lemma {:induction false} LoopConsumes<S>(input: string, client: S, handle: Handler<S>)
    ensures LoopSpec(input, client, handle, RecvLoop(input, client, handle))
    decreases |input|
  {
    FirstLineSound(input);
    hide IsLine, Stops, Classify, LoopSpec;
    match FirstLine(input)
    case None =>
      NoLine(input, client, handle);
    case Some(Cut(line, rest)) =>
      if Stops(line.text) {
        Stopped(input, client, handle);
      } else {
        LoopConsumes(rest, handle(client, rest, Classify(line.text)), handle);
        Continued(input, client, handle);
      }
  }

  lemma NoLine<S>(input: string, client: S, handle: Handler<S>)
    requires FirstLine(input).None?
    ensures LoopSpec(input, client, handle, RecvLoop(input, client, handle))
  {
    assert Split(input) == [] && Join([]) + input == input;
  }

  lemma OneLine<S>(line: Line, rest: string, client: S, handle: Handler<S>)
    ensures Join([line]) == line.text + line.eol
    ensures FoldLines(client, [line], rest, handle) ==
            if line.text == "" then client else handle(client, rest, Classify(line.text))
  {
    assert [line][1..] == [];
    assert Join([]) + rest == rest;
  }

  lemma Stopped<S>(input: string, client: S, handle: Handler<S>)
    requires FirstLine(input).Some? && Stops(FirstLine(input).value.line.text)
    requires var Cut(line, rest) := FirstLine(input).value; line.text + line.eol + rest == input
    ensures LoopSpec(input, client, handle, RecvLoop(input, client, handle))
  {
    var Cut(line, rest) := FirstLine(input).value;
    OneLine(line, rest, client, handle);
    assert Split(input) == [line] + Split(rest);
    assert RecvLoop(input, client, handle) ==
           Loop([line], rest, if line.text == "" then client else handle(client, rest, Classify(line.text)));
  }

  lemma Continued<S>(input: string, client: S, handle: Handler<S>)
    requires FirstLine(input).Some? && !Stops(FirstLine(input).value.line.text)
    requires var Cut(line, rest) := FirstLine(input).value; line.text + line.eol + rest == input
    requires var Cut(line, rest) := FirstLine(input).value;
             var client' := handle(client, rest, Classify(line.text));
             LoopSpec(rest, client', handle, RecvLoop(rest, client', handle))
    ensures LoopSpec(input, client, handle, RecvLoop(input, client, handle))
  {
    var Cut(line, rest) := FirstLine(input).value;
    var client' := handle(client, rest, Classify(line.text));
    var more := RecvLoop(rest, client', handle);
    var l := Loop([line] + more.consumed, more.rest, more.client);
    assert RecvLoop(input, client, handle) == l;
    assert Split(input) == [line] + Split(rest);
    hide FirstLine, RecvLoop, Split;
    ContinuedParts(line, rest, client, handle, more, Split(rest), Split(more.rest));
  }

  lemma ContinuedParts<S>(line: Line, rest: string, client: S, handle: Handler<S>, more: Loop<S>,
                          lines: seq<Line>, left: seq<Line>)
    requires !Stops(line.text)
    requires more.consumed == UpToStop(lines) && lines == more.consumed + left && rest == Join(more.consumed) + more.rest
    requires more.client == FoldLines(handle(client, rest, Classify(line.text)), more.consumed, more.rest, handle)
    ensures [line] + more.consumed == UpToStop([line] + lines)
    ensures [line] + lines == [line] + more.consumed + left
    ensures line.text + line.eol + rest == Join([line] + more.consumed) + more.rest
    ensures more.client == FoldLines(client, [line] + more.consumed, more.rest, handle)
  {
    assert ([line] + more.consumed)[1..] == more.consumed;
    assert ([line] + lines)[1..] == lines;
    JoinCons(line, more.consumed);
    Associate(line.text + line.eol, Join(more.consumed), more.rest);
    Associate([line], more.consumed, left);
  }

  /** The loop leaves a complete line in the buffer only if the last line it took stops it. */
  lemma {:induction false} LeavesLineOnlyIfStopped(lines: seq<Line>)
    ensures UpToStop(lines) == lines || (UpToStop(lines) != [] && Stops(UpToStop(lines)[|UpToStop(lines)| - 1].text))
    ensures |UpToStop(lines)| <= |lines| && UpToStop(lines) == lines[..|UpToStop(lines)|]
    ensures forall i | 0 <= i < |UpToStop(lines)| - 1 :: !Stops(lines[i].text)
  {
    hide Stops;
    if lines != [] && !Stops(lines[0].text) {
      LeavesLineOnlyIfStopped(lines[1..]);
      assert lines == [lines[0]] + lines[1..];
    }
  }

  // ----- All read events -----

  /** Everything consumed so far, the input buffer, and the client. */
  datatype Session<S> = Session(consumed: seq<Line>, buffer: string, client: S)

  function Receive<S>(s: Session<S>, data: string, handle: Handler<S>): Session<S> {
    var l := RecvLoop(s.buffer + data, s.client, handle);
    Session(s.consumed + l.consumed, l.rest, l.client)
  }

  /** One read event per chunk, with the same callback installed throughout. */
  function Feed<S>(client: S, chunks: seq<string>, handle: Handler<S>): Session<S>
    decreases |chunks|
  {
    if chunks == [] then Session([], "", client)
    else Receive(Feed(client, chunks[..|chunks| - 1], handle), chunks[|chunks| - 1], handle)
  }

  /** For every stream, however it was cut: what was consumed, terminators included, and what
      is buffered spell the stream; and the lines consumed are the first lines of the stream. */
  lemma {:induction false} FeedConserves<S>(client: S, chunks: seq<string>, handle: Handler<S>)
    ensures var s := Feed(client, chunks, handle);
            && Join(s.consumed) + s.buffer == Flatten(chunks)
            && s.consumed + Split(s.buffer) == Split(Flatten(chunks))
            && (forall i | 0 <= i < |s.consumed| :: IsLine(s.consumed[i]))
    decreases |chunks|
  {
    hide IsLine, RecvLoop;
    if chunks == [] {
      assert Split("") == [];
    } else {
      var init, data := chunks[..|chunks| - 1], chunks[|chunks| - 1];
      assert chunks == init + [data];
      FlattenSnoc(init, data);
      FeedConserves(client, init, handle);
      var s := Feed(client, init, handle);
      ReceiveConserves(s, data, handle);
      Associate(Join(s.consumed), s.buffer, data);
      SplitGrows(s.consumed, s.buffer + data);
    }
  }

  lemma ReceiveConserves<S>(s: Session<S>, data: string, handle: Handler<S>)
    requires forall i | 0 <= i < |s.consumed| :: IsLine(s.consumed[i])
    ensures var t := Receive(s, data, handle);
            && Join(t.consumed) + t.buffer == Join(s.consumed) + (s.buffer + data)
            && t.consumed + Split(t.buffer) == s.consumed + Split(s.buffer + data)
            && (forall i | 0 <= i < |t.consumed| :: IsLine(t.consumed[i]))
  {
    hide IsLine, RecvLoop, UpToStop, Split, FoldLines, Join;
    var l := RecvLoop(s.buffer + data, s.client, handle);
    LoopConsumes(s.buffer + data, s.client, handle);
    JoinConcat(s.consumed, l.consumed);
    Associate(Join(s.consumed), Join(l.consumed), l.rest);
    Associate(s.consumed, l.consumed, Split(l.rest));
    SplitIsLines(s.buffer + data);
    assert forall i | 0 <= i < |l.consumed| :: l.consumed[i] == Split(s.buffer + data)[i];
  }

  // ----- Callbacks that do not look at the buffer -----

  /** A callback as the code writes them, acting on the reply alone. */
  type LineHandler<!S> = (S, Reply) -> S

  function Plain<S>(handle: LineHandler<S>): Handler<S> {
    (client: S, buffered: string, reply: Reply) => handle(client, reply)
  }

  /** The client after the replies of some lines, in order. */
  function FoldReplies<S>(client: S, lines: seq<Line>, handle: LineHandler<S>): S
    decreases |lines|
  {
    if lines == [] then client
    else FoldReplies(if lines[0].text == "" then client else handle(client, Classify(lines[0].text)), lines[1..], handle)
  }

  lemma {:induction false} FoldLinesPlain<S>(client: S, lines: seq<Line>, rest: string, handle: LineHandler<S>)
    ensures FoldLines(client, lines, rest, Plain(handle)) == FoldReplies(client, lines, handle)
    decreases |lines|
  {
    if lines != [] {
      var client' := if lines[0].text == "" then client else handle(client, Classify(lines[0].text));
      FoldLinesPlain(client', lines[1..], rest, handle);
    }
  }

  lemma {:induction false} FoldRepliesConcat<S>(client: S, a: seq<Line>, b: seq<Line>, handle: LineHandler<S>)
    ensures FoldReplies(client, a + b, handle) == FoldReplies(FoldReplies(client, a, handle), b, handle)
    decreases |a|
  {
    if a == [] {
      assert a + b == b;
    } else {
      assert (a + b)[1..] == a[1..] + b;
      var client' := if a[0].text == "" then client else handle(client, Classify(a[0].text));
      FoldRepliesConcat(client', a[1..], b, handle);
    }
  }

  /** For every stream, however it was cut, the callback has run on the classification of
      each consumed line that is not empty, in order. */
  lemma {:induction false} FeedDispatches<S>(client: S, chunks: seq<string>, handle: LineHandler<S>)
    ensures var s := Feed(client, chunks, Plain(handle));
            s.client == FoldReplies(client, s.consumed, handle)
    decreases |chunks|
  {
    if chunks != [] {
      var init, data := chunks[..|chunks| - 1], chunks[|chunks| - 1];
      FeedDispatches(client, init, handle);
      var s := Feed(client, init, Plain(handle));
      var l := RecvLoop(s.buffer + data, s.client, Plain(handle));
      LoopConsumes(s.buffer + data, s.client, Plain(handle));
      FoldLinesPlain(s.client, l.consumed, l.rest, handle);
      FoldRepliesConcat(client, s.consumed, l.consumed, handle);
    }
  }

  // ----- Streams of well-formed lines -----

  predicate Healthy(lines: seq<Line>) {
    forall i | 0 <= i < |lines| :: !Stops(lines[i].text)
  }

  /** When no line of the stream is empty or malformed, every complete line was consumed when
      a read event ends, and the buffer holds the incomplete line at the end of the stream. */
  lemma {:induction false} HealthyIsDrained<S>(client: S, chunks: seq<string>, handle: Handler<S>)
    requires Healthy(Split(Flatten(chunks)))
    ensures var s := Feed(client, chunks, handle);
            && s.consumed == Split(Flatten(chunks)) && s.buffer == Tail(Flatten(chunks))
            && '\n' !in s.buffer
    decreases |chunks|
  {
    hide IsLine, Stops, RecvLoop, UpToStop, Healthy, Tail;
    var s := Feed(client, chunks, handle);
    FeedConserves(client, chunks, handle);
    SplitGrows(s.consumed, s.buffer);
    if chunks == [] {
      assert Split("") == [];
      TailOfRest(s.buffer);
    } else {
      var init, data := chunks[..|chunks| - 1], chunks[|chunks| - 1];
      var s0 := Feed(client, init, handle);
      LoopConsumes(s0.buffer + data, s0.client, handle);
      NothingLeft(s0.consumed, Split(s0.buffer + data), Split(s.buffer), Split(Flatten(chunks)));
      TailOfRest(s.buffer);
    }
  }

  lemma NothingLeft(before: seq<Line>, lines: seq<Line>, left: seq<Line>, all: seq<Line>)
    requires Healthy(all) && before + UpToStop(lines) + left == all && lines == UpToStop(lines) + left
    ensures left == []
  {
    hide Stops;
    LeavesLineOnlyIfStopped(lines);
    var n := |UpToStop(lines)|;
    if n > 0 {
      assert all[|before| + n - 1] == UpToStop(lines)[n - 1];
    }
  }

  /** When exactly a read event leaves a complete line in the buffer: an empty or malformed line,
      other than the last, is among the lines that are there when the event starts. Those behind
      it wait for the next event, and it is the last line consumed. */
  lemma LeftoverExactlyWhenStopped<S>(s: Session<S>, data: string, handle: Handler<S>)
    ensures var lines, s' := Split(s.buffer + data), Receive(s, data, handle);
            '\n' in s'.buffer <==> exists i | 0 <= i < |lines| - 1 :: Stops(lines[i].text)
    ensures var s' := Receive(s, data, handle);
            '\n' in s'.buffer ==> s'.consumed != [] && Stops(s'.consumed[|s'.consumed| - 1].text)
  {
    hide IsLine, Stops, RecvLoop, UpToStop, Split;
    var lines, l := Split(s.buffer + data), RecvLoop(s.buffer + data, s.client, handle);
    LoopConsumes(s.buffer + data, s.client, handle);
    LeavesLineOnlyIfStopped(lines);
    LinesOrNone(l.rest);
    assert lines == l.consumed + Split(l.rest);
    if Split(l.rest) != [] {
      assert l.consumed != lines && Stops(lines[|l.consumed| - 1].text);
    }
  }

  lemma LinesOrNone(s: string)
    ensures '\n' in s <==> Split(s) != []
  {
    FirstLineSound(s);
  }

  /** It happens: what comes with an empty line, and behind it, stays in the buffer... */
  lemma EmptyLineLeavesRest<S>(client: S, rest: string, handle: Handler<S>)
    ensures Feed(client, [CRLF + rest], handle) == Session([Line("", CRLF)], rest, client)
  {
    FirstLineUnique(Line("", CRLF), rest);
    assert "" + CRLF + rest == CRLF + rest;
    hide FirstLine;
    OneChunk(client, CRLF + rest, handle);
  }

  /** ... even a well-formed reply. */
  lemma EmptyLineLeavesReply<S>(client: S, handle: Handler<S>)
    ensures Feed(client, ["\r\n250 OK\r\n"], handle) == Session([Line("", CRLF)], "250 OK\r\n", client)
  {
    hide Feed;
    EmptyLineLeavesRest(client, "250 OK\r\n", handle);
    assert CRLF + "250 OK\r\n" == "\r\n250 OK\r\n";
  }

  lemma OneChunk<S>(client: S, data: string, handle: Handler<S>)
    ensures Feed(client, [data], handle) == Receive(Session([], "", client), data, handle)
    ensures var l := RecvLoop(data, client, handle);
            Receive(Session([], "", client), data, handle) == Session(l.consumed, l.rest, l.client)
  {
    assert [data][..0] == [] && "" + data == data;
    var l := RecvLoop(data, client, handle);
    assert [] + l.consumed == l.consumed;
  }

  lemma TailOfRest(buffer: string)
    requires Split(buffer) == []
    ensures Tail(buffer) == buffer && '\n' !in buffer
  {
    FirstLineSound(buffer);
  }

  // ----- Replies on the wire -----

  function TextLines(texts: seq<string>): (lines: seq<Line>)
    ensures |lines| == |texts|
    ensures forall i | 0 <= i < |texts| :: lines[i] == Line(texts[i], CRLF)
  {
    seq(|texts|, i requires 0 <= i < |texts| => Line(texts[i], CRLF))
  }

  /** Reply texts as a conforming server writes them. */
  predicate Sendable(texts: seq<string>) {
    forall i | 0 <= i < |texts| :: '\n' !in texts[i] && !Stops(texts[i])
  }

  lemma FoldNone<S>(client: S, texts: seq<string>, rest: string, handle: Handler<S>)
    requires texts == []
    ensures FoldLines(client, TextLines(texts), rest, handle) == client
  {}

  lemma FoldLinesCons<S>(client: S, texts: seq<string>, rest: string, handle: Handler<S>)
    requires texts != [] && texts[0] != ""
    ensures var client' := handle(client, Join(TextLines(texts[1..])) + rest, Classify(texts[0]));
            FoldLines(client, TextLines(texts), rest, handle) == FoldLines(client', TextLines(texts[1..]), rest, handle)
  {
    assert TextLines(texts)[1..] == TextLines(texts[1..]);
  }

  /** The callbacks of some lines run before those of the lines that follow, and find these in the
      buffer. */
  lemma {:induction false} FoldLinesConcat<S>(client: S, a: seq<Line>, b: seq<Line>, rest: string, handle: Handler<S>)
    ensures FoldLines(client, a + b, rest, handle) == FoldLines(FoldLines(client, a, Join(b) + rest, handle), b, rest, handle)
    decreases |a|
  {
    hide Classify, Join;
    if a == [] {
      assert a + b == b;
    } else {
      var buffered := Join(a[1..]) + (Join(b) + rest);
      assert (a + b)[1..] == a[1..] + b && (a + b)[0] == a[0];
      JoinConcat(a[1..], b);
      Associate(Join(a[1..]), Join(b), rest);
      var client' := if a[0].text == "" then client else handle(client, buffered, Classify(a[0].text));
      FoldLinesConcat(client', a[1..], b, rest, handle);
    }
  }

  lemma FoldTextsConcat<S>(client: S, a: seq<string>, b: seq<string>, rest: string, handle: Handler<S>)
    ensures FoldLines(client, TextLines(a + b), rest, handle) ==
            FoldLines(FoldLines(client, TextLines(a), Join(TextLines(b)) + rest, handle), TextLines(b), rest, handle)
  {
    hide FoldLines, Join;
    assert TextLines(a + b) == TextLines(a) + TextLines(b);
    FoldLinesConcat(client, TextLines(a), TextLines(b), rest, handle);
  }

  /** The callback of the last line runs after those of the others, and finds nothing buffered. */
  lemma FoldLinesSnoc<S>(client: S, texts: seq<string>, last: string, handle: Handler<S>)
    requires last != ""
    ensures FoldLines(client, TextLines(texts + [last]), "", handle) ==
            handle(FoldLines(client, TextLines(texts), Join(TextLines([last])), handle), "", Classify(last))
  {
    hide FoldLines, TextLines, Join, Classify;
    FoldTextsConcat(client, texts, [last], "", handle);
    assert Join(TextLines([last])) + "" == Join(TextLines([last]));
    var client' := FoldLines(client, TextLines(texts), Join(TextLines([last])), handle);
    FoldLinesCons(client', [last], "", handle);
    assert [last][1..] == [];
    NothingJoined([last][1..]);
    FoldNone(handle(client', "", Classify(last)), [last][1..], "", handle);
  }

  lemma NothingJoined(texts: seq<string>)
    requires texts == []
    ensures Join(TextLines(texts)) + "" == ""
  {}

  lemma {:induction false} EncodeIsJoin(texts: seq<string>)
    ensures Encode(texts) == Join(TextLines(texts))
  {
    if texts != [] {
      EncodeIsJoin(texts[1..]);
      assert TextLines(texts)[1..] == TextLines(texts[1..]);
    }
  }

  lemma EncodeSplits(texts: seq<string>, tail: string)
    requires Sendable(texts) && '\n' !in tail
    ensures Split(Encode(texts) + tail) == TextLines(texts) && Tail(Encode(texts) + tail) == tail
    ensures Healthy(TextLines(texts))
  {
    hide Stops;
    EncodeIsJoin(texts);
    SplitGrows(TextLines(texts), tail);
    FirstLineSound(tail);
    assert Split(tail) == [] && Tail(tail) == tail;
  }

  /** The client after the replies to some texts, in order. */
  function FoldTexts<S>(client: S, texts: seq<string>, handle: LineHandler<S>): S
    decreases |texts|
  {
    if texts == [] then client else FoldTexts(handle(client, Classify(texts[0])), texts[1..], handle)
  }

  lemma {:induction false} FoldTextsIsReplies<S>(client: S, texts: seq<string>, handle: LineHandler<S>)
    requires forall i | 0 <= i < |texts| :: texts[i] != ""
    ensures FoldReplies(client, TextLines(texts), handle) == FoldTexts(client, texts, handle)
    decreases |texts|
  {
    if texts != [] {
      assert TextLines(texts)[1..] == TextLines(texts[1..]);
      FoldTextsIsReplies(handle(client, Classify(texts[0])), texts[1..], handle);
    }
  }

  /** A conforming reply is folded the same way however it was cut. */
  lemma ChunksDoNotMatter<S>(client: S, texts: seq<string>, chunks: seq<string>, handle: LineHandler<S>)
    requires Sendable(texts) && Flatten(chunks) == Encode(texts)
    ensures Feed(client, chunks, Plain(handle)).client == FoldTexts(client, texts, handle)
    ensures Feed(client, chunks, Plain(handle)).buffer == ""
  {
    assert Encode(texts) + "" == Encode(texts);
    EncodeSplits(texts, "");
    HealthyIsDrained(client, chunks, Plain(handle));
    FeedDispatches(client, chunks, handle);
    assert forall i | 0 <= i < |texts| :: texts[i] != "";
    FoldTextsIsReplies(client, texts, handle);
  }
}
