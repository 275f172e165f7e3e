/** The receive side of the Tor control connection: lines ended by CRLF, each classified by
    its three-digit status and dispatched to a callback (section 2.3 of the Tor control
    protocol specification). */
module OnionCtrl {
  import opened Options
  import opened Evbuffers
  import opened Lines
  import opened Text

  datatype OnionStatus =
    | Async | UnrecognizedEntity | Ok | NoError | GenericError | ConnectFailed | UnexpectedReply
    | ExpectedNoticeToken | ExpectedBootstrapToken | ExpectedProgressKey | ExpectedMoreTokens
    | TooManyDigits | NotADigit | ExpectedVarNameKey | ExpectedStatusClientToken | UnexpectedStatus
    | TimeoutError | IoError | EofError | UnknownStatusError | AlreadyConnected | CannotParseAddrport

  /** The arguments of a reply line callback. */
  datatype Reply = Reply(status: OnionStatus, kind: char, text: string)

  predicate WellFormed(line: string) {
    |line| >= 4 && IsDigit(line[0]) && IsDigit(line[1]) && IsDigit(line[2])
  }

  function StatusOf(code: nat): OnionStatus {
    if code == 250 then Ok
    else if code == 552 then UnrecognizedEntity
    else if code == 650 then Async
    else UnknownStatusError
  }

  /** What the callback is told about a line that is not empty. */
  function Classify(line: string): Reply {
    if |line| < 4 then Reply(ExpectedMoreTokens, '\0', "")
    else if !WellFormed(line) then Reply(NotADigit, '\0', "")
    else Reply(StatusOf(Atoi(line[..3])), line[3], line[4..])
  }

  /** A line after which the receive loop waits for the next read event. */
  predicate Stops(line: string) {
    line == "" || !WellFormed(line)
  }

  /** event_mask_to_status */
  function EventStatus(what: Events): OnionStatus {
    if what.timeout then TimeoutError
    else if what.error then IoError
    else if what.eof then EofError
    else GenericError
  }

  /** The status of a failure: a timeout counts before an error, and that before end of file. */
  lemma StatusOfFailure(what: Events)
    ensures EventStatus(what) == TimeoutError <==> what.timeout
    ensures EventStatus(what) == IoError <==> what.error && !what.timeout
    ensures EventStatus(what) == EofError <==> what.eof && !what.error && !what.timeout
    ensures EventStatus(what) == GenericError <==> !what.eof && !what.error && !what.timeout
  {}

  /** What a run of the receive loop consumed, what it left, and what became of the client.
      The client is whatever the callbacks act upon; a callback also sees the input buffer. */
  datatype Loop<S> = Loop(consumed: seq<Line>, rest: string, client: S)

  type Handler<!S> = (S, string, Reply) -> S

  /** The receive loop. The callback is the one the loop started with, even if it issues a
      new command and so installs another. */
  function RecvLoop<S>(input: string, client: S, handle: Handler<S>): Loop<S>
    decreases |input|
  {
    match FirstLine(input)
    case None => Loop([], input, client)
    case Some(Cut(line, rest)) =>
      if line.text == "" then Loop([line], rest, client)
      else
        var client' := handle(client, rest, Classify(line.text));
        if !WellFormed(line.text) then Loop([line], rest, client')
        else
          var more := RecvLoop(rest, client', handle);
          Loop([line] + more.consumed, more.rest, more.client)
  }

  /** The connection with its input buffer. */
  class Connection<S> {
    const input: Evbuffer<char>
    var client: S
    ghost var consumed: seq<Line>

    constructor (client: S)
      ensures input.Contents() == "" && this.client == client && consumed == []
      ensures fresh(input)
    {
      input := new Evbuffer();
      this.client := client;
      consumed := [];
    }

    /** What a run of the loop from here will have come to. */
    ghost function Outcome(handle: Handler<S>): Loop<S>
      reads this, input
    {
      Then(consumed, RecvLoop(input.Contents(), client, handle))
    }

    /** One pass through the loop body. */
    method ReadLine(handle: Handler<S>) returns (more: bool)
      modifies this, input
      ensures more ==> Outcome(handle) == old(Outcome(handle)) && |input.Contents()| < old(|input.Contents()|)
      ensures !more ==> Loop(consumed, input.Contents(), client) == old(Outcome(handle))
    {
      ghost var before := input.Contents();
      LoopStep(consumed, before, client, handle);
      hide RecvLoop, FirstLine, Classify;
      ghost var cut := FirstLine(before);
      var line := Readln(input);
      if line == "" {
        consumed := consumed + if cut.Some? then [cut.value.line] else [];
        return false;
      }
      consumed := consumed + [cut.value.line];
      var buffered := Flatten(input.extents);
      client := handle(client, buffered, Classify(line));
      if |line| < 4 { return false; }
      if !IsDigit(line[0]) || !IsDigit(line[1]) || !IsDigit(line[2]) { return false; }
      more := true;
    }

    /** The read callback that recv installs. */
    method Readable(handle: Handler<S>)
      modifies this, input
      ensures Loop(consumed, input.Contents(), client) == old(Outcome(handle))
    {
      hide RecvLoop, Then;
      var more := ReadLine(handle);
      while more
        invariant more ==> Outcome(handle) == old(Outcome(handle))
        invariant !more ==> Loop(consumed, input.Contents(), client) == old(Outcome(handle))
        decreases more, |input.Contents()|
      {
        more := ReadLine(handle);
      }
    }

    /** libevent appends what it received, then runs the callback. */
    method Receive(data: string, handle: Handler<S>)
      modifies this, input
      ensures var l := RecvLoop(old(input.Contents()) + data, old(client), handle);
              input.Contents() == l.rest && client == l.client && consumed == old(consumed) + l.consumed
    {
      input.Add(data);
      Readable(handle);
    }
  }

  function Then<S>(consumed: seq<Line>, l: Loop<S>): Loop<S> {
    Loop(consumed + l.consumed, l.rest, l.client)
  }

  /** The loop, one line at a time. */
  lemma LoopStep<S>(consumed: seq<Line>, input: string, client: S, handle: Handler<S>)
    ensures match FirstLine(input)
            case None => Then(consumed, RecvLoop(input, client, handle)) == Loop(consumed, input, client)
            case Some(Cut(line, rest)) =>
              var client' := if line.text == "" then client else handle(client, rest, Classify(line.text));
              && |rest| < |input|
              && Then(consumed, RecvLoop(input, client, handle)) ==
                 if Stops(line.text) then Loop(consumed + [line], rest, client')
                 else Then(consumed + [line], RecvLoop(rest, client', handle))
  {
    match FirstLine(input)
    case None =>
    case Some(Cut(line, rest)) =>
      if !Stops(line.text) {
        var more := RecvLoop(rest, handle(client, rest, Classify(line.text)), handle);
        Associate(consumed, [line], more.consumed);
      }
  }

  /** Two runs of a loop leave the same bytes and the same client. */
  predicate SameEnd<S(==)>(a: Loop<S>, b: Loop<S>) {
    a.rest == b.rest && a.client == b.client
  }

  /** The loop, one line at a time, whatever was consumed before. */
  lemma LineStep<S>(input: string, client: S, handle: Handler<S>)
    ensures match FirstLine(input)
            case None => SameEnd(RecvLoop(input, client, handle), Loop([], input, client))
            case Some(Cut(line, rest)) =>
              var client' := if line.text == "" then client else handle(client, rest, Classify(line.text));
              && |rest| < |input|
              && SameEnd(RecvLoop(input, client, handle),
                         if Stops(line.text) then Loop([], rest, client') else RecvLoop(rest, client', handle))
  {}
}
