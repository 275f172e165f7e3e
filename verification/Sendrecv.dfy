/** evhelpers::sendrecv, with an output string and no echo: send a request, accumulate what
    comes back until the first event, flush what is left to write, and complete. */
module Sendrecv {
  import opened Options
  import opened Evbuffers

  /** The closures in the slots: the first three, those that flush, or none. */
  datatype Slots = Receiving | Flushing | Cleared

  /** A call of the completion callback: what the slots held then, and what was not yet written. */
  datatype Completion = Completion(slots: Slots, unsent: seq<byte>)

  datatype State =
    State(slots: Slots, input: seq<byte>, outgoing: seq<byte>, output: seq<byte>, done: seq<Completion>)

  function Complete(s: State): State {
    s.(slots := Cleared, done := s.done + [Completion(Cleared, s.outgoing)])
  }

  /** The read callback: everything in the input buffer moves to the output string. */
  function OnRead(s: State): State {
    if s.slots.Receiving? then s.(input := [], output := s.output + s.input) else s
  }

  function OnWrite(s: State): State {
    if s.slots.Flushing? && s.outgoing == [] then Complete(s) else s
  }

  function OnEvent(s: State): State {
    match s.slots
    case Receiving =>
      var s1 := s.(input := [], output := s.output + s.input);
      if s1.outgoing != [] then s1.(slots := Flushing) else Complete(s1)
    case Flushing => Complete(s)
    case Cleared => s
  }

  /** The bufferevent and the variables of the caller, as the closures act on them. */
  class Exchange {
    const input: Evbuffer<byte>
    const outgoing: Evbuffer<byte>
    var slots: Slots
    var output: seq<byte>
    var done: seq<Completion>

    ghost function View(): State
      reads this, input, outgoing
    {
      State(slots, input.Contents(), outgoing.Contents(), output, done)
    }

    /** sendrecv, on a bufferevent that may already hold bytes. */
    constructor (input: Evbuffer<byte>, outgoing: Evbuffer<byte>, request: seq<byte>, output: seq<byte>)
      requires input != outgoing
      modifies outgoing
      ensures this.input == input && this.outgoing == outgoing
      ensures View() == State(Receiving, input.Contents(), old(outgoing.Contents()) + request, output, [])
    {
      this.input, this.outgoing, this.output := input, outgoing, output;
      slots, done := Receiving, [];
      new;
      assert old(outgoing.Contents()) + [] == old(outgoing.Contents());
      if request != [] {
        outgoing.Add(request);
      }
    }

    method ClearAndCall()
      modifies `slots, `done
      ensures View() == Complete(old(View()))
    {
      slots := Cleared;
      done := done + [Completion(slots, Flatten(outgoing.extents))];
    }

    /** Appends the whole of the input buffer to the output string. */
    method TakeInput()
      requires input != outgoing
      modifies `output, input
      ensures View() == old(View()).(input := [], output := old(output) + old(input.Contents()))
    {
      var n := input.GetLength();
      var data := input.Remove(n);
      output := output + data;
    }

    method Read()
      requires input != outgoing
      modifies this, input
      ensures View() == OnRead(old(View()))
    {
      if slots == Receiving {
        TakeInput();
      }
    }

    method Write()
      modifies this
      ensures View() == OnWrite(old(View()))
    {
      if slots == Flushing {
        var n := outgoing.GetLength();
        if n > 0 { return; }
        ClearAndCall();
      }
    }

    method Event()
      requires input != outgoing
      modifies this, input
      ensures View() == OnEvent(old(View()))
    {
      match slots
      case Receiving =>
        assert output + [] == output;
        var n := input.GetLength();
        if n > 0 {
          TakeInput();
        }
        n := outgoing.GetLength();
        if n > 0 {
          slots := Flushing;
          return;
        }
        ClearAndCall();
      case Flushing =>
        ClearAndCall();
      case Cleared =>
    }
  }

  // ----- Runs -----

  /** What libevent does: it appends to the input buffer, drains the output buffer, and runs the
      callbacks, in any order. */
  datatype Step = Arrive(data: seq<byte>) | Drain(count: nat) | ReadReady | WriteReady | Event(what: Events)

  /** The bytes that arrived and that left so far; how many events there were, and what had
      arrived when the first one came. */
  datatype Trace =
    Trace(state: State, received: seq<byte>, sent: seq<byte>, events: nat, atFirst: Option<seq<byte>>)

  predicate Enabled(t: Trace, step: Step) {
    step.Drain? ==> step.count <= |t.state.outgoing|
  }

  function Next(t: Trace, step: Step): Trace
    requires Enabled(t, step)
  {
    match step
    case Arrive(data) => t.(state := t.state.(input := t.state.input + data), received := t.received + data)
    case Drain(n) =>
      t.(state := t.state.(outgoing := t.state.outgoing[n..]), sent := t.sent + t.state.outgoing[..n])
    case ReadReady => t.(state := OnRead(t.state))
    case WriteReady => t.(state := OnWrite(t.state))
    case Event(_) =>
      var first := if t.atFirst.None? then Some(t.received) else t.atFirst;
      t.(state := OnEvent(t.state), events := t.events + 1, atFirst := first)
  }

  /** The buffers may hold bytes from before; these count as received, or as to be sent. */
  function Start(input: seq<byte>, outgoing: seq<byte>, request: seq<byte>): Trace {
    Trace(State(Receiving, input, outgoing + request, [], []), input, [], 0, None)
  }

  predicate IsRun(t: Trace, steps: seq<Step>)
    decreases |steps|
  {
    steps == [] || (Enabled(t, steps[0]) && IsRun(Next(t, steps[0]), steps[1..]))
  }

  function Run(t: Trace, steps: seq<Step>): Trace
    requires IsRun(t, steps)
    decreases |steps|
  {
    if steps == [] then t else Run(Next(t, steps[0]), steps[1..])
  }

  predicate Inv(t: Trace, all: seq<byte>) {
    var s := t.state;
    && s.output + s.input == t.received
    && t.sent + s.outgoing == all
    && (s.slots.Receiving? <==> t.events == 0)
    && (t.atFirst.Some? <==> t.events > 0)
    && (t.events > 0 ==> s.output == t.atFirst.value)
    && (if s.slots.Cleared? then
          && |s.done| == 1 && s.done[0].slots == Cleared
          && (t.events == 1 ==> s.done[0].unsent == [] && s.outgoing == [])
        else
          s.done == [])
    && (s.slots.Flushing? ==> t.events == 1)
  }

  lemma NextKeepsInv(t: Trace, all: seq<byte>, step: Step)
    requires Inv(t, all) && Enabled(t, step)
    ensures Inv(Next(t, step), all)
  {
    var s := t.state;
    assert (s.output + s.input) + [] == s.output + s.input;
    match step
    case Arrive(data) =>
      assert s.output + (s.input + data) == t.received + data;
    case Drain(n) =>
      assert t.sent + s.outgoing[..n] + s.outgoing[n..] == t.sent + s.outgoing;
    case _ =>
  }

  lemma {:induction false} RunKeepsInv(t: Trace, all: seq<byte>, steps: seq<Step>)
    requires Inv(t, all) && IsRun(t, steps)
    ensures Inv(Run(t, steps), all)
    decreases |steps|
  {
    hide Inv, Enabled, Next;
    if steps != [] {
      NextKeepsInv(t, all, steps[0]);
      RunKeepsInv(Next(t, steps[0]), all, steps[1..]);
    }
  }

  lemma FromStart(input: seq<byte>, outgoing: seq<byte>, request: seq<byte>, steps: seq<Step>)
    requires IsRun(Start(input, outgoing, request), steps)
    ensures Inv(Run(Start(input, outgoing, request), steps), outgoing + request)
  {
    hide IsRun, Run;
    assert [] + input == input && [] + (outgoing + request) == outgoing + request;
    RunKeepsInv(Start(input, outgoing, request), outgoing + request, steps);
  }

  /** The output string is what had been received when the first event came, and nothing is
      added to it later; before that, it is what the read callbacks took so far. */
  lemma OutputIsWhatWasReceived(input: seq<byte>, outgoing: seq<byte>, request: seq<byte>, steps: seq<Step>)
    requires IsRun(Start(input, outgoing, request), steps)
    ensures var t := Run(Start(input, outgoing, request), steps);
            && t.state.output + t.state.input == t.received
            && (t.events > 0 ==> t.atFirst == Some(t.state.output))
  {
    hide IsRun, Run;
    FromStart(input, outgoing, request, steps);
  }

  /** No byte of the request is lost or reordered. */
  lemma SendingConserves(input: seq<byte>, outgoing: seq<byte>, request: seq<byte>, steps: seq<Step>)
    requires IsRun(Start(input, outgoing, request), steps)
    ensures var t := Run(Start(input, outgoing, request), steps);
            t.sent + t.state.outgoing == outgoing + request
  {
    hide IsRun, Run;
    FromStart(input, outgoing, request, steps);
  }

  /** The completion callback runs at most once, with the slots already cleared. After a single
      event it runs only when the output buffer is empty: then all of the request was written. */
  lemma CompletesAtMostOnce(input: seq<byte>, outgoing: seq<byte>, request: seq<byte>, steps: seq<Step>)
    requires IsRun(Start(input, outgoing, request), steps)
    ensures var t := Run(Start(input, outgoing, request), steps);
            && |t.state.done| <= 1
            && (t.state.done != [] ==> t.events > 0 && t.state.slots.Cleared? && t.state.done[0].slots.Cleared?)
            && (t.state.done != [] && t.events == 1 ==> t.state.done[0].unsent == [] && t.sent == outgoing + request)
  {
    hide IsRun, Run;
    FromStart(input, outgoing, request, steps);
    var t := Run(Start(input, outgoing, request), steps);
    assert t.sent + [] == t.sent;
  }

  /** And it does run: at the first event when nothing is left to write, at the first write
      callback after that finds the buffer drained, and at any second event. */
  lemma CompletionComes(input: seq<byte>, outgoing: seq<byte>, request: seq<byte>, steps: seq<Step>, step: Step)
    requires IsRun(Start(input, outgoing, request), steps)
    ensures var t := Run(Start(input, outgoing, request), steps);
            Enabled(t, step) ==>
              (t.state.done == [] && Next(t, step).state.done != [] <==>
                || (step.Event? && t.events == 0 && t.sent == outgoing + request)
                || (step.Event? && t.events == 1 && t.state.done == [])
                || (step.WriteReady? && t.events == 1 && t.state.done == [] && t.sent == outgoing + request))
  {
    hide IsRun, Run;
    FromStart(input, outgoing, request, steps);
    var t := Run(Start(input, outgoing, request), steps);
    assert t.sent == outgoing + request <==> t.state.outgoing == [] by {
      assert |t.sent| + |t.state.outgoing| == |outgoing + request|;
      if t.state.outgoing == [] { assert t.sent + [] == t.sent; }
    }
  }
}
