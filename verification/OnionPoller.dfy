/** enable_tor: authenticate, enable the network, then ask once a second how far the bootstrap
    has come, at most `timeout` times. */
module OnionPoller {
  import opened Options
  import opened Evbuffers
  import opened Lines
  import opened Text
  import opened OnionCtrl
  import opened OnionReplies
  import opened Lockstep

  /** The line callbacks, by what their closures captured. `result` is the index of the string
      cell that the callback of GETINFO shares with nobody. */
  datatype LineCb = AuthLine | SetconfLine(disable: bool) | GetinfoLine(counter: nat, result: nat)

  /** The timers that are pending, by the counter they captured; the string cells; and the calls
      of the user callback. */
  datatype Poll = Poll(connecting: bool, timers: seq<nat>, results: seq<string>, calls: seq<OnionStatus>)

  type Link = World<Poll, LineCb>

  type Control = Client<Poll, LineCb>

  const GETINFO := "GETINFO status/bootstrap-phase" + CRLF

  function CmdDisableNetwork(value: bool): string {
    "SETCONF DisableNetwork=" + (if value then "1" else "0") + CRLF
  }

  // ----- What each callback does -----

  /** Close the connection, then tell the user. */
  function Finish(p: Poll, status: OnionStatus): Act<Poll, LineCb> {
    Close(p.(calls := p.calls + [status]))
  }

  function SetconfDisableNetwork(p: Poll, value: bool): Act<Poll, LineCb> {
    Send(p, CmdDisableNetwork(value), SetconfLine(value))
  }

  function WaitForCircuit(timeout: nat, p: Poll, counter: nat): Act<Poll, LineCb> {
    if counter >= timeout then SetconfDisableNetwork(p, true)
    else Stay(p.(timers := p.timers + [counter]))
  }

  /** getinfo_status_bootstrap_phase_as_int */
  function PhaseAsInt(call: StringCall): Parsed {
    if call.status != Ok then Parsed(call.status, 0) else ParseProgress(call.text, 0)
  }

  function AfterPoll(timeout: nat, p: Poll, counter: nat, result: Parsed): Act<Poll, LineCb> {
    if result.status != Ok then Finish(p, result.status)
    else if result.value != 100 then WaitForCircuit(timeout, p, counter + 1)
    else Finish(p, Ok)
  }

  /** The callback of a command, given a line of the reply or the status of a failure. */
  function OnReply(timeout: nat, p: Poll, callback: LineCb, r: Reply): Act<Poll, LineCb> {
    match callback
    case AuthLine =>
      if VoidStatus(r) != Ok then Finish(p, VoidStatus(r)) else SetconfDisableNetwork(p, false)
    case SetconfLine(false) =>
      if VoidStatus(r) != Ok then Finish(p, VoidStatus(r)) else WaitForCircuit(timeout, p, 0)
    case SetconfLine(true) =>
      Finish(p, if VoidStatus(r) != Ok then VoidStatus(r) else GenericError)
    case GetinfoLine(counter, result) =>
      if result >= |p.results| then Stay(p) // no closure holds such a cell
      else
        var g := OnionReplies.GetinfoLine(Getinfo(p.results[result], []), r);
        if g.calls == [] then Stay(p.(results := p.results[result := g.result]))
        else AfterPoll(timeout, p, counter, PhaseAsInt(g.calls[0]))
  }

  function React(timeout: nat): User<Poll, LineCb> {
    (p: Poll, callback: LineCb, r: Reply) => OnReply(timeout, p, callback, r)
  }

  /** The event callback of connect. */
  function Connected(p: Poll, what: Events): Act<Poll, LineCb> {
    var p' := p.(connecting := false);
    if what != CONNECTED then Finish(p', ConnectFailed) else Send(p', CmdAuthenticate(""), AuthLine)
  }

  /** The callback of a timer. */
  function OnTimer(p: Poll, index: nat): Act<Poll, LineCb>
    requires index < |p.timers|
  {
    var p' := p.(timers := p.timers[..index] + p.timers[index + 1..], results := p.results + [""]);
    Send(p', GETINFO, GetinfoLine(p.timers[index], |p.results|))
  }

  // ----- The same, step by step -----

  /** The controller and the closures that act on it. */
  class Controller {
    const timeout: nat
    var connecting: bool
    var slot: Slot<LineCb>
    var issued: seq<Issue<LineCb>>
    var delivered: seq<Delivery>
    var answered: nat
    var timers: seq<nat>
    var results: seq<string>
    var calls: seq<OnionStatus>

    function State(): Poll
      reads this
    {
      Poll(connecting, timers, results, calls)
    }

    function View(): Control
      reads this
    {
      Client(slot, issued, delivered, answered, State())
    }

    /** enable_tor, up to the return to the event loop. */
    constructor (timeout: nat)
      ensures this.timeout == timeout && View() == Enabling().client
    {
      this.timeout := timeout;
      connecting, slot, issued, delivered, answered := true, Closed, [], [], 0;
      timers, results, calls := [], [], [];
    }

    method WriteAndRecv(text: string, callback: LineCb, buffered: string)
      modifies `slot, `issued
      ensures View() == Perform(old(View()), buffered, Send(State(), text, callback))
    {
      slot := Sent(|issued|, callback);
      issued := issued + [Issue(text, callback, buffered)];
    }

    method CloseAndCall(status: OnionStatus)
      modifies `slot, `calls
      ensures View() == Perform(old(View()), "", Finish(old(State()), status))
    {
      slot := Closed;
      calls := calls + [status];
    }

    method Wait(counter: nat, buffered: string)
      modifies this
      ensures |results| == |old(results)|
      ensures View() == Perform(old(View()), buffered, WaitForCircuit(timeout, old(State()), counter))
    {
      if counter >= timeout {
        WriteAndRecv(CmdDisableNetwork(true), SetconfLine(true), buffered);
        return;
      }
      timers := timers + [counter];
    }

    method Progress(counter: nat, result: Parsed, buffered: string)
      modifies this
      ensures |results| == |old(results)|
      ensures View() == Perform(old(View()), buffered, AfterPoll(timeout, old(State()), counter, result))
    {
      if result.status != Ok {
        CloseAndCall(result.status);
        return;
      }
      if result.value != 100 {
        Wait(counter + 1, buffered);
        return;
      }
      CloseAndCall(Ok);
    }

    /** The lambdas of enable_tor and wait_for_circuit_, run with the arguments of a reply line. */
    method Line(callback: LineCb, r: Reply, buffered: string)
      requires callback.GetinfoLine? ==> callback.result < |results|
      modifies this
      ensures |results| == |old(results)|
      ensures View() == Perform(old(View()), buffered, OnReply(timeout, old(State()), callback, r))
    {
      match callback
      case AuthLine =>
        if VoidStatus(r) != Ok {
          CloseAndCall(VoidStatus(r));
          return;
        }
        WriteAndRecv(CmdDisableNetwork(false), SetconfLine(false), buffered);
      case SetconfLine(false) =>
        if VoidStatus(r) != Ok {
          CloseAndCall(VoidStatus(r));
          return;
        }
        Wait(0, buffered);
      case SetconfLine(true) =>
        if VoidStatus(r) != Ok {
          CloseAndCall(VoidStatus(r));
          return;
        }
        CloseAndCall(GenericError);
      case GetinfoLine(counter, result) =>
        var g := OnionReplies.GetinfoLine(Getinfo(results[result], []), r);
        if g.calls == [] {
          results := results[result := g.result];
          return;
        }
        Progress(counter, PhaseAsInt(g.calls[0]), buffered);
    }

    /** What a run of the receive loop for command `k` will have come to from here. */
    ghost function Outcome(k: nat, callback: LineCb, input: Evbuffer<char>): Loop<Control>
      reads this, input
    {
      RecvLoop(input.Contents(), View(), OnLine(React(timeout), k, callback))
    }

    /** One pass through the body of the receive loop, with the closure acting in place. */
    method ReadLine(k: nat, callback: LineCb, input: Evbuffer<char>) returns (more: bool)
      requires callback.GetinfoLine? ==> callback.result < |results|
      modifies this, input
      ensures |results| == |old(results)|
      ensures more ==> SameEnd(Outcome(k, callback, input), old(Outcome(k, callback, input)))
                       && |input.Contents()| < |old(input.Contents())|
      ensures !more ==> SameEnd(Loop([], input.Contents(), View()), old(Outcome(k, callback, input)))
    {
      LineStep(input.Contents(), View(), OnLine(React(timeout), k, callback));
      hide RecvLoop, FirstLine, Classify, OnLine, SameEnd, State;
      var line := Readln(input);
      if line == "" { return false; }
      HandleLine(k, callback, line, Flatten(input.extents));
      if |line| < 4 { return false; }
      if !IsDigit(line[0]) || !IsDigit(line[1]) || !IsDigit(line[2]) { return false; }
      more := true;
    }

    /** The closure runs on a line. */
    method HandleLine(k: nat, callback: LineCb, line: string, buffered: string)
      requires callback.GetinfoLine? ==> callback.result < |results|
      modifies this
      ensures |results| == |old(results)|
      ensures View() == OnLine(React(timeout), k, callback)(old(View()), buffered, Classify(line))
    {
      hide Classify, OnReply, OnLine, React, Perform;
      var r := Classify(line);
      LineActs(timeout, k, callback, View(), buffered, r);
      delivered := delivered + [Delivery(k, r)];
      if r.kind == ' ' {
        answered := answered + 1;
      }
      assert View() == Dispatch(old(View()), k, r);
      Line(callback, r, buffered);
    }

    /** The read callback that recv installed for command `k`. It goes on with its own closure even
        when that closure sends another command. */
    method Readable(k: nat, callback: LineCb, input: Evbuffer<char>)
      requires callback.GetinfoLine? ==> callback.result < |results|
      modifies this, input
      ensures SameEnd(Loop([], input.Contents(), View()), old(Outcome(k, callback, input)))
    {
      hide RecvLoop, OnLine;
      var more := ReadLine(k, callback, input);
      while more
        invariant callback.GetinfoLine? ==> callback.result < |results|
        invariant more ==> SameEnd(Outcome(k, callback, input), old(Outcome(k, callback, input)))
        invariant !more ==> SameEnd(Loop([], input.Contents(), View()), old(Outcome(k, callback, input)))
        decreases more, |input.Contents()|
      {
        more := ReadLine(k, callback, input);
      }
    }

    method ConnectEvent(what: Events)
      modifies this
      ensures View() == Perform(old(View()), "", Connected(old(State()), what))
    {
      connecting := false;
      if what != CONNECTED {
        CloseAndCall(ConnectFailed);
        return;
      }
      WriteAndRecv(CmdAuthenticate(""), AuthLine, "");
    }

    method Timer(index: nat, buffered: string)
      requires index < |timers|
      modifies this
      ensures View() == Perform(old(View()), buffered, OnTimer(old(State()), index))
    {
      var counter := timers[index];
      timers := timers[..index] + timers[index + 1..];
      results := results + [""];
      WriteAndRecv(GETINFO, GetinfoLine(counter, |results| - 1), buffered);
    }
  }

  lemma LineActs(timeout: nat, k: nat, callback: LineCb, c: Control, buffered: string, r: Reply)
    ensures OnLine(React(timeout), k, callback)(c, buffered, r)
         == Perform(Dispatch(c, k, r), buffered, OnReply(timeout, c.user, callback, r))
  {}

  // ----- The environment -----

  datatype Event =
    | Connect(what: Events)
    | Tick(index: nat)
    | Answer(reply: seq<string>)
    | Bytes(count: nat)
    | Break(what: Events)

  function Enabling(): Link {
    Start(Poll(true, [], [], []))
  }

  /** A `250-status/bootstrap-phase=` line. */
  predicate PhaseLine(text: string) {
    var r := Classify(text);
    r.status == Ok && r.kind == '-' && PHASE_KEY <= r.text
  }

  /** The replies of a server that conforms: one final line, preceded by phases when the command
      was GETINFO. */
  predicate Fits(callback: LineCb, reply: seq<string>) {
    && Conforming(reply)
    && forall i | 0 <= i < |reply| - 1 :: callback.GetinfoLine? && PhaseLine(reply[i])
  }

  predicate May(w: Link, e: Event) {
    match e
    case Connect(what) => w.client.user.connecting
    case Tick(index) => index < |w.client.user.timers|
    case Answer(reply) => w.client.slot.Sent? && Fits(w.client.slot.callback, reply)
    case Bytes(count) => 0 < count <= |w.wire|
    case Break(what) => !w.client.slot.Closed?
  }

  /** No connection failure arrives while the timer is pending. */
  predicate Quiet(w: Link, e: Event) {
    e.Break? ==> w.client.user.timers == []
  }

  function Lower(w: Link, e: Event): Step<Poll, LineCb>
    requires May(w, e)
  {
    match e
    case Connect(what) => Outside(Connected(w.client.user, what))
    case Tick(index) => Outside(OnTimer(w.client.user, index))
    case Answer(reply) => Flushed(reply)
    case Bytes(count) => Deliver(count)
    case Break(what) => Fail(what)
  }

  predicate Happens(w: Link, e: Event) {
    May(w, e) && Enabled(w, Lower(w, e))
  }

  function After(timeout: nat, w: Link, e: Event): Link
    requires Happens(w, e)
  {
    Next(React(timeout), w, Lower(w, e))
  }

  /** A run in an environment that keeps quiet while a timer is pending. */
  predicate QuietRun(timeout: nat, w: Link, events: seq<Event>)
    decreases |events|
  {
    events == [] || (Happens(w, events[0]) && Quiet(w, events[0]) && QuietRun(timeout, After(timeout, w, events[0]), events[1..]))
  }

  function Final(timeout: nat, w: Link, events: seq<Event>): Link
    requires QuietRun(timeout, w, events)
    decreases |events|
  {
    if events == [] then w else Final(timeout, After(timeout, w, events[0]), events[1..])
  }
}
