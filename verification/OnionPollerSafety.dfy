/** The main results about the poller: what it sends, what it reports, and that it ends. */
module OnionPollerSafety {
  import opened Options
  import opened Lines
  import Text
  import opened OnionCtrl
  import opened OnionRecv
  import opened OnionReplies
  import opened Lockstep
  import opened OnionPoller
  import opened OnionPollerProofs
  import opened OnionPollerRuns

  // ----- All quiet runs -----

  lemma {:induction false} RunKeeps(timeout: nat, w: Link, j: nat, events: seq<Event>) returns (j': nat)
    requires Inv(timeout, w, j) && QuietRun(timeout, w, events)
    ensures Inv(timeout, Final(timeout, w, events), j')
    decreases |events|
  {
    hide Inv, Happens, Quiet, After;
    if events == [] {
      j' := j;
    } else {
      var j1 := EventKeeps(timeout, w, j, events[0]);
      j' := RunKeeps(timeout, After(timeout, w, events[0]), j1, events[1..]);
    }
  }

  lemma EnablingInv(timeout: nat)
    ensures Inv(timeout, Enabling(), 0)
  {
    assert Current([]) == [];
  }

  /** The invariant of a quiet run from the start. */
  lemma Reached(timeout: nat, events: seq<Event>) returns (j: nat)
    requires QuietRun(timeout, Enabling(), events)
    ensures Inv(timeout, Final(timeout, Enabling(), events), j)
  {
    hide Inv, QuietRun, Final;
    EnablingInv(timeout);
    j := RunKeeps(timeout, Enabling(), 0, events);
  }

  /** What enable_tor may send. */
  function Script(timeout: nat): seq<string> {
    ["AUTHENTICATE\r\n", "SETCONF DisableNetwork=0\r\n"]
    + seq(timeout, _ => "GETINFO status/bootstrap-phase\r\n")
    + ["SETCONF DisableNetwork=1\r\n"]
  }

  lemma AuthenticateText()
    ensures CmdAuthenticate("") == "AUTHENTICATE\r\n"
  {}

  lemma DisableNetworkTexts()
    ensures CmdDisableNetwork(false) == "SETCONF DisableNetwork=0\r\n"
    ensures CmdDisableNetwork(true) == "SETCONF DisableNetwork=1\r\n"
  {}

  lemma GetinfoText()
    ensures GETINFO == "GETINFO status/bootstrap-phase\r\n"
  {}

  lemma ScriptTexts(timeout: nat, i: nat)
    requires i < 3 + timeout
    ensures CommandAt(timeout, i) == Script(timeout)[i]
  {
    AuthenticateText();
    DisableNetworkTexts();
    GetinfoText();
    hide CmdAuthenticate, CmdDisableNetwork;
  }

  function Sendings(issued: seq<Issue<LineCb>>): (texts: seq<string>)
    ensures |texts| == |issued|
  {
    seq(|issued|, i requires 0 <= i < |issued| => issued[i].text)
  }

  /** In every run the commands are a prefix of AUTHENTICATE, SETCONF DisableNetwork=0, `timeout`
      times GETINFO, and SETCONF DisableNetwork=1; each finds an empty input buffer. */
  lemma CommandsFollowScript(timeout: nat, events: seq<Event>)
    requires QuietRun(timeout, Enabling(), events)
    ensures var issued := Final(timeout, Enabling(), events).client.issued;
            Sendings(issued) <= Script(timeout) && forall i | 0 <= i < |issued| :: issued[i].pending == ""
  {
    hide QuietRun, Final, InvAt, PollInv, Script, Heard, Encode;
    var j := Reached(timeout, events);
    ScriptedTexts(timeout, Final(timeout, Enabling(), events), j);
  }

  lemma ScriptedTexts(timeout: nat, w: Link, j: nat)
    requires Inv(timeout, w, j)
    ensures Sendings(w.client.issued) <= Script(timeout)
    ensures forall i | 0 <= i < |w.client.issued| :: w.client.issued[i].pending == ""
  {
    hide Conform, Stage, ResultCells, CommandAt, Heard, Encode, Conforming;
    assert |Script(timeout)| == 3 + timeout;
    hide Script;
    forall i | 0 <= i < |w.client.issued| ensures Sendings(w.client.issued)[i] == Script(timeout)[i] {
      ScriptTexts(timeout, i);
    }
  }

  /** In every run the user is called at most once; then the connection is closed, and no timer
      is left. */
  lemma UserCalledAtMostOnce(timeout: nat, events: seq<Event>)
    requires QuietRun(timeout, Enabling(), events)
    ensures var c := Final(timeout, Enabling(), events).client;
            |c.user.calls| <= 1 && (c.user.calls != [] ==> c.slot.Closed? && c.user.timers == [])
  {
    hide QuietRun, Final, Conform, ResultCells, Scripted, Ended, Clear, InvAt;
    var j := Reached(timeout, events);
  }

  // ----- The connection -----

  lemma VerdictIsNotRefusal(timeout: nat, i: nat, reply: seq<string>)
    requires Fits(CallbackAt(timeout, i), reply)
    ensures Verdict(timeout, i, reply) != Some(ConnectFailed)
  {
    assert reply != [];
    hide Classify, ParseProgress, Conforming, PhaseOf;
    StatusIsNotRefusal(reply[|reply| - 1]);
    if 2 <= i < 2 + timeout {
      ParsedIsNotRefusal(PhaseOf(reply, |reply| - 1), 0);
    }
  }

  lemma StatusIsNotRefusal(text: string)
    ensures Classify(text).status != ConnectFailed
  {}

  lemma ParsedIsNotRefusal(s: string, phase: int)
    ensures ParseProgress(s, phase).status != ConnectFailed
  {}

  /** The user is told CONNECT_FAILED only when no command was ever issued. */
  lemma RefusalMeansNothingSent(timeout: nat, w: Link, j: nat)
    requires Inv(timeout, w, j) && w.client.user.calls == [ConnectFailed]
    ensures w.client.issued == []
  {
    hide InvAt, Fits, Verdict, ResultCells, Scripted, Clear, CallbackAt;
    var n := |w.client.issued|;
    if 0 < n == |w.replies| {
      VerdictIsNotRefusal(timeout, n - 1, w.replies[n - 1]);
    }
  }

  /** Once a command was issued, commands stay issued and the connection is not made again. */
  lemma {:induction false} CommandsStay(timeout: nat, w: Link, j: nat, events: seq<Event>)
    requires Inv(timeout, w, j) && w.client.issued != [] && QuietRun(timeout, w, events)
    ensures Final(timeout, w, events).client.issued != []
    ensures forall i | 0 <= i < |events| :: !events[i].Connect?
    decreases |events|
  {
    hide Inv, Happens, Quiet, After;
    if events != [] {
      var j' := EventKeeps(timeout, w, j, events[0]);
      CommandStays(timeout, w, j, events[0]);
      CommandsStay(timeout, After(timeout, w, events[0]), j', events[1..]);
    }
  }

  lemma CommandStays(timeout: nat, w: Link, j: nat, e: Event)
    requires Inv(timeout, w, j) && w.client.issued != [] && Happens(w, e) && Quiet(w, e)
    ensures !e.Connect? && After(timeout, w, e).client.issued != []
  {
    hide Inv, Next, React;
    ConnectingIsOver(timeout, w, j);
    EventComesCloser(timeout, w, j, e);
  }

  /** Before anything else the connection event comes. A refusal tells the user, and after it
      nothing can happen; otherwise AUTHENTICATE is issued. */
  lemma ConnectFirst(timeout: nat, e: Event)
    requires Happens(Enabling(), e)
    ensures e.Connect?
    ensures var c := After(timeout, Enabling(), e).client;
            if e.what == CONNECTED then c.issued != []
            else c.user.calls == [ConnectFailed] && c.issued == [] && c.slot.Closed?
                 && forall f :: !Happens(After(timeout, Enabling(), e), f)
  {
    hide React, CmdAuthenticate, Fits;
  }

  /** CONNECT_FAILED is what the user is told exactly when the connection event is another one than
      CONNECTED; then nothing was sent, and the callbacks are cleared. Commands are issued exactly
      when it is CONNECTED. */
  lemma RefusalIsReported(timeout: nat, events: seq<Event>)
    requires QuietRun(timeout, Enabling(), events)
    ensures var c := Final(timeout, Enabling(), events).client;
            && (c.user.calls == [ConnectFailed] <==> exists i :: 0 <= i < |events| && events[i].Connect? && events[i].what != CONNECTED)
            && (c.user.calls == [ConnectFailed] ==> c.issued == [] && c.slot.Closed?)
            && (c.issued != [] <==> Connect(CONNECTED) in events)
  {
    hide Inv, Happens, Quiet, After;
    if events != [] {
      var e := events[0];
      ConnectFirst(timeout, e);
      var w := After(timeout, Enabling(), e);
      EnablingInv(timeout);
      if e.what == CONNECTED {
        var j := EventKeeps(timeout, Enabling(), 0, e);
        CommandsStay(timeout, w, j, events[1..]);
        assert forall i | 1 <= i < |events| :: events[i] == events[1..][i - 1];
        var j' := RunKeeps(timeout, w, j, events[1..]);
        if Final(timeout, w, events[1..]).client.user.calls == [ConnectFailed] {
          RefusalMeansNothingSent(timeout, Final(timeout, w, events[1..]), j');
        }
      } else {
        assert events[1..] == [];
      }
    }
  }

  /** A failure of the connection is told with its status, and it is the only call. */
  lemma FailureIsReported(timeout: nat, events: seq<Event>)
    requires QuietRun(timeout, Enabling(), events) && Final(timeout, Enabling(), events).failures != []
    ensures var w := Final(timeout, Enabling(), events);
            |w.failures| == 1 && w.client.user.calls == [EventStatus(w.failures[0])]
  {
    hide QuietRun, Final, InvAt, Conform, ResultCells, Scripted, Clear, EventStatus, Verdict, CallbackAt;
    var j := Reached(timeout, events);
  }

  // ----- The outcome -----

  predicate Accepted(reply: seq<string>) {
    reply != [] && Last(reply).status == Ok
  }

  /** The phase in the reply of a poll parsed to a value, which `full` tells to be 100 or not. */
  predicate Parses(reply: seq<string>, full: bool) {
    && reply != [] && (forall i | 0 <= i < |reply| - 1 :: PhaseLine(reply[i]))
    && PollResult(reply).status == Ok
    && (PollResult(reply).value == 100 <==> full)
  }

  /** Authentication and SETCONF were accepted, and the first `polls` polls found a phase below
      100. */
  predicate StillWaiting(replies: seq<seq<string>>, polls: nat) {
    && |replies| >= 2 + polls
    && Accepted(replies[0]) && Accepted(replies[1])
    && forall i | 2 <= i < 2 + polls :: Parses(replies[i], false)
  }

  lemma VerdictMeaning(timeout: nat, i: nat, reply: seq<string>)
    requires Fits(CallbackAt(timeout, i), reply)
    ensures 2 <= i < 2 + timeout ==> (Verdict(timeout, i, reply).None? <==> Parses(reply, false))
    ensures i < 2 ==> (Verdict(timeout, i, reply).None? <==> Accepted(reply))
    ensures Verdict(timeout, i, reply) == Some(Ok) <==> 2 <= i < 2 + timeout && Parses(reply, true)
    ensures Verdict(timeout, i, reply) == Some(GenericError) <==> i >= 2 + timeout && Accepted(reply)
  {
    assert reply != [];
    hide Classify, ParseProgress, Conforming, PhaseOf;
    StatusIsNotGeneric(reply[|reply| - 1]);
    if 2 <= i < 2 + timeout {
      ParsedIsNotGeneric(PhaseOf(reply, |reply| - 1), 0);
    }
  }

  lemma StatusIsNotGeneric(text: string)
    ensures Classify(text).status != GenericError
  {}

  lemma ParsedIsNotGeneric(s: string, phase: int)
    ensures ParseProgress(s, phase).status != GenericError
  {}

  /** The first replies were all clear just when the run is still waiting. */
  lemma ClearMeansWaiting(timeout: nat, replies: seq<seq<string>>, polls: nat)
    requires Conform(timeout, replies) && polls <= timeout && 2 + polls <= |replies|
    ensures Clear(timeout, replies, 2 + polls) <==> StillWaiting(replies, polls)
  {
    hide Fits, Verdict, Accepted, Parses;
    forall i | 0 <= i < 2 + polls
      ensures Verdict(timeout, i, replies[i]).None? <==> if i < 2 then Accepted(replies[i]) else Parses(replies[i], false)
    {
      VerdictMeaning(timeout, i, replies[i]);
    }
  }

  /** The user is told OK exactly when authentication and SETCONF were accepted and some poll
      before the timeout parsed to 100, all earlier ones having parsed to other values; that
      poll's reply is the last one. `answered` counts the replies that arrived entirely. */
  lemma OkExactlyWhenBootstrapped(timeout: nat, events: seq<Event>)
    requires QuietRun(timeout, Enabling(), events)
    ensures var w := Final(timeout, Enabling(), events);
            w.client.user.calls == [Ok] <==>
            exists polls :: && 0 <= polls < timeout && w.client.answered == 3 + polls
                            && StillWaiting(w.replies, polls) && |w.replies| > 2 + polls && Parses(w.replies[2 + polls], true)
  {
    hide QuietRun, Final, Inv, InvAt, PollInv, StillWaiting, Parses;
    var j := Reached(timeout, events);
    var w := Final(timeout, Enabling(), events);
    if w.client.user.calls == [Ok] {
      var polls := OkIsBootstrapped(timeout, w, j);
    }
    forall polls | && 0 <= polls < timeout && w.client.answered == 3 + polls && StillWaiting(w.replies, polls)
                   && |w.replies| > 2 + polls && Parses(w.replies[2 + polls], true)
      ensures w.client.user.calls == [Ok]
    {
      BootstrappedIsOk(timeout, w, j, polls);
    }
  }

  lemma OkIsBootstrapped(timeout: nat, w: Link, j: nat) returns (polls: nat)
    requires Inv(timeout, w, j) && w.client.user.calls == [Ok]
    ensures polls < timeout && w.client.answered == 3 + polls && |w.replies| == 3 + polls
    ensures StillWaiting(w.replies, polls) && Parses(w.replies[2 + polls], true)
  {
    hide InvAt, Fits, Verdict, StillWaiting, Parses, ResultCells, Scripted, Clear;
    var n := |w.client.issued|;
    assert Ended(timeout, n, w.client.answered, w.replies, w.failures, Ok);
    assert 0 < n == |w.replies|;
    VerdictMeaning(timeout, n - 1, w.replies[n - 1]);
    polls := n - 3;
    ClearMeansWaiting(timeout, w.replies, polls);
  }

  lemma BootstrappedIsOk(timeout: nat, w: Link, j: nat, polls: nat)
    requires Inv(timeout, w, j) && polls < timeout && w.client.answered == 3 + polls && |w.replies| > 2 + polls
    requires StillWaiting(w.replies, polls) && Parses(w.replies[2 + polls], true)
    ensures w.client.user.calls == [Ok]
  {
    hide InvAt, Fits, Verdict, StillWaiting, Parses, ResultCells, Scripted, CallbackAt;
    var i := 2 + polls;
    assert Fits(CallbackAt(timeout, i), w.replies[i]);
    VerdictMeaning(timeout, i, w.replies[i]);
    NotClear(timeout, w.replies, i, w.client.answered);
    hide Clear, Conform;
  }

  lemma NotClear(timeout: nat, replies: seq<seq<string>>, i: nat, a: nat)
    requires Conform(timeout, replies) && i < a <= |replies| && Verdict(timeout, i, replies[i]).Some?
    ensures !Clear(timeout, replies, a)
  {
    hide Verdict;
  }

  /** GENERIC_ERROR, when no connection failed, means that all polls found a phase below 100, and
      that tor then acknowledged SETCONF DisableNetwork=1, the last command sent. */
  lemma GenericErrorExactlyAfterDisabling(timeout: nat, events: seq<Event>)
    requires QuietRun(timeout, Enabling(), events)
    ensures var w := Final(timeout, Enabling(), events);
            w.client.user.calls == [GenericError] && w.failures == [] <==>
            && w.client.answered == 3 + timeout && |w.replies| == 3 + timeout
            && StillWaiting(w.replies, timeout) && Accepted(w.replies[2 + timeout])
    ensures var issued := Final(timeout, Enabling(), events).client.issued;
            |issued| == 3 + timeout ==> issued[2 + timeout].text == "SETCONF DisableNetwork=1\r\n"
  {
    hide QuietRun, Final, InvAt, Fits, Verdict, StillWaiting, Parses, ResultCells, Accepted, CmdDisableNetwork;
    DisableNetworkTexts();
    var j := Reached(timeout, events);
    var w := Final(timeout, Enabling(), events);
    var n := |w.client.issued|;
    if |w.replies| == 3 + timeout {
      ClearMeansWaiting(timeout, w.replies, timeout);
      assert Clear(timeout, w.replies, 3 + timeout) ==> Verdict(timeout, 2 + timeout, w.replies[2 + timeout]).None?;
    }
    if 0 < n == |w.replies| {
      VerdictMeaning(timeout, n - 1, w.replies[n - 1]);
    }
  }

  /** A run in which nothing failed reports what the replies decide: the verdict of the first
      reply that has one, and nothing before it arrived entirely. */
  lemma FirstVerdictIsReported(timeout: nat, events: seq<Event>, i: nat)
    requires QuietRun(timeout, Enabling(), events)
    requires var w := Final(timeout, Enabling(), events); i < |w.replies| && Conform(timeout, w.replies)
    requires var w := Final(timeout, Enabling(), events); Verdict(timeout, i, w.replies[i]).Some?
    ensures var w := Final(timeout, Enabling(), events);
            && |w.replies| == i + 1
            && (w.failures == [] ==>
                  w.client.user.calls == if w.client.answered == i + 1 then [Verdict(timeout, i, w.replies[i]).value] else [])
  {
    hide QuietRun, Final, InvAt, Fits, Verdict, ResultCells, Scripted;
    var j := Reached(timeout, events);
    var w := Final(timeout, Enabling(), events);
  }

  lemma PhaseReplyFits(phase: string, callback: LineCb)
    requires '\n' !in phase && callback.GetinfoLine?
    ensures Fits(callback, PhaseReply(phase)) && PhaseReply(phase) != []
    ensures PollResult(PhaseReply(phase)) == ParseProgress(phase, 0)
  {
    PhaseReplySendable(phase);
    PhaseClassified(phase);
    var texts := PhaseReply(phase);
    AfterPrefix(PHASE_KEY, phase);
    hide PhaseReply, Sendable, Classify, Stops, ParseProgress;
    assert |texts| == 2;
    assert !IsFinal(texts[0]) && IsFinal(texts[1]);
    assert PhaseLine(texts[0]);
    assert PhaseOf(texts, 1) == phase;
  }

  /** On the wire: a poll whose reply prints the progress `n`, up to 999, in tor's form counts as
      bootstrapped exactly when `n` is 100; otherwise polling goes on. */
  lemma PrintedProgressDecides(n: nat, more: string, callback: LineCb)
    requires n <= 999 && '\n' !in PrintProgress(n, more) && callback.GetinfoLine?
    ensures PhaseReply(PrintProgress(n, more)) ==
            ["250-status/bootstrap-phase=" + ("NOTICE BOOTSTRAP PROGRESS=" + Text.Decimal(n) + if more == "" then "" else [' '] + more),
             "250 OK"]
    ensures Fits(callback, PhaseReply(PrintProgress(n, more)))
    ensures Parses(PhaseReply(PrintProgress(n, more)), n == 100)
  {
    assert PhaseReply(PrintProgress(n, more)) ==
           ["250-status/bootstrap-phase=" + ("NOTICE BOOTSTRAP PROGRESS=" + Text.Decimal(n) + if more == "" then "" else [' '] + more),
            "250 OK"];
    hide PrintProgress, PhaseReply, PollResult, ParseProgress, Conforming, PhaseLine;
    PhaseReplyFits(PrintProgress(n, more), callback);
    ProgressRoundTrip(n, more, 0);
  }

  /** The final line alone, with any code, is a reply that a server may give to any command. One
      that does not accept ends the run with the status that the code names. */
  lemma RefusalEndsRun(timeout: nat, i: nat, code: string, text: string)
    requires |code| == 3 && Text.AllDigits(code) && '\n' !in text
    ensures Fits(CallbackAt(timeout, i), [code + [' '] + text])
    ensures code != "250" ==>
              Verdict(timeout, i, [code + [' '] + text]) ==
              Some(if code == "552" then UnrecognizedEntity else if code == "650" then Async else UnknownStatusError)
  {
    var line := code + [' '] + text;
    StatusNamesCode(code, ' ', text);
    NoLf(code, [' '], text);
    assert !Stops(line);
    assert IsFinal(line);
    hide Classify, Stops, IsFinal;
  }

  /** A poll whose phase does not parse ends the run with the status of the parser. */
  lemma BadPhaseEndsRun(timeout: nat, i: nat, phase: string)
    requires 2 <= i < 2 + timeout && '\n' !in phase && ParseProgress(phase, 0).status != Ok
    ensures Fits(CallbackAt(timeout, i), PhaseReply(phase))
    ensures Verdict(timeout, i, PhaseReply(phase)) == Some(ParseProgress(phase, 0).status)
  {
    hide PhaseReply, ParseProgress, PollResult, Fits;
    PhaseReplyFits(phase, CallbackAt(timeout, i));
  }

  /** Any connection event can come first. */
  lemma AnyConnectEvent(what: Events)
    ensures Happens(Enabling(), Connect(what))
  {}

  // ----- The end of the run -----

  /** Connecting, then waiting for the write, then for the reply, then closed. */
  function SlotRank(c: Control): nat {
    if c.user.connecting then 3 else if c.slot.Sent? then 2 else if c.slot.Receiving? then 1 else 0
  }

  /** Every event sends one more command, or comes closer to the end of the current one, or
      takes bytes off the wire: this decreases, lexicographically, and the number of commands is
      bounded. */
  predicate Closer(timeout: nat, w: Link, w': Link) {
    || |w.client.issued| < |w'.client.issued| <= 3 + timeout
    || (|w'.client.issued| == |w.client.issued|
        && ( || SlotRank(w'.client) < SlotRank(w.client)
             || (SlotRank(w'.client) == SlotRank(w.client) && |w'.wire| < |w.wire|)))
  }

  lemma EventComesCloser(timeout: nat, w: Link, j: nat, e: Event)
    requires Inv(timeout, w, j) && Happens(w, e) && Quiet(w, e)
    ensures Closer(timeout, w, After(timeout, w, e))
  {
    hide InvAt, PollInv, React, Fits, EventStatus, Encode, Conforming;
    var j' := EventKeeps(timeout, w, j, e);
    IssuedBounded(timeout, After(timeout, w, e), j');
    match e
    case Connect(what) =>
    case Tick(index) =>
    case Answer(reply) =>
      SlotIsUsed(timeout, w, j);
    case Bytes(count) =>
      BytesComeCloser(timeout, w, j, count);
    case Break(what) =>
      SlotIsUsed(timeout, w, j);
      BreakCloses(timeout, w, j, what);
  }

  lemma IssuedBounded(timeout: nat, w: Link, j: nat)
    requires Inv(timeout, w, j)
    ensures |w.client.issued| <= 3 + timeout
  {
    hide InvAt, Stage, ResultCells, Conform, CommandAt, CallbackAt;
  }

  lemma SlotIsUsed(timeout: nat, w: Link, j: nat)
    requires Inv(timeout, w, j) && !w.client.slot.Closed?
    ensures !w.client.user.connecting && w.client.issued != []
    ensures w.client.slot.callback == CallbackAt(timeout, |w.client.issued| - 1)
    ensures |w.client.user.results| == Polls(timeout, |w.client.issued|)
  {
    hide InvAt, Conform, CommandAt, CallbackAt, Clear;
  }

  lemma BreakCloses(timeout: nat, w: Link, j: nat, what: Events)
    requires Inv(timeout, w, j) && !w.client.slot.Closed?
    ensures var c' := Next(React(timeout), w, Fail(what)).client;
            c' == w.client.(slot := Closed, user := w.client.user.(calls := w.client.user.calls + [EventStatus(what)]))
  {
    hide Inv, OnReply, CallbackAt, EventStatus, Polls;
    SlotIsUsed(timeout, w, j);
    IssuedBounded(timeout, w, j);
    FailureFinishes(timeout, w.client.user, |w.client.issued|, what);
  }

  lemma BytesComeCloser(timeout: nat, w: Link, j: nat, count: nat)
    requires Inv(timeout, w, j) && 0 < count <= |w.wire|
    requires |Next(React(timeout), w, Deliver(count)).client.issued| <= 3 + timeout
    ensures Closer(timeout, w, Next(React(timeout), w, Deliver(count)))
  {
    hide InvAt, PollInv, React, Next;
    DeliverFrame(React(timeout), w, count);
    PollerIsPatient(timeout);
    if w.client.slot.Receiving? {
      hide Patient, Tag, FoldLines, TextLines;
      SlotIsUsed(timeout, w, j);
      var m := DeliverKeeps(React(timeout), w, j, count);
      var j' := BytesKeep(timeout, w, j, count);
      ConnectingIsOver(timeout, Next(React(timeout), w, Deliver(count)), j');
    }
  }

  lemma ConnectingIsOver(timeout: nat, w: Link, j: nat)
    requires Inv(timeout, w, j) && w.client.issued != []
    ensures !w.client.user.connecting
  {
    hide InvAt, Conform, ResultCells, Scripted;
  }

  predicate Steps(timeout: nat, w: Link, e: Event, w': Link) {
    Happens(w, e) && Quiet(w, e) && w' == After(timeout, w, e)
  }

  /** No run goes on forever: in an endless sequence of worlds that starts with enable_tor, some
      world does not follow from the one before. */
  lemma RunsEnd(timeout: nat, worlds: nat -> Link, events: nat -> Event)
    requires worlds(0) == Enabling()
    ensures exists k: nat :: !Steps(timeout, worlds(k), events(k), worlds(k + 1))
  {
    hide Inv, Steps;
    EnablingInv(timeout);
    var k := LastStep(timeout, worlds, events, 0, 0);
  }

  lemma {:induction false} LastStep(timeout: nat, worlds: nat -> Link, events: nat -> Event, i: nat, j: nat) returns (k: nat)
    requires Inv(timeout, worlds(i), j)
    ensures !Steps(timeout, worlds(k), events(k), worlds(k + 1))
    decreases 3 + timeout - |worlds(i).client.issued|, SlotRank(worlds(i).client), |worlds(i).wire|
  {
    hide Inv, Happens, Quiet, After, SlotRank;
    var w, e := worlds(i), events(i);
    if Steps(timeout, w, e, worlds(i + 1)) {
      EventComesCloser(timeout, w, j, e);
      IssuedBounded(timeout, w, j);
      var j' := EventKeeps(timeout, w, j, e);
      k := LastStep(timeout, worlds, events, i + 1, j');
    } else {
      k := i;
    }
  }

  /** A run that can only go on by a connection failure has called the user. */
  lemma StuckOnlyAfterCall(timeout: nat, events: seq<Event>)
    requires QuietRun(timeout, Enabling(), events)
    requires var w := Final(timeout, Enabling(), events); forall e :: Happens(w, e) ==> e.Break?
    ensures |Final(timeout, Enabling(), events).client.user.calls| == 1
  {
    hide QuietRun, Final, Inv, Happens;
    var j := Reached(timeout, events);
    var w := Final(timeout, Enabling(), events);
    UserCalledAtMostOnce(timeout, events);
    if w.client.user.calls == [] {
      var e := GoesOn(timeout, w, j);
    }
  }

  lemma GoesOn(timeout: nat, w: Link, j: nat) returns (e: Event)
    requires Inv(timeout, w, j) && w.client.user.calls == []
    ensures Happens(w, e) && !e.Break?
  {
    hide Conform, Scripted, ResultCells, Clear, CallbackAt, CmdAuthenticate, Conforming, Heard;
    if w.client.user.connecting {
      e := Connect(CONNECTED);
    } else if w.client.user.timers != [] {
      e := Tick(0);
    } else if w.client.slot.Sent? {
      e := Answer(["250" + " " + "OK"]);
      FinalFits(w.client.slot.callback);
    } else {
      e := Bytes(|w.wire|);
      assert j < |Current(w.replies)|;
      EncodeHasLf(Current(w.replies)[j..]);
      hide Encode;
      assert w.wire != "" by { assert w.wire == "" ==> w.input + w.wire == w.input; }
    }
  }

  lemma FinalFits(callback: LineCb)
    ensures Fits(callback, ["250" + " " + "OK"])
  {
    KnownCodes();
    ClassifyFinal("250", "OK");
    hide Classify, Stops;
    assert IsFinal("250" + " " + "OK");
  }

  // ----- Why the connection must be quiet while the timer is pending -----

  /** A failure, the timer and a second failure can come one after the other, and the user is called
      for both failures. */
  ghost predicate CalledTwice(timeout: nat, w: Link, first: Events, second: Events) {
    && Happens(w, Break(first))
    && Happens(After(timeout, w, Break(first)), Tick(0))
    && var w2 := After(timeout, After(timeout, w, Break(first)), Tick(0));
       && Happens(w2, Break(second))
       && After(timeout, w2, Break(second)).client.user.calls == [EventStatus(first), EventStatus(second)]
  }

  /** A failure that arrives while the timer is pending reaches the old callback, which calls the
      user; the timer still fires, and a second failure calls the user again. So the user is
      called at most once only because such a failure is ruled out. */
  lemma FailureWhileWaitingCallsTwice(timeout: nat, events: seq<Event>, first: Events, second: Events)
    requires QuietRun(timeout, Enabling(), events)
    requires Final(timeout, Enabling(), events).client.user.timers != []
    ensures CalledTwice(timeout, Final(timeout, Enabling(), events), first, second)
  {
    hide QuietRun, Final, Inv, Happens, After, EventStatus;
    var j := Reached(timeout, events);
    var w := Final(timeout, Enabling(), events);
    FirstBreaks(timeout, w, j, first);
    var w1 := After(timeout, w, Break(first));
    TimerFires(timeout, w1);
    PollBreaks(timeout, After(timeout, w1, Tick(0)), second);
  }

  lemma FirstBreaks(timeout: nat, w: Link, j: nat, what: Events)
    requires Inv(timeout, w, j) && w.client.user.timers != []
    ensures Happens(w, Break(what))
    ensures var c' := After(timeout, w, Break(what)).client;
            c'.user.timers != [] && c'.answered == |c'.issued| && c'.user.calls == [EventStatus(what)]
  {
    hide Inv, EventStatus, React, Perform, Next;
    WaitingSlot(timeout, w, j);
    BreakCloses(timeout, w, j, what);
  }

  lemma TimerFires(timeout: nat, w: Link)
    requires w.client.user.timers != [] && w.client.answered == |w.client.issued|
    ensures Happens(w, Tick(0))
    ensures var c' := After(timeout, w, Tick(0)).client;
            && c'.slot.Sent? && c'.slot.callback == GetinfoLine(w.client.user.timers[0], |w.client.user.results|)
            && |c'.user.results| == |w.client.user.results| + 1 && c'.user.calls == w.client.user.calls
  {
    hide React;
  }

  lemma PollBreaks(timeout: nat, w: Link, what: Events)
    requires w.client.slot.Sent? && w.client.slot.callback.GetinfoLine?
    requires w.client.slot.callback.result < |w.client.user.results|
    ensures Happens(w, Break(what))
    ensures After(timeout, w, Break(what)).client.user.calls == w.client.user.calls + [EventStatus(what)]
  {
    hide OnReply, EventStatus;
    var callback := w.client.slot.callback;
    PollFails(timeout, w.client.user, callback.result, callback.counter, what);
  }

  lemma WaitingSlot(timeout: nat, w: Link, j: nat)
    requires Inv(timeout, w, j) && w.client.user.timers != []
    ensures w.client.slot.Receiving? && w.client.user.calls == []
    ensures w.client.answered == |w.client.issued|
  {
    hide InvAt, Conform, Scripted, ResultCells, Clear, CallbackAt;
  }

  lemma PollFails(timeout: nat, p: Poll, result: nat, counter: nat, what: Events)
    requires result < |p.results|
    ensures OnReply(timeout, p, GetinfoLine(counter, result), Reply(EventStatus(what), '\0', "")) == Finish(p, EventStatus(what))
  {
    hide ParseProgress, CmdDisableNetwork;
  }

  // ----- Why a reply to a void command must have one line -----

  lemma FoldTwoTexts<S>(client: S, texts: seq<string>, handle: Handler<S>)
    requires |texts| == 2 && texts[0] != "" && texts[1] != ""
    ensures FoldLines(client, TextLines(texts), "", handle) ==
            handle(handle(client, Join(TextLines(texts[1..])) + "", Classify(texts[0])), "", Classify(texts[1]))
  {
    hide Classify, FoldLines;
    FoldLinesCons(client, texts, "", handle);
    var client' := handle(client, Join(TextLines(texts[1..])) + "", Classify(texts[0]));
    FoldLinesCons(client', texts[1..], "", handle);
    assert texts[1..][1..] == [] && Join(TextLines([])) + "" == "";
    FoldNone(handle(client', "", Classify(texts[1])), texts[1..][1..], "", handle);
  }

  /** What the user is told of a first line that is not final: the status it has, or, of a line
      that accepts, that it was not expected. */
  function FirstStatus(reply: seq<string>): OnionStatus
    requires reply != []
  {
    if Classify(reply[0]).status != Ok then Classify(reply[0]).status else UnexpectedReply
  }

  /** The callback of AUTHENTICATE runs once per line. When the line that accepts is preceded by
      another one and both arrive in one read event, the user is called, and then the script goes
      on regardless. */
  lemma LongReplyCallsAndGoesOn(timeout: nat, reply: seq<string>)
    requires Conforming(reply) && |reply| == 2 && Last(reply).status == Ok
    ensures var w := After(timeout, Enabling(), Connect(CONNECTED));
            Enabled(w, Flushed(reply))
            && var w1 := Next(React(timeout), w, Flushed(reply));
            var w2 := Next(React(timeout), w1, Deliver(|w1.wire|));
            && w2.client.user.calls == [FirstStatus(reply)] != [Ok]
            && w2.client.slot == Sent(1, SetconfLine(false))
  {
    hide InvAt, Conforming, Sendable, Classify, Stops, React, CmdAuthenticate, RecvLoop;
    var user := Poll(false, [], [], []);
    var w1 := FirstReply(React(timeout), user, CmdAuthenticate(""), AuthLine, reply);
    assert After(timeout, Enabling(), Connect(CONNECTED)) ==
           Next(React(timeout), Start(user), Outside(Send(user, CmdAuthenticate(""), AuthLine)));
    hide Next, Enabled, After;
    TwoLinesArrive(timeout, w1, reply);
  }

  /** When exactly it goes on, for every way of cutting such a reply into two read events: unless
      the first event brings the whole first line and not all of the second. Then the connection
      is closed before the second line is there, and that line is never dispatched. The user is
      called once and with the same status in any case. */
  lemma LongReplyGoesOnExactlyWhen(timeout: nat, reply: seq<string>, count: nat)
    requires Conforming(reply) && |reply| == 2 && Last(reply).status == Ok && count <= |Encode(reply)|
    ensures var w := After(timeout, Enabling(), Connect(CONNECTED));
            Enabled(w, Flushed(reply))
            && var w1 := Next(React(timeout), w, Flushed(reply));
            w1.wire == Encode(reply)
            && var w2 := Next(React(timeout), w1, Deliver(count));
            GoesOnUnlessCut(reply, count, Next(React(timeout), w2, Deliver(|w2.wire|)).client)
  {
    hide InvAt, Conforming, Sendable, Classify, Stops, React, CmdAuthenticate, RecvLoop, Encode, GoesOnUnlessCut;
    var user := Poll(false, [], [], []);
    var w1 := FirstReply(React(timeout), user, CmdAuthenticate(""), AuthLine, reply);
    assert After(timeout, Enabling(), Connect(CONNECTED)) ==
           Next(React(timeout), Start(user), Outside(Send(user, CmdAuthenticate(""), AuthLine)));
    hide Next, Enabled, After;
    CutReply(timeout, w1, reply, count);
  }

  /** What a two-line reply to AUTHENTICATE has come to when both parts arrived. */
  ghost predicate GoesOnUnlessCut(reply: seq<string>, count: nat, c: Control)
    requires |reply| == 2
  {
    && c.user.calls == [FirstStatus(reply)] != [Ok]
    && c.slot == if |reply[0]| + 2 <= count < |Encode(reply)| then Closed else Sent(1, SetconfLine(false))
  }

  /** Before any line of a reply to AUTHENTICATE was dispatched. */
  ghost predicate Authenticating(c: Control) {
    c.user == Poll(false, [], [], []) && c.slot == Receiving(0, AuthLine) && |c.issued| == 1
  }

  lemma CutReply(timeout: nat, w: Link, reply: seq<string>, count: nat)
    requires InvAt(w, 0) && w.replies == [reply] && |reply| == 2 && Last(reply).status == Ok
    requires Authenticating(w.client) && w.input == "" && w.wire == Encode(reply) && count <= |w.wire|
    ensures var w' := Next(React(timeout), w, Deliver(count));
            GoesOnUnlessCut(reply, count, Next(React(timeout), w', Deliver(|w'.wire|)).client)
  {
    ReplyConforms(w, reply);
    hide InvAt, Conforming, Next, FoldLines, TextLines, Encode, Classify, React, OnLine, GoesOnUnlessCut;
    var w' := Next(React(timeout), w, Deliver(count));
    var m := FirstPart(timeout, w, reply, count);
    DeliverFrame(React(timeout), w', |w'.wire|);
    if m == 0 {
      FoldNone(w.client, reply[..0], w'.input, OnLine(React(timeout), 0, AuthLine));
      TwoLinesArrive(timeout, w', reply);
    } else if m == 1 {
      FirstLineCloses(timeout, w.client, reply, w'.input);
    } else {
      TwoLinesArrive(timeout, w, reply);
    }
    var c' := Next(React(timeout), w', Deliver(|w'.wire|)).client;
    assert GoesOnUnlessCut(reply, count, c') by { CutOutcome(reply, count, m, c'); }
  }

  lemma CutOutcome(reply: seq<string>, count: nat, m: nat, c: Control)
    requires |reply| == 2 && (m == 1 <==> |reply[0]| + 2 <= count < |Encode(reply)|)
    requires c.user.calls == [FirstStatus(reply)] != [Ok]
    requires c.slot == if m == 1 then Closed else Sent(1, SetconfLine(false))
    ensures GoesOnUnlessCut(reply, count, c)
  {
    hide Encode, Classify, FirstStatus;
  }

  /** The first event: how many lines it brings, and what their callbacks do. */
  lemma FirstPart(timeout: nat, w: Link, reply: seq<string>, count: nat) returns (m: nat)
    requires InvAt(w, 0) && w.replies == [reply] && |reply| == 2
    requires Authenticating(w.client) && w.input == "" && w.wire == Encode(reply) && count <= |w.wire|
    ensures var w' := Next(React(timeout), w, Deliver(count));
            && m <= 2 && InvAt(w', m) && w'.replies == w.replies
            && w'.client == FoldLines(w.client, TextLines(reply[..m]), w'.input, OnLine(React(timeout), 0, AuthLine))
    ensures m == 1 <==> |reply[0]| + 2 <= count < |Encode(reply)|
    ensures m == 2 ==> count == |w.wire|
  {
    PollerIsPatient(timeout);
    hide InvAt, Next, FoldLines, TextLines, Encode, React, OnLine, Patient, Served;
    var w' := Next(React(timeout), w, Deliver(count));
    m := DeliverKeeps(React(timeout), w, 0, count);
    DeliverFrame(React(timeout), w, count);
    UnreadIsEncoded(w', m, reply);
    LinesInPrefix(reply, m, count, w'.input);
    assert reply[0..0 + m] == reply[..m];
  }

  lemma UnreadIsEncoded(w: Link, j: nat, reply: seq<string>)
    requires InvAt(w, j) && w.replies == [reply]
    ensures j <= |reply| && w.input + w.wire == Encode(reply[j..])
  {
    hide Conforming, Heard, Encode;
  }

  /** How many lines of the reply its first bytes hold. */
  lemma LinesInPrefix(reply: seq<string>, m: nat, count: nat, input: string)
    requires |reply| == 2 && m <= 2 && count <= |Encode(reply)| && '\n' !in input
    requires input + Encode(reply)[count..] == Encode(reply[m..])
    ensures m == 0 ==> count < |reply[0]| + 2
    ensures m == 1 ==> |reply[0]| + 2 <= count < |Encode(reply)|
    ensures m == 2 ==> count == |Encode(reply)|
  {
    var e := Encode(reply);
    assert e == reply[0] + CRLF + Encode(reply[1..]);
    var at := |reply[0]| + 1;
    assert e[at] == '\n' && reply[0..] == reply;
    EncodeOfNothing(reply[2..]);
    EncodeHasLf(reply[1..]);
    hide Encode;
    if m == 0 {
      assert input + e[count..] == e && |input| == count;
    } else {
      assert count == |e| ==> e[count..] == "" && input + e[count..] == input;
    }
  }

  lemma FirstLineCloses(timeout: nat, c: Control, reply: seq<string>, rest: string)
    requires |reply| == 2 && reply[0] != "" && Classify(reply[0]).kind != ' ' && Authenticating(c)
    ensures var c' := FoldLines(c, TextLines(reply[..1]), rest, OnLine(React(timeout), 0, AuthLine));
            && c'.user.calls == [FirstStatus(reply)] != [Ok]
            && c'.slot.Closed?
  {
    hide Classify, FoldLines, TextLines, OnLine, React, Join;
    var handle, texts := OnLine(React(timeout), 0, AuthLine), reply[..1];
    assert texts[0] == reply[0] && texts[1..] == [];
    FoldLinesCons(c, texts, rest, handle);
    var buffered := Join(TextLines(texts[1..])) + rest;
    LineActs(timeout, 0, AuthLine, c, buffered, Classify(reply[0]));
    FoldNone(handle(c, buffered, Classify(reply[0])), texts[1..], rest, handle);
  }

  lemma TwoLinesArrive(timeout: nat, w: Link, reply: seq<string>)
    requires InvAt(w, 0) && w.replies == [reply] && |reply| == 2 && Last(reply).status == Ok
    requires Authenticating(w.client)
    ensures var c' := Next(React(timeout), w, Deliver(|w.wire|)).client;
            && c'.user.calls == [FirstStatus(reply)] != [Ok]
            && c'.slot == Sent(1, SetconfLine(false))
  {
    ReplyConforms(w, reply);
    hide InvAt, Conforming, Next, FoldLines, TextLines, Encode, Join, Classify, Stops, React, OnLine;
    var w' := Next(React(timeout), w, Deliver(|w.wire|));
    var m := ArriveLines(React(timeout), w, 0, |w.wire|);
    DeliverFrame(React(timeout), w, |w.wire|);
    AllArrived(reply, m, w'.input) by { assert w'.wire == ""; assert w'.input + "" == w'.input; }
    assert reply[0..0 + m] == reply;
    FoldTwoTexts(w.client, reply, OnLine(React(timeout), 0, AuthLine));
    TwoAuthLines(timeout, w.client, Join(TextLines(reply[1..])) + "", Classify(reply[0]), Classify(reply[1]));
  }

  lemma ReplyConforms(w: Link, reply: seq<string>)
    requires InvAt(w, 0) && w.replies == [reply] && |reply| == 2
    ensures Conforming(reply) && reply[0] != "" && reply[1] != ""
    ensures Classify(reply[0]).kind != ' ' && Classify(reply[1]).kind == ' '
  {
    hide Classify, Heard, Encode;
    assert w.replies[0] == reply;
    assert !IsFinal(reply[0]) && IsFinal(reply[1]);
  }

  lemma TwoAuthLines(timeout: nat, c: Control, buffered: string, first: Reply, second: Reply)
    requires first.kind != ' ' && second.kind == ' ' && second.status == Ok && |c.issued| == 1
    ensures var handle := OnLine(React(timeout), 0, AuthLine);
            var c' := handle(handle(c, buffered, first), "", second);
            && c'.user.calls == c.user.calls + [VoidStatus(first)] && VoidStatus(first) != Ok
            && c'.slot == Sent(1, SetconfLine(false))
  {
    hide CmdDisableNetwork;
    var handle := OnLine(React(timeout), 0, AuthLine);
    var c1 := handle(c, buffered, first);
    assert c1 == Perform(Dispatch(c, 0, first), buffered, Finish(c.user, VoidStatus(first)));
    assert handle(c1, "", second) == Perform(Dispatch(c1, 0, second), "", SetconfDisableNetwork(c1.user, false));
  }
}
