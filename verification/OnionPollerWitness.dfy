/** Runs of the poller that do happen: every outcome that OnionPollerSafety.dfy characterises is
    reached, for every timeout. */
module OnionPollerWitness {
  import opened Options
  import opened Lines
  import opened OnionCtrl
  import opened OnionRecv
  import opened OnionReplies
  import opened Lockstep
  import opened OnionPoller
  import opened OnionPollerProofs
  import opened OnionPollerRuns
  import opened OnionPollerSafety
  import opened OnionPollerFree

  // ----- One command and its reply -----

  lemma MidwayReceives(timeout: nat, c: Control, replies: seq<seq<string>>, j: nat)
    requires PollInv(timeout, c, replies, [], j) && j < |Current(replies)|
    ensures c.slot.Receiving?
  {
    hide Conform, Scripted, ResultCells, Clear, CallbackAt, Verdict;
  }

  /** What a reply that arrives entirely comes to, by its verdict: the user is called; or the next
      command is sent at once; or a timer is started. */
  ghost predicate CameTo(timeout: nat, n: nat, verdict: Option<OnionStatus>, c: Control)
    requires n > 0
  {
    match verdict
    case Some(status) => c.user.calls == [status]
    case None =>
      if n == 1 || n >= 2 + timeout then c.slot.Sent? && |c.issued| == n + 1
      else c.user.timers == [n - 2] && |c.issued| == n
  }

  lemma LastLineCameTo(timeout: nat, c: Control, replies: seq<seq<string>>)
    requires Current(replies) != [] && PollInv(timeout, c, replies, [], |Current(replies)| - 1)
    ensures 0 < |replies| == |c.issued| && Fits(CallbackAt(timeout, |replies| - 1), Current(replies))
    ensures CameTo(timeout, |replies|, Verdict(timeout, |replies| - 1, Current(replies)),
                   Handle(timeout, replies)(c, "", Last(Current(replies))))
  {
    hide PollInv, Last, Fits, CallbackAt, Verdict, OnLine, React;
    MidwayReceives(timeout, c, replies, |Current(replies)| - 1);
    WhileReceiving(timeout, c, replies, [], |Current(replies)| - 1);
    var act := FinalLineActs(timeout, c, replies, [], "");
  }

  /** The same for all lines at once. */
  lemma ReplyCameTo(timeout: nat, c: Control, replies: seq<seq<string>>)
    requires Current(replies) != [] && PollInv(timeout, c, replies, [], 0) && c.slot.Receiving?
    requires forall i | 0 <= i < |Current(replies)| :: Current(replies)[i] != ""
    ensures 0 < |replies| == |c.issued| && Fits(CallbackAt(timeout, |replies| - 1), Current(replies))
    ensures CameTo(timeout, |replies|, Verdict(timeout, |replies| - 1, Current(replies)),
                   FoldLines(c, TextLines(Current(replies)), "", Handle(timeout, replies)))
  {
    hide PollInv, FoldLines, TextLines, Handle, CameTo, Fits, Classify, Verdict, Join;
    var reply := Current(replies);
    var mids, last := reply[..|reply| - 1], reply[|reply| - 1];
    assert mids + [last] == reply && reply[0..] == reply;
    FoldLinesSnoc(c, mids, last, Handle(timeout, replies));
    LinesKeep(timeout, c, replies, [], 0, mids, Join(TextLines([last])));
    var c' := FoldLines(c, TextLines(mids), Join(TextLines([last])), Handle(timeout, replies));
    LastLineCameTo(timeout, c', replies);
    WhileReceiving(timeout, c, replies, [], 0);
  }

  /** The reply is sent, and arrives in one read event. */
  function Exchange(reply: seq<string>): seq<Event> {
    [Answer(reply), Bytes(|Encode(reply)|)]
  }

  lemma AnswerHappens(timeout: nat, w: Link, j: nat, reply: seq<string>)
    requires Inv(timeout, w, j) && w.client.slot.Sent? && Fits(w.client.slot.callback, reply)
    ensures Happens(w, Answer(reply))
    ensures var w1 := After(timeout, w, Answer(reply));
            && Inv(timeout, w1, 0) && w1.wire == Encode(reply) != "" && w1.replies == w.replies + [reply]
            && w1.failures == w.failures == [] && w1.client.slot.Receiving? && |w1.client.issued| == |w.client.issued|
            && Happens(w1, Bytes(|Encode(reply)|))
  {
    hide Inv, Encode, Conforming, Sendable, IsFinal, Classify, React;
    SentIsIdle(timeout, w, j);
    LastLineIsFinal(w.client.slot.callback, reply);
    EncodeHasLf(reply);
    AnswerEventKeeps(timeout, w, j, reply);
    assert "" + Encode(reply) == Encode(reply);
  }

  lemma SentIsIdle(timeout: nat, w: Link, j: nat)
    requires Inv(timeout, w, j) && w.client.slot.Sent?
    ensures w.wire == "" && w.failures == [] && w.client.issued != []
    ensures w.client.slot.callback == CallbackAt(timeout, |w.client.issued| - 1)
    ensures |w.replies| + 1 == |w.client.issued|
  {
    hide Conforming, Heard, Conform, Scripted, ResultCells, Clear, CallbackAt, Verdict, Encode;
    EncodeOfNothing(Current(w.replies)[j..]);
  }

  /** What the current reply comes to, in the client `c`. */
  ghost predicate CurrentCameTo(timeout: nat, n: nat, reply: seq<string>, c: Control) {
    && n > 0 && Fits(CallbackAt(timeout, n - 1), reply)
    && CameTo(timeout, n, Verdict(timeout, n - 1, reply), c)
  }

  lemma BytesCameTo(timeout: nat, w: Link)
    requires Inv(timeout, w, 0) && w.client.slot.Receiving? && w.failures == [] && w.wire != ""
    requires Current(w.replies) != [] && w.wire == Encode(Current(w.replies))
    ensures CurrentCameTo(timeout, |w.client.issued|, Current(w.replies), Next(React(timeout), w, Deliver(|w.wire|)).client)
  {
    hide InvAt, PollInv, React, Next, FoldLines, TextLines, Encode, Verdict, Fits, CameTo, Conforming, CallbackAt;
    var reply, w' := Current(w.replies), Next(React(timeout), w, Deliver(|w.wire|));
    CurrentConforms(w, 0);
    var m := ArriveLines(React(timeout), w, 0, |w.wire|);
    DeliverFrame(React(timeout), w, |w.wire|);
    AllArrived(reply, m, w'.input) by { assert w'.wire == ""; assert w'.input + "" == w'.input; }
    assert reply[0..0 + m] == reply;
    ReceivingSlot(timeout, w.client, w.replies, w.failures, 0);
    ReplyCameTo(timeout, w.client, w.replies);
  }

  lemma CurrentConforms(w: Link, j: nat)
    requires InvAt(w, j) && Current(w.replies) != []
    ensures Conforming(Current(w.replies))
    ensures forall i | 0 <= i < |Current(w.replies)| :: Current(w.replies)[i] != ""
  {
    hide Heard, Encode, Classify, IsFinal;
    assert Conforming(w.replies[|w.replies| - 1]);
  }

  /** From any state in which a command was sent, a reply that conforms can come, and its verdict
      decides what it comes to. */
  lemma ExchangeCameTo(timeout: nat, w: Link, j: nat, reply: seq<string>)
    requires Inv(timeout, w, j) && w.client.slot.Sent? && Fits(w.client.slot.callback, reply)
    ensures QuietRun(timeout, w, Exchange(reply))
    ensures var n, w' := |w.client.issued|, Final(timeout, w, Exchange(reply));
            w'.failures == [] && CurrentCameTo(timeout, n, reply, w'.client)
  {
    hide Inv, Happens, CurrentCameTo, Fits, Encode, CallbackAt, React, Next;
    SentIsIdle(timeout, w, j);
    AnswerHappens(timeout, w, j, reply);
    var w1 := After(timeout, w, Answer(reply));
    assert Current(w1.replies) == reply;
    assert reply != [] by { LastLineIsFinal(w.client.slot.callback, reply); }
    BytesCameTo(timeout, w1);
    TwoEvents(timeout, w, Answer(reply), Bytes(|Encode(reply)|));
    BytesKeepFailures(timeout, w1, |Encode(reply)|);
  }

  lemma BytesKeepFailures(timeout: nat, w: Link, count: nat)
    requires Happens(w, Bytes(count))
    ensures After(timeout, w, Bytes(count)).failures == w.failures
  {
    hide Next;
    DeliverFrame(React(timeout), w, count);
  }

  lemma TwoEvents(timeout: nat, w: Link, e: Event, f: Event)
    requires Happens(w, e) && Happens(After(timeout, w, e), f) && !e.Break? && !f.Break?
    ensures QuietRun(timeout, w, [e, f])
    ensures Final(timeout, w, [e, f]) == After(timeout, After(timeout, w, e), f)
  {
    hide Happens, After;
    var w1 := After(timeout, w, e);
    assert [e, f][1..] == [f];
    OneEvent(timeout, w1, f);
  }

  lemma OneEvent(timeout: nat, w: Link, e: Event)
    requires Happens(w, e) && !e.Break?
    ensures QuietRun(timeout, w, [e]) && Final(timeout, w, [e]) == After(timeout, w, e)
  {
    hide Happens, After;
    assert [e][1..] == [];
    assert QuietRun(timeout, After(timeout, w, e), []);
  }

  lemma {:induction false} RunConcat(timeout: nat, w: Link, a: seq<Event>, b: seq<Event>)
    requires QuietRun(timeout, w, a) && QuietRun(timeout, Final(timeout, w, a), b)
    ensures QuietRun(timeout, w, a + b) && Final(timeout, w, a + b) == Final(timeout, Final(timeout, w, a), b)
    decreases |a|
  {
    hide Happens, After, Quiet;
    if a == [] {
      assert a + b == b;
    } else {
      assert (a + b)[0] == a[0] && (a + b)[1..] == a[1..] + b;
      RunConcat(timeout, After(timeout, w, a[0]), a[1..], b);
    }
  }

  // ----- The replies -----

  const ACCEPTED: seq<string> := ["250" + " " + "OK"]

  /** The reply to GETINFO that prints a progress. */
  function Progress(n: nat): seq<string> {
    PhaseReply(PrintProgress(n, ""))
  }

  lemma AcceptedVerdict(timeout: nat, i: nat)
    requires i < 2 || i >= 2 + timeout
    ensures Fits(CallbackAt(timeout, i), ACCEPTED)
    ensures Verdict(timeout, i, ACCEPTED) == if i < 2 then None else Some(GenericError)
  {
    FinalFits(CallbackAt(timeout, i));
    KnownCodes();
    ClassifyFinal("250", "OK");
    hide Classify, Fits;
  }

  lemma ProgressVerdict(timeout: nat, i: nat, n: nat)
    requires 2 <= i < 2 + timeout && n <= 999
    ensures Fits(CallbackAt(timeout, i), Progress(n))
    ensures Verdict(timeout, i, Progress(n)) == if n == 100 then Some(Ok) else None
  {
    hide PrintProgress, PhaseReply, Fits, Parses, Verdict;
    ProgressHasNoLf(n);
    PrintedProgressDecides(n, "", CallbackAt(timeout, i));
    VerdictMeaning(timeout, i, Progress(n));
  }

  lemma ProgressHasNoLf(n: nat)
    ensures '\n' !in PrintProgress(n, "")
  {
    var digits := Text.Decimal(n);
    assert forall i | 0 <= i < |digits| :: Text.IsDigit(digits[i]);
    hide Text.Decimal;
    NoLf("NOTICE BOOTSTRAP PROGRESS=", digits, "");
  }

  // ----- The runs -----

  /** Connect, then have AUTHENTICATE and SETCONF accepted. */
  function Opening(): seq<Event> {
    [Connect(CONNECTED)] + Exchange(ACCEPTED) + Exchange(ACCEPTED)
  }

  /** Then `polls` polls that find the bootstrap half way. */
  function Polling(polls: nat): seq<Event> {
    if polls == 0 then Opening() else Polling(polls - 1) + ([Tick(0)] + Exchange(Progress(50)))
  }

  /** A quiet run from enable_tor on, its last command sent or a timer pending. */
  ghost predicate At(timeout: nat, events: seq<Event>, sent: bool, issued: nat) {
    && QuietRun(timeout, Enabling(), events)
    && var w := Final(timeout, Enabling(), events);
       && w.failures == [] && |w.client.issued| == issued
       && (if sent then w.client.slot.Sent? else issued >= 2 && w.client.user.timers == [issued - 2])
  }

  /** A run goes on with the reply to the command that was sent last. */
  lemma ThenReply(timeout: nat, events: seq<Event>, issued: nat, reply: seq<string>)
    requires At(timeout, events, true, issued)
    requires issued > 0 && Fits(CallbackAt(timeout, issued - 1), reply)
    ensures QuietRun(timeout, Enabling(), events + Exchange(reply))
    ensures var w := Final(timeout, Enabling(), events + Exchange(reply));
            w.failures == [] && CameTo(timeout, issued, Verdict(timeout, issued - 1, reply), w.client)
  {
    hide QuietRun, Final, Inv, Fits, CallbackAt, Verdict, CameTo, Exchange;
    var j := Reached(timeout, events);
    var w := Final(timeout, Enabling(), events);
    SentIsIdle(timeout, w, j);
    ExchangeCameTo(timeout, w, j, reply);
    RunConcat(timeout, Enabling(), events, Exchange(reply));
  }

  lemma ThenTick(timeout: nat, events: seq<Event>, issued: nat)
    requires At(timeout, events, false, issued)
    ensures At(timeout, events + [Tick(0)], true, issued + 1)
  {
    hide QuietRun, Final, Inv, Happens, After;
    var j := Reached(timeout, events);
    var w := Final(timeout, Enabling(), events);
    WaitingSlot(timeout, w, j);
    TimerFires(timeout, w);
    TickIssues(timeout, w);
    OneEvent(timeout, w, Tick(0));
    RunConcat(timeout, Enabling(), events, [Tick(0)]);
  }

  lemma TickIssues(timeout: nat, w: Link)
    requires Happens(w, Tick(0))
    ensures var w' := After(timeout, w, Tick(0));
            w'.failures == w.failures && |w'.client.issued| == |w.client.issued| + 1
  {
    hide React;
  }

  lemma Connects(timeout: nat)
    ensures At(timeout, [Connect(CONNECTED)], true, 1)
  {
    var e := Connect(CONNECTED);
    hide React, CmdAuthenticate;
    assert Happens(Enabling(), e);
    OneEvent(timeout, Enabling(), e);
  }

  /** Waiting for the circuit is reached: the timer is pending, or, when no poll is allowed, the
      network is being disabled. */
  lemma WaitingIsReached(timeout: nat)
    ensures if timeout > 0 then At(timeout, Opening(), false, 2) else At(timeout, Opening(), true, 3)
  {
    var first := [Connect(CONNECTED)] + Exchange(ACCEPTED);
    hide QuietRun, Final, Fits, CallbackAt, Verdict, Exchange;
    Connects(timeout);
    AcceptedVerdict(timeout, 0);
    ThenReply(timeout, [Connect(CONNECTED)], 1, ACCEPTED);
    assert At(timeout, first, true, 2);
    AcceptedVerdict(timeout, 1);
    ThenReply(timeout, first, 2, ACCEPTED);
  }

  /** One more poll, by what it finds. */
  lemma PollFinds(timeout: nat, events: seq<Event>, polls: nat, n: nat)
    requires At(timeout, events, false, 2 + polls) && polls < timeout && n <= 999
    ensures var after := events + [Tick(0)] + Exchange(Progress(n));
            if n == 100 then
              QuietRun(timeout, Enabling(), after) && Final(timeout, Enabling(), after).client.user.calls == [Ok]
            else At(timeout, after, polls + 1 == timeout, if polls + 1 == timeout then 3 + timeout else 3 + polls)
  {
    hide QuietRun, Final, Fits, CallbackAt, Verdict, Exchange, Progress;
    ThenTick(timeout, events, 2 + polls);
    ProgressVerdict(timeout, 2 + polls, n);
    ThenReply(timeout, events + [Tick(0)], 3 + polls, Progress(n));
  }

  /** For every number of polls up to the timeout there is a run in which all of them found a phase
      below 100. */
  lemma {:induction false} PollingIsReached(timeout: nat, polls: nat)
    requires polls <= timeout
    ensures At(timeout, Polling(polls), polls == timeout, if polls == timeout then 3 + timeout else 2 + polls)
  {
    hide At, QuietRun, Final, Fits, CallbackAt, Verdict, Exchange, Opening, Progress;
    if polls == 0 {
      WaitingIsReached(timeout);
    } else {
      PollingIsReached(timeout, polls - 1);
      PollFinds(timeout, Polling(polls - 1), polls - 1, 50);
      Associate(Polling(polls - 1), [Tick(0)], Exchange(Progress(50)));
    }
  }

  /** OK is reported in some run after any number of polls below the timeout. */
  lemma OkIsReached(timeout: nat, polls: nat) returns (events: seq<Event>)
    requires polls < timeout
    ensures QuietRun(timeout, Enabling(), events)
    ensures Final(timeout, Enabling(), events).client.user.calls == [Ok]
  {
    hide At, QuietRun, Final, Exchange, Progress, Polling;
    PollingIsReached(timeout, polls);
    PollFinds(timeout, Polling(polls), polls, 100);
    events := Polling(polls) + [Tick(0)] + Exchange(Progress(100));
  }

  /** GENERIC_ERROR is reported in some run without a failure, whatever the timeout. */
  lemma GenericErrorIsReached(timeout: nat) returns (events: seq<Event>)
    ensures QuietRun(timeout, Enabling(), events)
    ensures var w := Final(timeout, Enabling(), events);
            w.client.user.calls == [GenericError] && w.failures == []
  {
    hide At, QuietRun, Final, Exchange, Polling, Fits, CallbackAt, Verdict;
    PollingIsReached(timeout, timeout);
    AcceptedVerdict(timeout, 2 + timeout);
    ThenReply(timeout, Polling(timeout), 3 + timeout, ACCEPTED);
    events := Polling(timeout) + Exchange(ACCEPTED);
  }

  /** Without the silence that QuietRun asks for, the user is called twice in some run: from the
      state after the opening, by a failure, the timer and another failure. */
  lemma UserCalledTwiceIsReached(timeout: nat, first: Events, second: Events)
    requires timeout > 0
    ensures QuietRun(timeout, Enabling(), Opening())
    ensures CalledTwice(timeout, Final(timeout, Enabling(), Opening()), first, second)
  {
    hide QuietRun, Final, Opening, CalledTwice;
    WaitingIsReached(timeout);
    FailureWhileWaitingCallsTwice(timeout, Opening(), first, second);
  }

  /** A finished run that is not quiet exists for every timeout above 0. */
  lemma LoudRunIsReached(timeout: nat, what: Events) returns (events: seq<Event>)
    requires timeout > 0
    ensures FreeRun(timeout, Enabling(), events) && !QuietRun(timeout, Enabling(), events)
    ensures var w := FreeFinal(timeout, Enabling(), events);
            |w.client.user.calls| >= 2 && forall e :: Happens(w, e) ==> e.Break?
  {
    hide FreeRun, FreeFinal, QuietRun, Final, Happens, Opening;
    WaitingIsReached(timeout);
    events := LoudRunFinishes(timeout, Opening(), what);
  }

  /** A reply of two lines that accepts exists, so LongReplyCallsAndGoesOn speaks of something. */
  lemma LongReplyExists(phase: string)
    requires '\n' !in phase
    ensures var reply := PhaseReply(phase); Conforming(reply) && |reply| == 2 && Last(reply).status == Ok
  {
    PhaseReplyFits(phase, GetinfoLine(0, 0));
    PhaseClassified(phase);
    hide Classify, Sendable, Stops;
  }
}
