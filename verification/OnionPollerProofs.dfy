/** What the poller does in every run against a conforming server. */
module OnionPollerProofs {
  import opened Options
  import opened Lines
  import opened OnionCtrl
  import opened OnionRecv
  import opened OnionReplies
  import opened Lockstep
  import opened OnionPoller

  // ----- The script, and the verdict of each reply -----

  /** Command number `i` of the script: authenticate, enable, poll `timeout` times, disable. */
  function CommandAt(timeout: nat, i: nat): string {
    if i == 0 then CmdAuthenticate("")
    else if i == 1 then CmdDisableNetwork(false)
    else if i < 2 + timeout then GETINFO
    else CmdDisableNetwork(true)
  }

  function CallbackAt(timeout: nat, i: nat): LineCb {
    if i == 0 then AuthLine
    else if i == 1 then SetconfLine(false)
    else if i < 2 + timeout then GetinfoLine(i - 2, i - 2)
    else SetconfLine(true)
  }

  function Last(reply: seq<string>): Reply
    requires reply != []
  {
    Classify(reply[|reply| - 1])
  }

  /** The phase that the first `j` lines of a reply to GETINFO tell: that of the last of them. */
  function PhaseOf(reply: seq<string>, j: nat): string
    requires j <= |reply| && forall i | 0 <= i < j :: PhaseLine(reply[i])
  {
    if j == 0 then ""
    else
      assert PhaseLine(reply[j - 1]);
      Classify(reply[j - 1]).text[|PHASE_KEY|..]
  }

  /** What a poll found out. */
  function PollResult(reply: seq<string>): Parsed
    requires reply != [] && forall i | 0 <= i < |reply| - 1 :: PhaseLine(reply[i])
  {
    if Last(reply).status != Ok then Parsed(Last(reply).status, 0)
    else ParseProgress(PhaseOf(reply, |reply| - 1), 0)
  }

  /** The status with which the reply to command `i` ends the run, if it does. */
  function Verdict(timeout: nat, i: nat, reply: seq<string>): Option<OnionStatus>
    requires Fits(CallbackAt(timeout, i), reply)
  {
    if 2 <= i < 2 + timeout then
      var result := PollResult(reply);
      if result.status != Ok then Some(result.status) else if result.value == 100 then Some(Ok) else None
    else if Last(reply).status != Ok then Some(Last(reply).status)
    else if i >= 2 + timeout then Some(GenericError)
    else None
  }

  // ----- The invariant -----

  predicate Scripted(timeout: nat, issued: seq<Issue<LineCb>>) {
    && |issued| <= 3 + timeout
    && forall i | 0 <= i < |issued| ::
         issued[i].text == CommandAt(timeout, i) && issued[i].callback == CallbackAt(timeout, i)
  }

  ghost predicate Conform(timeout: nat, replies: seq<seq<string>>) {
    forall i | 0 <= i < |replies| :: Fits(CallbackAt(timeout, i), replies[i])
  }

  /** The first `a` replies did not end the run. */
  ghost predicate Clear(timeout: nat, replies: seq<seq<string>>, a: nat)
    requires Conform(timeout, replies) && a <= |replies|
  {
    forall i | 0 <= i < a :: Verdict(timeout, i, replies[i]).None?
  }

  /** How many of the first `n` commands are polls. */
  function Polls(timeout: nat, n: nat): nat {
    if n <= 2 then 0 else if n <= 2 + timeout then n - 2 else timeout
  }

  /** The string cells: one per poll; that of the last poll holds the phase seen so far. */
  ghost predicate ResultCells(timeout: nat, results: seq<string>, n: nat, replies: seq<seq<string>>, j: nat)
    requires Conform(timeout, replies) && j <= |Current(replies)|
  {
    && |results| == Polls(timeout, n)
    && (2 < n <= 2 + timeout ==>
          if |replies| == n then results[n - 3] == PhaseOf(Current(replies), if j == |Current(replies)| then j - 1 else j)
          else results[n - 3] == "")
  }

  /** Where the run stands: connecting; a command waits for the rest of its reply; a timer is
      pending; or the user was called. */
  ghost predicate Stage(timeout: nat, c: Control, replies: seq<seq<string>>, failures: seq<Events>)
    requires Conform(timeout, replies) && c.answered <= |replies|
  {
    var n, a, p := |c.issued|, c.answered, c.user;
    if p.connecting then
      n == 0 && replies == [] && c.slot.Closed? && p.calls == [] && p.timers == [] && failures == []
    else if p.calls == [] then
      && failures == [] && Clear(timeout, replies, a) && n > 0
      && (if p.timers == [] then
            && n == a + 1
            && c.slot == if |replies| == n then Receiving(n - 1, CallbackAt(timeout, n - 1)) else Sent(n - 1, CallbackAt(timeout, n - 1))
          else
            && n == a == |replies| && 2 <= n < 2 + timeout && p.timers == [n - 2]
            && c.slot == Receiving(n - 1, CallbackAt(timeout, n - 1)))
    else
      && |p.calls| == 1 && c.slot.Closed? && p.timers == []
      && Ended(timeout, n, a, replies, failures, p.calls[0])
  }

  /** Why the user was called: the connection was refused, a reply ended the run, or it failed. */
  ghost predicate Ended(timeout: nat, n: nat, a: nat, replies: seq<seq<string>>, failures: seq<Events>, status: OnionStatus)
    requires Conform(timeout, replies) && a <= |replies|
  {
    || (n == 0 && replies == [] && failures == [] && status == ConnectFailed)
    || (n == a == |replies| && n > 0 && failures == []
        && Clear(timeout, replies, n - 1) && Verdict(timeout, n - 1, replies[n - 1]) == Some(status))
    || (n == a + 1 && |failures| == 1 && status == EventStatus(failures[0]) && Clear(timeout, replies, a))
  }

  /** `j` lines of the current reply have been dispatched. */
  ghost predicate PollInv(timeout: nat, c: Control, replies: seq<seq<string>>, failures: seq<Events>, j: nat) {
    && j <= |Current(replies)|
    && Conform(timeout, replies)
    && Scripted(timeout, c.issued)
    && |replies| <= |c.issued| <= |replies| + 1
    && c.answered == |replies| - (if j == |Current(replies)| then 0 else 1)
    && ResultCells(timeout, c.user.results, |c.issued|, replies, j)
    && Stage(timeout, c, replies, failures)
  }

  // ----- One line of a reply -----

  /** A callback acts on the last line, with the run clear so far: the verdict decides. */
  ghost predicate Decided(timeout: nat, p: Poll, n: nat, verdict: Option<OnionStatus>, act: Act<Poll, LineCb>)
    requires n > 0
  {
    match verdict
    case Some(status) => act == Finish(p, status)
    case None =>
      if n == 1 || n >= 2 + timeout then act == Send(p, CommandAt(timeout, n), CallbackAt(timeout, n))
      else act == Stay(p.(timers := p.timers + [n - 2]))
  }

  lemma FinalLineDecides(timeout: nat, p: Poll, n: nat, reply: seq<string>)
    requires 0 < n <= 3 + timeout && Fits(CallbackAt(timeout, n - 1), reply)
    requires 2 < n <= 2 + timeout ==> n - 3 < |p.results| && p.results[n - 3] == PhaseOf(reply, |reply| - 1)
    ensures Decided(timeout, p, n, Verdict(timeout, n - 1, reply), OnReply(timeout, p, CallbackAt(timeout, n - 1), Last(reply)))
  {
    assert Last(reply).kind == ' ' by { assert IsFinal(reply[|reply| - 1]); }
    if 2 < n <= 2 + timeout {
      hide Classify, Conforming, PhaseOf, Last, Decided, OnReply, PollResult, PhaseAsInt;
      PollAsInt(reply, Last(reply));
      PollDecides(timeout, p, n, p.results[n - 3], Last(reply), PollResult(reply));
    } else {
      hide Classify, Conforming, Last, Decided, OnReply;
      VoidDecides(timeout, p, n, Last(reply));
    }
  }

  lemma VoidDecides(timeout: nat, p: Poll, n: nat, r: Reply)
    requires 0 < n <= 2 || n == 3 + timeout
    requires r.kind == ' '
    ensures Decided(timeout, p, n,
                    if r.status != Ok then Some(r.status) else if n == 3 + timeout then Some(GenericError) else None,
                    OnReply(timeout, p, CallbackAt(timeout, n - 1), r))
  {
    hide CmdDisableNetwork, CmdAuthenticate;
  }

  lemma PollDecides(timeout: nat, p: Poll, n: nat, phase: string, r: Reply, result: Parsed)
    requires 2 < n <= 2 + timeout && n - 3 < |p.results| && p.results[n - 3] == phase && r.kind == ' '
    requires result == PhaseAsInt(if r.status != Ok then StringCall(r.status, "") else StringCall(Ok, phase))
    ensures Decided(timeout, p, n,
                    if result.status != Ok then Some(result.status) else if result.value == 100 then Some(Ok) else None,
                    OnReply(timeout, p, CallbackAt(timeout, n - 1), r))
  {
    hide CmdDisableNetwork, CmdAuthenticate, PhaseAsInt, OnionReplies.GetinfoLine;
    PollFinal(p, phase, r);
  }

  lemma PollFinal(p: Poll, phase: string, r: Reply)
    requires r.kind == ' '
    ensures OnionReplies.GetinfoLine(Getinfo(phase, []), r).calls ==
            [if r.status != Ok then StringCall(r.status, "") else StringCall(Ok, phase)]
  {}

  lemma PollAsInt(reply: seq<string>, r: Reply)
    requires reply != [] && (forall i | 0 <= i < |reply| - 1 :: PhaseLine(reply[i])) && r == Last(reply)
    ensures PhaseAsInt(if r.status != Ok then StringCall(r.status, "") else StringCall(Ok, PhaseOf(reply, |reply| - 1)))
         == PollResult(reply)
  {
    hide PhaseOf, Classify, ParseProgress;
  }

  /** A phase line goes to the cell, and nothing else happens. */
  lemma PhaseLineStored(timeout: nat, p: Poll, n: nat, text: string)
    requires 2 < n <= 2 + timeout && n - 3 < |p.results| && PhaseLine(text)
    ensures OnReply(timeout, p, CallbackAt(timeout, n - 1), Classify(text))
         == Stay(p.(results := p.results[n - 3 := Classify(text).text[|PHASE_KEY|..]]))
  {
    hide Classify;
  }

  lemma MidLineKeeps(timeout: nat, c: Control, replies: seq<seq<string>>, failures: seq<Events>, j: nat, buffered: string)
    requires PollInv(timeout, c, replies, failures, j) && c.slot.Receiving? && j < |Current(replies)| - 1
    ensures var k := |replies| - 1;
            var c' := OnLine(React(timeout), k, CallbackAt(timeout, k))(c, buffered, Classify(Current(replies)[j]));
            PollInv(timeout, c', replies, failures, j + 1) && c'.slot == c.slot
  {
    var n, text := |c.issued|, Current(replies)[j];
    var callback := CallbackAt(timeout, n - 1);
    MidIsPoll(timeout, replies, j);
    var c' := OnLine(React(timeout), n - 1, callback)(c, buffered, Classify(text));
    assert !IsFinal(text);
    CellsMid(timeout, c.user.results, replies, j);
    PhaseLineStored(timeout, c.user, n, text);
    hide Classify, OnReply, CallbackAt, Scripted, ResultCells, Conform, PhaseLine;
    var results := c.user.results[n - 3 := Classify(text).text[|PHASE_KEY|..]];
    assert c' == Perform(Dispatch(c, n - 1, Classify(text)), buffered, Stay(c.user.(results := results)));
    assert c' == c.(delivered := c'.delivered, user := c.user.(results := results));
    StageFrame(timeout, c, c', replies, failures);
  }

  lemma MidIsPoll(timeout: nat, replies: seq<seq<string>>, j: nat)
    requires Conform(timeout, replies) && j < |Current(replies)| - 1
    ensures 2 < |replies| <= 2 + timeout && PhaseLine(Current(replies)[j]) && !IsFinal(Current(replies)[j])
  {
    var reply := Current(replies);
    assert Fits(CallbackAt(timeout, |replies| - 1), reply);
    assert PhaseLine(reply[j]);
  }

  lemma CellsMid(timeout: nat, results: seq<string>, replies: seq<seq<string>>, j: nat)
    requires Conform(timeout, replies) && j < |Current(replies)| - 1 && PhaseLine(Current(replies)[j])
    requires ResultCells(timeout, results, |replies|, replies, j) && 2 < |replies| <= 2 + timeout
    ensures |replies| - 3 < |results|
    ensures var phase := Classify(Current(replies)[j]).text[|PHASE_KEY|..];
            ResultCells(timeout, results[|replies| - 3 := phase], |replies|, replies, j + 1)
  {
    hide Classify, CallbackAt, Conforming;
  }

  lemma StageFrame(timeout: nat, c: Control, c': Control, replies: seq<seq<string>>, failures: seq<Events>)
    requires Conform(timeout, replies) && c.answered <= |replies| && Stage(timeout, c, replies, failures)
    requires c' == c.(delivered := c'.delivered, user := c.user.(results := c'.user.results))
    ensures Stage(timeout, c', replies, failures)
  {
    hide CallbackAt, Conform, Ended, Clear;
  }

  /** While lines of a reply are to come: it answers the last command, and nothing has ended yet. */
  lemma WhileReceiving(timeout: nat, c: Control, replies: seq<seq<string>>, failures: seq<Events>, j: nat)
    requires PollInv(timeout, c, replies, failures, j) && c.slot.Receiving? && j < |Current(replies)|
    ensures |c.issued| == |replies| == c.answered + 1 <= 3 + timeout
    ensures c.user.calls == [] && c.user.timers == [] && failures == [] && !c.user.connecting
    ensures c.slot == Receiving(|replies| - 1, CallbackAt(timeout, |replies| - 1))
    ensures Fits(CallbackAt(timeout, |replies| - 1), Current(replies))
    ensures 2 < |replies| <= 2 + timeout ==>
              && |replies| - 3 < |c.user.results|
              && c.user.results[|replies| - 3] == PhaseOf(Current(replies), j)
  {
    hide Fits, CallbackAt, CommandAt, Clear, Ended, PhaseOf;
  }

  lemma LastLineIsFinal(callback: LineCb, reply: seq<string>)
    requires Fits(callback, reply)
    ensures reply != [] && IsFinal(reply[|reply| - 1]) && Last(reply).kind == ' '
  {
    hide Classify, Stops;
  }

  lemma LastVerdict(timeout: nat, i: nat, reply: seq<string>)
    requires Fits(CallbackAt(timeout, i), reply) && i >= 2 + timeout
    ensures Verdict(timeout, i, reply).Some?
  {
    hide Last, Fits;
  }

  /** The callback of the last line acts as the verdict asks. */
  lemma FinalLineActs(timeout: nat, c: Control, replies: seq<seq<string>>, failures: seq<Events>, buffered: string)
    returns (act: Act<Poll, LineCb>)
    requires Current(replies) != []
    requires PollInv(timeout, c, replies, failures, |Current(replies)| - 1) && c.slot.Receiving?
    ensures 0 < |c.issued| == |replies| && Fits(CallbackAt(timeout, |c.issued| - 1), Current(replies))
    ensures Decided(timeout, c.user, |c.issued|, Verdict(timeout, |c.issued| - 1, Current(replies)), act)
    ensures OnLine(React(timeout), |replies| - 1, CallbackAt(timeout, |replies| - 1))(c, buffered, Last(Current(replies)))
         == Perform(Dispatch(c, |replies| - 1, Last(Current(replies))), buffered, act)
  {
    var n, reply := |c.issued|, Current(replies);
    var callback := CallbackAt(timeout, n - 1);
    WhileReceiving(timeout, c, replies, failures, |reply| - 1);
    hide PollInv, OnReply, Last, Fits, CallbackAt, Verdict, Decided;
    FinalLineDecides(timeout, c.user, n, reply);
    act := OnReply(timeout, c.user, callback, Last(reply));
  }

  lemma FinalLineKeeps(timeout: nat, c: Control, replies: seq<seq<string>>, failures: seq<Events>, buffered: string)
    requires Current(replies) != []
    requires PollInv(timeout, c, replies, failures, |Current(replies)| - 1) && c.slot.Receiving?
    ensures var k := |replies| - 1;
            var c' := OnLine(React(timeout), k, CallbackAt(timeout, k))(c, buffered, Last(Current(replies)));
            PollInv(timeout, c', replies, failures, |Current(replies)|)
  {
    hide PollInv, Perform, Dispatch, Last, Fits, CallbackAt, Verdict, Decided, OnLine, React;
    var act := FinalLineActs(timeout, c, replies, failures, buffered);
    LastLineIsFinal(CallbackAt(timeout, |c.issued| - 1), Current(replies));
    AfterFinal(timeout, c, replies, failures, buffered, act);
  }

  /** After the final line of a reply, as its verdict decides. */
  lemma AfterFinal(timeout: nat, c: Control, replies: seq<seq<string>>, failures: seq<Events>,
                   buffered: string, act: Act<Poll, LineCb>)
    requires Current(replies) != [] && Last(Current(replies)).kind == ' '
    requires PollInv(timeout, c, replies, failures, |Current(replies)| - 1) && c.slot.Receiving?
    requires 0 < |c.issued| == |replies| && Fits(CallbackAt(timeout, |c.issued| - 1), Current(replies))
    requires Decided(timeout, c.user, |c.issued|, Verdict(timeout, |c.issued| - 1, Current(replies)), act)
    ensures PollInv(timeout, Perform(Dispatch(c, |c.issued| - 1, Last(Current(replies))), buffered, act),
                    replies, failures, |Current(replies)|)
  {
    hide Last, Fits, Verdict, CallbackAt, Scripted, ResultCells, Decided, Conform, Stage, Perform;
    var n := |c.issued|;
    var verdict := Verdict(timeout, n - 1, Current(replies));
    if n == 3 + timeout {
      LastVerdict(timeout, n - 1, Current(replies));
    }
    var d := Dispatch(c, n - 1, Last(Current(replies)));
    WhileReceiving(timeout, c, replies, failures, |Current(replies)| - 1);
    ScriptAfter(timeout, d, buffered, verdict, act);
    CellsAfter(timeout, d, replies, buffered, verdict, act);
    StageAfter(timeout, c, replies, failures, buffered, verdict, act);
  }

  lemma ScriptAfter(timeout: nat, c: Control, buffered: string, verdict: Option<OnionStatus>, act: Act<Poll, LineCb>)
    requires Scripted(timeout, c.issued) && |c.issued| > 0 && (|c.issued| == 3 + timeout ==> verdict.Some?)
    requires Decided(timeout, c.user, |c.issued|, verdict, act)
    ensures Scripted(timeout, Perform(c, buffered, act).issued)
    ensures |c.issued| <= |Perform(c, buffered, act).issued| <= |c.issued| + 1
  {
    hide CommandAt, CallbackAt;
  }

  lemma CellsAfter(timeout: nat, c: Control, replies: seq<seq<string>>, buffered: string,
                   verdict: Option<OnionStatus>, act: Act<Poll, LineCb>)
    requires Conform(timeout, replies) && Current(replies) != [] && |c.issued| == |replies|
    requires ResultCells(timeout, c.user.results, |c.issued|, replies, |Current(replies)| - 1)
    requires Decided(timeout, c.user, |c.issued|, verdict, act)
    ensures var c' := Perform(c, buffered, act);
            ResultCells(timeout, c'.user.results, |c'.issued|, replies, |Current(replies)|)
  {
    hide CommandAt, CallbackAt, Fits, PhaseOf;
  }

  lemma StageAfter(timeout: nat, c: Control, replies: seq<seq<string>>, failures: seq<Events>, buffered: string,
                   verdict: Option<OnionStatus>, act: Act<Poll, LineCb>)
    requires Conform(timeout, replies) && Current(replies) != [] && Last(Current(replies)).kind == ' '
    requires c.answered + 1 == |replies| == |c.issued| <= 3 + timeout && c.slot.Receiving?
    requires Stage(timeout, c, replies, failures)
    requires verdict == Verdict(timeout, |replies| - 1, Current(replies))
    requires Decided(timeout, c.user, |c.issued|, verdict, act)
    ensures var c' := Perform(Dispatch(c, |replies| - 1, Last(Current(replies))), buffered, act);
            c'.answered == |replies| && Stage(timeout, c', replies, failures)
  {
    hide CommandAt, CallbackAt, Verdict, Last, EventStatus, Conform;
    ClearMore(timeout, replies, verdict);
  }

  lemma ClearMore(timeout: nat, replies: seq<seq<string>>, verdict: Option<OnionStatus>)
    requires Conform(timeout, replies) && replies != [] && Clear(timeout, replies, |replies| - 1)
    requires verdict == Verdict(timeout, |replies| - 1, Current(replies))
    ensures verdict.None? ==> Clear(timeout, replies, |replies|)
  {
    hide Verdict, Fits;
  }
}
