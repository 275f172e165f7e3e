/** Safety, outcome and termination of the poller, over all runs. */
module OnionPollerRuns {
  import opened Options
  import opened Lines
  import opened OnionCtrl
  import opened OnionRecv
  import opened OnionReplies
  import opened Lockstep
  import opened OnionPoller
  import opened OnionPollerProofs

  // ----- One event -----

  /** The callback that recv installed for the reply that is arriving. */
  function Handle(timeout: nat, replies: seq<seq<string>>): Handler<Control>
    requires replies != []
  {
    OnLine(React(timeout), |replies| - 1, CallbackAt(timeout, |replies| - 1))
  }

  lemma {:induction false} LinesKeep(timeout: nat, c: Control, replies: seq<seq<string>>, failures: seq<Events>,
                                     j: nat, texts: seq<string>, rest: string)
    requires PollInv(timeout, c, replies, failures, j) && c.slot.Receiving?
    requires replies != [] && j <= |Current(replies)| && texts <= Current(replies)[j..]
    ensures PollInv(timeout, FoldLines(c, TextLines(texts), rest, Handle(timeout, replies)), replies, failures, j + |texts|)
    decreases |texts|
  {
    hide PollInv, Classify, Handle, Join, FoldLines, TextLines;
    if texts == [] {
      FoldNone(c, texts, rest, Handle(timeout, replies));
    } else {
      var buffered := Join(TextLines(texts[1..])) + rest;
      assert texts[0] == Current(replies)[j];
      LineIsNotEmpty(timeout, c, replies, failures, j);
      FoldLinesCons(c, texts, rest, Handle(timeout, replies));
      LineKeeps(timeout, c, replies, failures, j, buffered);
      MoreLinesKeep(timeout, c, replies, failures, j, texts, buffered, rest);
    }
  }

  lemma {:induction false} MoreLinesKeep(timeout: nat, c: Control, replies: seq<seq<string>>, failures: seq<Events>,
                                         j: nat, texts: seq<string>, buffered: string, rest: string)
    requires replies != [] && texts != [] && j <= |Current(replies)| && texts <= Current(replies)[j..]
    requires var c1 := Handle(timeout, replies)(c, buffered, Classify(texts[0]));
             && PollInv(timeout, c1, replies, failures, j + 1)
             && (j < |Current(replies)| - 1 ==> c1.slot.Receiving?)
    ensures var c1 := Handle(timeout, replies)(c, buffered, Classify(texts[0]));
            PollInv(timeout, FoldLines(c1, TextLines(texts[1..]), rest, Handle(timeout, replies)), replies, failures, j + |texts|)
    decreases |texts|, 0
  {
    hide PollInv, Classify, Handle, FoldLines, TextLines;
    var c1 := Handle(timeout, replies)(c, buffered, Classify(texts[0]));
    if j < |Current(replies)| - 1 {
      assert texts[1..] <= Current(replies)[j + 1..];
      LinesKeep(timeout, c1, replies, failures, j + 1, texts[1..], rest);
    } else {
      FoldNone(c1, texts[1..], rest, Handle(timeout, replies));
    }
  }

  lemma LineKeeps(timeout: nat, c: Control, replies: seq<seq<string>>, failures: seq<Events>, j: nat, buffered: string)
    requires PollInv(timeout, c, replies, failures, j) && c.slot.Receiving?
    requires replies != [] && j < |Current(replies)|
    ensures var c' := Handle(timeout, replies)(c, buffered, Classify(Current(replies)[j]));
            PollInv(timeout, c', replies, failures, j + 1) && (j < |Current(replies)| - 1 ==> c'.slot == c.slot)
  {
    hide PollInv, Classify, OnLine, React, CallbackAt;
    if j == |Current(replies)| - 1 {
      FinalLineKeeps(timeout, c, replies, failures, buffered);
    } else {
      MidLineKeeps(timeout, c, replies, failures, j, buffered);
    }
  }

  lemma LineIsNotEmpty(timeout: nat, c: Control, replies: seq<seq<string>>, failures: seq<Events>, j: nat)
    requires PollInv(timeout, c, replies, failures, j) && j < |Current(replies)|
    ensures Current(replies)[j] != ""
  {
    assert Fits(CallbackAt(timeout, |replies| - 1), Current(replies));
  }

  ghost predicate Inv(timeout: nat, w: Link, j: nat) {
    InvAt(w, j) && PollInv(timeout, w.client, w.replies, w.failures, j)
  }

  lemma BytesKeep(timeout: nat, w: Link, j: nat, count: nat) returns (j': nat)
    requires Inv(timeout, w, j) && Enabled(w, Deliver(count))
    ensures Inv(timeout, Next(React(timeout), w, Deliver(count)), j')
  {
    hide InvAt, PollInv, React, Next;
    PollerIsPatient(timeout);
    DeliverFrame(React(timeout), w, count);
    if w.client.slot.Receiving? {
      j' := ReadEventKeeps(timeout, w, j, count);
    } else {
      BufferedKeeps(React(timeout), w, j, count);
      j' := j;
    }
  }

  lemma ReadEventKeeps(timeout: nat, w: Link, j: nat, count: nat) returns (j': nat)
    requires Inv(timeout, w, j) && Enabled(w, Deliver(count)) && w.client.slot.Receiving?
    ensures Inv(timeout, Next(React(timeout), w, Deliver(count)), j')
  {
    hide InvAt, PollInv, React, CallbackAt, FoldLines, TextLines, Patient, Next;
    PollerIsPatient(timeout);
    DeliverFrame(React(timeout), w, count);
    ReceivingSlot(timeout, w.client, w.replies, w.failures, j);
    var m := DeliverKeeps(React(timeout), w, j, count);
    j' := j + m;
    var texts := Current(w.replies)[j..j + m];
    assert texts <= Current(w.replies)[j..];
    LinesKeep(timeout, w.client, w.replies, w.failures, j, texts, Next(React(timeout), w, Deliver(count)).input);
  }

  lemma ReceivingSlot(timeout: nat, c: Control, replies: seq<seq<string>>, failures: seq<Events>, j: nat)
    requires PollInv(timeout, c, replies, failures, j) && c.slot.Receiving?
    ensures replies != [] && c.slot == Receiving(|replies| - 1, CallbackAt(timeout, |replies| - 1))
  {
    hide Clear, ResultCells, Scripted, Conform, CallbackAt;
  }

  /** The client sends from a callback only on a final line. */
  lemma PollerIsPatient(timeout: nat)
    ensures Patient(React(timeout))
  {
    forall p, callback, r | React(timeout)(p, callback, r).Send? ensures r.kind == ' ' {
      SendsOnFinal(timeout, p, callback, r);
    }
  }

  lemma SendsOnFinal(timeout: nat, p: Poll, callback: LineCb, r: Reply)
    requires OnReply(timeout, p, callback, r).Send?
    ensures r.kind == ' '
  {
    hide ParseProgress, CmdDisableNetwork;
  }

  lemma AnswerKeeps(timeout: nat, c: Control, c': Control, replies: seq<seq<string>>, failures: seq<Events>, reply: seq<string>)
    requires PollInv(timeout, c, replies, failures, |Current(replies)|) && c.slot.Sent? && Fits(c.slot.callback, reply)
    requires c' == c.(slot := Receiving(c.slot.command, c.slot.callback))
    ensures PollInv(timeout, c', replies + [reply], failures, 0)
  {
    var n, more := |c.issued|, replies + [reply];
    assert reply != [] && Current(more) == reply;
    assert c.slot == Sent(n - 1, CallbackAt(timeout, n - 1)) && n == |replies| + 1;
    hide Fits, Scripted, CallbackAt, ResultCells, Clear, Conform, Stage;
    ConformMore(timeout, replies, reply, c.answered);
    NewReply(timeout, c.user.results, n, replies, reply);
    StageAnswered(timeout, c, c', replies, more, failures);
  }

  lemma StageAnswered(timeout: nat, c: Control, c': Control, replies: seq<seq<string>>, more: seq<seq<string>>,
                      failures: seq<Events>)
    requires Conform(timeout, replies) && Conform(timeout, more) && |more| == |replies| + 1 == |c.issued|
    requires c.slot.Sent? && c' == c.(slot := Receiving(c.slot.command, c.slot.callback))
    requires c.answered <= |replies| && Stage(timeout, c, replies, failures)
    requires Clear(timeout, replies, c.answered) ==> Clear(timeout, more, c.answered)
    ensures Stage(timeout, c', more, failures)
  {
    hide CallbackAt, Ended, Clear, Conform;
  }

  lemma ConformMore(timeout: nat, replies: seq<seq<string>>, reply: seq<string>, a: nat)
    requires Conform(timeout, replies) && Fits(CallbackAt(timeout, |replies|), reply) && a <= |replies|
    ensures Conform(timeout, replies + [reply])
    ensures Clear(timeout, replies, a) ==> Clear(timeout, replies + [reply], a)
  {
    var more := replies + [reply];
    hide Fits, Verdict, CallbackAt;
    assert forall i | 0 <= i < |replies| :: more[i] == replies[i];
    assert Conform(timeout, more);
  }

  lemma NewReply(timeout: nat, results: seq<string>, n: nat, replies: seq<seq<string>>, reply: seq<string>)
    requires Conform(timeout, replies) && Conform(timeout, replies + [reply]) && n == |replies| + 1 && reply != []
    requires ResultCells(timeout, results, n, replies, |Current(replies)|)
    ensures ResultCells(timeout, results, n, replies + [reply], 0)
  {
    assert Current(replies + [reply]) == reply;
    hide Fits, CallbackAt, Classify;
  }

  lemma FailureFinishes(timeout: nat, p: Poll, n: nat, what: Events)
    requires 0 < n <= 3 + timeout && |p.results| == Polls(timeout, n)
    ensures OnReply(timeout, p, CallbackAt(timeout, n - 1), Reply(EventStatus(what), '\0', "")) == Finish(p, EventStatus(what))
  {
    hide ParseProgress, CmdDisableNetwork;
  }

  lemma BreakKeeps(timeout: nat, w: Link, j: nat, what: Events)
    requires PollInv(timeout, w.client, w.replies, w.failures, j) && w.client.user.timers == []
    requires Enabled(w, Fail(what))
    ensures var w' := Next(React(timeout), w, Fail(what));
            PollInv(timeout, w'.client, w'.replies, w'.failures, j)
  {
    var c, n := w.client, |w.client.issued|;
    assert 0 < n && c.slot.callback == CallbackAt(timeout, n - 1);
    FailureFinishes(timeout, c.user, n, what);
    hide Conform, Scripted, CallbackAt, OnReply, EventStatus, Stage, ResultCells;
    var c' := Perform(c, w.input, Finish(c.user, EventStatus(what)));
    assert Next(React(timeout), w, Fail(what)) == w.(failures := w.failures + [what], client := c');
    StageBroken(timeout, c, w.replies, w.failures, w.input, what);
  }

  lemma StageBroken(timeout: nat, c: Control, replies: seq<seq<string>>, failures: seq<Events>, input: string, what: Events)
    requires Conform(timeout, replies) && c.answered <= |replies| && Stage(timeout, c, replies, failures)
    requires !c.slot.Closed? && c.user.timers == []
    ensures Stage(timeout, Perform(c, input, Finish(c.user, EventStatus(what))), replies, failures + [what])
  {
    hide Conform, CallbackAt, Clear, EventStatus, Verdict;
  }

  lemma ConnectKeeps(timeout: nat, w: Link, j: nat, what: Events)
    requires PollInv(timeout, w.client, w.replies, w.failures, j) && w.client.user.connecting
    ensures var c' := Perform(w.client, w.input, Connected(w.client.user, what));
            PollInv(timeout, c', w.replies, w.failures, j)
  {
    hide Conform, CmdAuthenticate, Verdict, EventStatus;
    assert w.client.issued == [] && w.replies == [];
  }

  lemma TickKeeps(timeout: nat, w: Link, j: nat, index: nat)
    requires PollInv(timeout, w.client, w.replies, w.failures, j) && index < |w.client.user.timers|
    ensures w.client.answered == |w.client.issued|
    ensures var c' := Perform(w.client, w.input, OnTimer(w.client.user, index));
            PollInv(timeout, c', w.replies, w.failures, j)
  {
    var c, n := w.client, |w.client.issued|;
    hide Conform, CmdAuthenticate, Verdict, EventStatus, Ended, Clear, ResultCells, Scripted;
    assert c.user.timers == [n - 2] && 2 <= n < 2 + timeout && index == 0;
    assert [n - 2][..0] + [n - 2][1..] == [];
    TickData(timeout, c, w.replies, j, w.input);
  }

  lemma TickData(timeout: nat, c: Control, replies: seq<seq<string>>, j: nat, input: string)
    requires Scripted(timeout, c.issued) && 2 <= |c.issued| < 2 + timeout
    requires Conform(timeout, replies) && j <= |Current(replies)| && |replies| == |c.issued|
    requires ResultCells(timeout, c.user.results, |c.issued|, replies, j)
    ensures CallbackAt(timeout, |c.issued|) == GetinfoLine(|c.issued| - 2, |c.user.results|)
    ensures Scripted(timeout, c.issued + [Issue(GETINFO, CallbackAt(timeout, |c.issued|), input)])
    ensures ResultCells(timeout, c.user.results + [""], |c.issued| + 1, replies, j)
  {
    hide Conform, PhaseOf, CmdAuthenticate, CmdDisableNetwork;
  }

  lemma AnswerEventKeeps(timeout: nat, w: Link, j: nat, reply: seq<string>)
    requires Inv(timeout, w, j) && w.client.slot.Sent? && Fits(w.client.slot.callback, reply)
    ensures Inv(timeout, Next(React(timeout), w, Flushed(reply)), 0)
  {
    assert j == |Current(w.replies)|;
    FlushedKeeps(React(timeout), w, j, reply);
    hide InvAt, PollInv, React, Fits, Conforming, Encode;
    var w' := Next(React(timeout), w, Flushed(reply));
    AnswerKeeps(timeout, w.client, w'.client, w.replies, w.failures, reply);
  }

  lemma OutsideEventKeeps(timeout: nat, w: Link, j: nat, act: Act<Poll, LineCb>)
    requires InvAt(w, j) && Enabled(w, Outside(act))
    requires PollInv(timeout, Perform(w.client, w.input, act), w.replies, w.failures, j)
    ensures Inv(timeout, Next(React(timeout), w, Outside(act)), j)
  {
    hide InvAt, PollInv, React, Perform;
    PerformKeeps(w, Next(React(timeout), w, Outside(act)), j, act);
  }

  lemma BreakEventKeeps(timeout: nat, w: Link, j: nat, what: Events)
    requires Inv(timeout, w, j) && Enabled(w, Fail(what)) && w.client.user.timers == []
    ensures Inv(timeout, Next(React(timeout), w, Fail(what)), j)
  {
    hide InvAt, PollInv, React, Patient, Next;
    PollerIsPatient(timeout);
    FailKeeps(React(timeout), w, j, what);
    BreakKeeps(timeout, w, j, what);
  }

  lemma EventKeeps(timeout: nat, w: Link, j: nat, e: Event) returns (j': nat)
    requires Inv(timeout, w, j) && Happens(w, e) && Quiet(w, e)
    ensures Inv(timeout, After(timeout, w, e), j')
  {
    hide InvAt, PollInv, React, Next, Enabled, Fits, Connected, OnTimer;
    j' := j;
    match e
    case Connect(what) =>
      ConnectKeeps(timeout, w, j, what);
      OutsideEventKeeps(timeout, w, j, Connected(w.client.user, what));
    case Tick(index) =>
      TickKeeps(timeout, w, j, index);
      OutsideEventKeeps(timeout, w, j, OnTimer(w.client.user, index));
    case Answer(reply) =>
      AnswerEventKeeps(timeout, w, j, reply);
      j' := 0;
    case Bytes(count) =>
      j' := BytesKeep(timeout, w, j, count);
    case Break(what) =>
      BreakEventKeeps(timeout, w, j, what);
  }
}
