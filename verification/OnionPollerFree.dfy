/** Runs of the poller in which the connection may fail at any time, even while the timer is
    pending: they end, too, and the user is called once exactly when the run was quiet. */
module OnionPollerFree {
  import opened Options
  import opened Lines
  import opened OnionCtrl
  import opened OnionRecv
  import opened OnionReplies
  import opened Lockstep
  import opened OnionPoller
  import opened OnionPollerProofs
  import opened OnionPollerRuns
  import opened OnionPollerSafety

  predicate FreeRun(timeout: nat, w: Link, events: seq<Event>)
    decreases |events|
  {
    events == [] || (Happens(w, events[0]) && FreeRun(timeout, After(timeout, w, events[0]), events[1..]))
  }

  function FreeFinal(timeout: nat, w: Link, events: seq<Event>): Link
    requires FreeRun(timeout, w, events)
    decreases |events|
  {
    if events == [] then w else FreeFinal(timeout, After(timeout, w, events[0]), events[1..])
  }

  // ----- What holds in every run -----

  predicate CellInRange(slot: Slot<LineCb>, results: nat) {
    !slot.Closed? && slot.callback.GetinfoLine? ==> slot.callback.result < results
  }

  ghost predicate FreeClient(c: Control) {
    && |c.user.timers| <= 1
    && (c.user.timers != [] ==> c.answered == |c.issued|)
    && CellInRange(c.slot, |c.user.results|)
    && (c.user.connecting ==> c.slot.Closed? && c.user.timers == [])
  }

  ghost predicate FreeInv(w: Link, j: nat) {
    && InvAt(w, j)
    && FreeClient(w.client)
    && (w.client.slot.Receiving? ==> Fits(w.client.slot.callback, Current(w.replies)))
  }

  predicate Halfway(w: Link, j: nat) {
    w.client.slot.Receiving? && j < |Current(w.replies)|
  }

  /** The user was called, and was called again or will be when the run has ended. */
  ghost predicate Owed(w: Link, j: nat) {
    var p := w.client.user;
    && !p.connecting && p.calls != []
    && (|p.calls| >= 2 || p.timers != [] || w.client.slot.Sent? || Halfway(w, j))
  }

  // ----- How far the script is from its end -----

  function Left(timeout: nat, counter: nat): nat {
    if counter < timeout then timeout - counter else 0
  }

  function CallbackRank(timeout: nat, callback: LineCb): nat {
    match callback
    case AuthLine => 2 * timeout + 6
    case SetconfLine(disable) => if disable then 1 else 2 * timeout + 5
    case GetinfoLine(counter, _) => 2 * Left(timeout, counter) + 3
  }

  function TimerRank(timeout: nat, counter: nat): nat {
    2 * Left(timeout, counter) + 4
  }

  function Rank(timeout: nat, c: Control): nat {
    if c.user.connecting then 2 * timeout + 7
    else if c.user.timers != [] then TimerRank(timeout, c.user.timers[0])
    else if c.slot.Closed? then 0
    else CallbackRank(timeout, c.slot.callback)
  }

  predicate Nearer(timeout: nat, w: Link, w': Link) {
    || Rank(timeout, w'.client) < Rank(timeout, w.client)
    || (Rank(timeout, w'.client) == Rank(timeout, w.client)
        && ( || SlotRank(w'.client) < SlotRank(w.client)
             || (SlotRank(w'.client) == SlotRank(w.client) && |w'.wire| < |w.wire|)))
  }

  // ----- The lines of a reply -----

  /** The final line of a reply was dispatched: the user was called and the connection closed, or a
      later command was sent, or a timer started. */
  ghost predicate Advanced(timeout: nat, callback: LineCb, c: Control, c': Control) {
    var p, p' := c.user, c'.user;
    && p'.connecting == p.connecting && |p'.results| == |p.results|
    && ( || (c'.slot.Closed? && |p'.calls| == |p.calls| + 1 && p'.timers == p.timers)
         || (c'.slot.Sent? && c'.slot.callback.SetconfLine? && p'.calls == p.calls && p'.timers == p.timers
             && CallbackRank(timeout, c'.slot.callback) < CallbackRank(timeout, callback))
         || (c'.slot == c.slot && p'.calls == p.calls && |p'.timers| == |p.timers| + 1
             && p'.timers[..|p.timers|] == p.timers
             && TimerRank(timeout, p'.timers[|p.timers|]) < CallbackRank(timeout, callback)))
  }

  /** Before the final line nothing changes but the string cell. */
  ghost predicate Unmoved(c: Control, c': Control) {
    && c'.slot == c.slot && c'.issued == c.issued && c'.answered == c.answered
    && c'.user == c.user.(results := c'.user.results) && |c'.user.results| == |c.user.results|
  }

  lemma FinalAdvances(timeout: nat, k: nat, callback: LineCb, c: Control, buffered: string, r: Reply)
    requires r.kind == ' ' && c.slot == Receiving(k, callback) && CellInRange(c.slot, |c.user.results|)
    ensures Advanced(timeout, callback, c, OnLine(React(timeout), k, callback)(c, buffered, r))
  {
    LineActs(timeout, k, callback, c, buffered, r);
    hide OnLine, React, CmdDisableNetwork, PhaseAsInt;
  }

  lemma PhaseUnmoves(timeout: nat, k: nat, callback: LineCb, c: Control, buffered: string, text: string)
    requires PhaseLine(text) && callback.GetinfoLine?
    requires c.slot == Receiving(k, callback) && CellInRange(c.slot, |c.user.results|)
    ensures Unmoved(c, OnLine(React(timeout), k, callback)(c, buffered, Classify(text)))
  {
    LineActs(timeout, k, callback, c, buffered, Classify(text));
    hide OnLine, React, Classify, PhaseAsInt;
  }

  predicate Phases(callback: LineCb, texts: seq<string>) {
    && (texts != [] ==> callback.GetinfoLine?)
    && forall i | 0 <= i < |texts| :: texts[i] != "" && PhaseLine(texts[i])
  }

  /** The rest of a reply, all of it. */
  predicate RestOf(callback: LineCb, texts: seq<string>) {
    && texts != [] && texts[|texts| - 1] != "" && IsFinal(texts[|texts| - 1])
    && Phases(callback, texts[..|texts| - 1])
  }

  lemma {:induction false} PhasesUnmove(timeout: nat, k: nat, callback: LineCb, c: Control, texts: seq<string>, rest: string)
    requires Phases(callback, texts)
    requires c.slot == Receiving(k, callback) && CellInRange(c.slot, |c.user.results|)
    ensures Unmoved(c, FoldLines(c, TextLines(texts), rest, OnLine(React(timeout), k, callback)))
    decreases |texts|
  {
    hide OnLine, React, Classify, PhaseLine, FoldLines, TextLines, Join;
    var handle := OnLine(React(timeout), k, callback);
    if texts == [] {
      FoldNone(c, texts, rest, handle);
    } else {
      var buffered := Join(TextLines(texts[1..])) + rest;
      FoldLinesCons(c, texts, rest, handle);
      PhaseUnmoves(timeout, k, callback, c, buffered, texts[0]);
      PhasesUnmove(timeout, k, callback, handle(c, buffered, Classify(texts[0])), texts[1..], rest);
    }
  }

  lemma RestAdvances(timeout: nat, k: nat, callback: LineCb, c: Control, texts: seq<string>)
    requires RestOf(callback, texts)
    requires c.slot == Receiving(k, callback) && CellInRange(c.slot, |c.user.results|)
    ensures Advanced(timeout, callback, c, FoldLines(c, TextLines(texts), "", OnLine(React(timeout), k, callback)))
  {
    var mids, last := texts[..|texts| - 1], texts[|texts| - 1];
    assert texts == mids + [last];
    hide OnLine, React, Classify, Phases, FoldLines, TextLines, Join, CallbackRank, TimerRank, Advanced;
    var handle := OnLine(React(timeout), k, callback);
    FoldLinesSnoc(c, mids, last, handle);
    PhasesUnmove(timeout, k, callback, c, mids, Join(TextLines([last])));
    var c1 := FoldLines(c, TextLines(mids), Join(TextLines([last])), handle);
    FinalAdvances(timeout, k, callback, c1, "", Classify(last));
    AdvancedFrom(timeout, callback, c, c1, handle(c1, "", Classify(last)));
  }

  lemma AdvancedFrom(timeout: nat, callback: LineCb, c: Control, c1: Control, c2: Control)
    requires Unmoved(c, c1) && Advanced(timeout, callback, c1, c2)
    ensures Advanced(timeout, callback, c, c2)
  {
    hide CallbackRank, TimerRank;
  }

  lemma PhasesOf(callback: LineCb, reply: seq<string>, i: nat, j: nat)
    requires Fits(callback, reply) && i <= j < |reply|
    ensures Phases(callback, reply[i..j])
  {
    hide Classify, PhaseLine;
    var texts := reply[i..j];
    forall l | 0 <= l < |texts| ensures texts[l] != "" && PhaseLine(texts[l]) {
      assert reply[i + l] != "" && PhaseLine(reply[i + l]);
    }
    assert i < j ==> PhaseLine(reply[i]);
  }

  lemma StretchOfReply(callback: LineCb, reply: seq<string>, j: nat, m: nat)
    requires Fits(callback, reply) && j + m <= |reply|
    ensures if m > 0 && j + m == |reply| then RestOf(callback, reply[j..j + m]) else Phases(callback, reply[j..j + m])
  {
    LastLineIsFinal(callback, reply);
    if m > 0 && j + m == |reply| {
      assert reply[|reply| - 1] != "";
      PhasesOf(callback, reply, j, |reply| - 1);
      assert reply[j..j + m][..m - 1] == reply[j..|reply| - 1];
    } else if m > 0 {
      PhasesOf(callback, reply, j, j + m);
    }
  }

  /** Bytes arrive: the lines that complete are dispatched. */
  lemma BytesMove(timeout: nat, w: Link, j: nat, count: nat) returns (j': nat)
    requires FreeInv(w, j) && count <= |w.wire|
    ensures var w' := Next(React(timeout), w, Deliver(count));
            && InvAt(w', j') && j <= j'
            && (if w.client.slot.Receiving? && j < j' == |Current(w.replies)|
                then Advanced(timeout, w.client.slot.callback, w.client, w'.client)
                else Unmoved(w.client, w'.client))
  {
    PollerIsPatient(timeout);
    hide InvAt, Fits, Next, React, Patient, Served, FoldLines, TextLines, Encode, Advanced, OnLine;
    DeliverFrame(React(timeout), w, count);
    if w.client.slot.Receiving? {
      var m := DeliverKeeps(React(timeout), w, j, count);
      j' := j + m;
      DeliveredLines(timeout, w, j, m, Next(React(timeout), w, Deliver(count)));
    } else {
      BufferedKeeps(React(timeout), w, j, count);
      j' := j;
    }
  }

  lemma DeliveredLines(timeout: nat, w: Link, j: nat, m: nat, w': Link)
    requires FreeInv(w, j) && w.client.slot.Receiving? && j + m <= |Current(w.replies)|
    requires InvAt(w', j + m) && w'.replies == w.replies && '\n' !in w'.input
    requires w'.client == FoldLines(w.client, TextLines(Current(w.replies)[j..j + m]), w'.input,
                                    OnLine(React(timeout), w.client.slot.command, w.client.slot.callback))
    ensures if m > 0 && j + m == |Current(w.replies)|
            then Advanced(timeout, w.client.slot.callback, w.client, w'.client)
            else Unmoved(w.client, w'.client)
  {
    hide InvAt, Fits, React, Current, FoldLines, TextLines, Advanced, Unmoved, OnLine, Phases, RestOf;
    var reply, k, callback := Current(w.replies), w.client.slot.command, w.client.slot.callback;
    NothingUnread(w', j + m);
    StretchOfReply(callback, reply, j, m);
    if m > 0 && j + m == |reply| {
      RestAdvances(timeout, k, callback, w.client, reply[j..j + m]);
    } else {
      PhasesUnmove(timeout, k, callback, w.client, reply[j..j + m], w'.input);
    }
  }

  lemma NothingUnread(w: Link, j: nat)
    requires InvAt(w, j)
    ensures j == |Current(w.replies)| ==> w.input == ""
  {
    hide Conforming, Heard, Encode;
    EncodeOfNothing(Current(w.replies)[j..]);
  }

  // ----- One event -----

  /** What each event keeps, and that it comes nearer to the end. */
  ghost predicate GoesWell(timeout: nat, w: Link, j: nat, w': Link, j': nat) {
    FreeInv(w', j') && (Owed(w, j) ==> Owed(w', j')) && Nearer(timeout, w, w')
  }

  lemma FreeBytes(timeout: nat, w: Link, j: nat, count: nat) returns (j': nat)
    requires FreeInv(w, j) && 0 < count <= |w.wire|
    ensures GoesWell(timeout, w, j, Next(React(timeout), w, Deliver(count)), j')
  {
    hide FreeInv, Next, React, Advanced, Unmoved, GoesWell;
    DeliverFrame(React(timeout), w, count);
    j' := BytesMove(timeout, w, j, count);
    AfterBytes(timeout, w, j, Next(React(timeout), w, Deliver(count)), j');
  }

  lemma AfterBytes(timeout: nat, w: Link, j: nat, w': Link, j': nat)
    requires FreeInv(w, j) && InvAt(w', j') && j <= j' && w'.replies == w.replies && |w'.wire| < |w.wire|
    requires if w.client.slot.Receiving? && j < j' == |Current(w.replies)|
             then Advanced(timeout, w.client.slot.callback, w.client, w'.client)
             else Unmoved(w.client, w'.client)
    ensures GoesWell(timeout, w, j, w', j')
  {
    CountsAt(w, j);
    CountsAt(w', j');
    hide InvAt, Fits, TimerRank;
    if w.client.slot.Receiving? && j < j' == |Current(w.replies)| {
      AfterAdvance(timeout, w, j, w', j');
    } else {
      hide CallbackRank;
    }
  }

  /** A reply that is not complete is not counted as an answer. */
  lemma CountsAt(w: Link, j: nat)
    requires InvAt(w, j)
    ensures j <= |Current(w.replies)|
    ensures w.client.slot.Receiving? ==>
              && |w.client.issued| == |w.replies|
              && w.client.answered == |w.replies| - (if j == |Current(w.replies)| then 0 else 1)
    ensures w.client.slot.Sent? ==> w.client.answered < |w.client.issued|
  {
    hide Conforming, Heard, Encode;
  }

  lemma AfterAdvance(timeout: nat, w: Link, j: nat, w': Link, j': nat)
    requires FreeInv(w, j) && InvAt(w', j') && w'.replies == w.replies
    requires w.client.slot.Receiving? && j < j' == |Current(w.replies)|
    requires Advanced(timeout, w.client.slot.callback, w.client, w'.client)
    ensures GoesWell(timeout, w, j, w', j')
  {
    CountsAt(w, j);
    CountsAt(w', j');
    hide InvAt, Fits, TimerRank, CallbackRank;
    assert w.client.user.timers == [];
    SomeRank(timeout, w.client.slot.callback);
  }

  lemma SomeRank(timeout: nat, callback: LineCb)
    ensures CallbackRank(timeout, callback) > 0
  {}

  lemma FreeConnect(timeout: nat, w: Link, j: nat, what: Events)
    requires FreeInv(w, j) && w.client.user.connecting && Enabled(w, Outside(Connected(w.client.user, what)))
    ensures GoesWell(timeout, w, j, Next(React(timeout), w, Outside(Connected(w.client.user, what))), j)
  {
    PerformKeeps(w, Next(React(timeout), w, Outside(Connected(w.client.user, what))), j, Connected(w.client.user, what));
    hide InvAt, Fits, React, CmdAuthenticate;
  }

  lemma FreeTick(timeout: nat, w: Link, j: nat, index: nat)
    requires FreeInv(w, j) && index < |w.client.user.timers| && Enabled(w, Outside(OnTimer(w.client.user, index)))
    ensures GoesWell(timeout, w, j, Next(React(timeout), w, Outside(OnTimer(w.client.user, index))), j)
  {
    var p := w.client.user;
    PerformKeeps(w, Next(React(timeout), w, Outside(OnTimer(p, index))), j, OnTimer(p, index));
    hide InvAt, Fits, React;
    assert p.timers[..index] + p.timers[index + 1..] == [];
  }

  lemma FreeAnswer(timeout: nat, w: Link, j: nat, reply: seq<string>)
    requires FreeInv(w, j) && w.client.slot.Sent? && Fits(w.client.slot.callback, reply) && Enabled(w, Flushed(reply))
    ensures GoesWell(timeout, w, j, Next(React(timeout), w, Flushed(reply)), 0)
  {
    hide InvAt, React, Encode, CallbackRank, Fits, Conforming;
    FlushedKeeps(React(timeout), w, j, reply);
    CountsAt(w, j);
    LastLineIsFinal(w.client.slot.callback, reply);
    assert Current(w.replies + [reply]) == reply;
  }

  /** Whatever the callback, it tells the user of a failure. */
  lemma FailureIsTold(timeout: nat, p: Poll, callback: LineCb, what: Events)
    requires callback.GetinfoLine? ==> callback.result < |p.results|
    ensures OnReply(timeout, p, callback, Reply(EventStatus(what), '\0', "")) == Finish(p, EventStatus(what))
  {
    hide ParseProgress, CmdDisableNetwork;
  }

  lemma FreeBreak(timeout: nat, w: Link, j: nat, what: Events)
    requires FreeInv(w, j) && Enabled(w, Fail(what))
    ensures GoesWell(timeout, w, j, Next(React(timeout), w, Fail(what)), j)
  {
    hide InvAt, Fits, Patient, OnReply, EventStatus, CallbackRank;
    PollerIsPatient(timeout);
    FailKeeps(React(timeout), w, j, what);
    FailureIsTold(timeout, w.client.user, w.client.slot.callback, what);
    SomeRank(timeout, w.client.slot.callback);
  }

  lemma FreeEvent(timeout: nat, w: Link, j: nat, e: Event) returns (j': nat)
    requires FreeInv(w, j) && Happens(w, e)
    ensures GoesWell(timeout, w, j, After(timeout, w, e), j')
  {
    hide FreeInv, GoesWell, Next, React, Enabled, Connected, OnTimer, Fits;
    j' := j;
    match e
    case Connect(what) => FreeConnect(timeout, w, j, what);
    case Tick(index) => FreeTick(timeout, w, j, index);
    case Answer(reply) =>
      FreeAnswer(timeout, w, j, reply);
      j' := 0;
    case Bytes(count) => j' := FreeBytes(timeout, w, j, count);
    case Break(what) => FreeBreak(timeout, w, j, what);
  }

  // ----- All runs -----

  lemma FreeStart()
    ensures FreeInv(Enabling(), 0)
  {
    hide InvAt;
    StartInv<Poll, LineCb>(Poll(true, [], [], []));
  }

  lemma {:induction false} FreeRunKeeps(timeout: nat, w: Link, j: nat, events: seq<Event>) returns (j': nat)
    requires FreeInv(w, j) && FreeRun(timeout, w, events)
    ensures var w' := FreeFinal(timeout, w, events); FreeInv(w', j') && (Owed(w, j) ==> Owed(w', j'))
    decreases |events|
  {
    hide FreeInv, Owed, Nearer, Happens, After;
    if events == [] {
      j' := j;
    } else {
      var j1 := FreeEvent(timeout, w, j, events[0]);
      j' := FreeRunKeeps(timeout, After(timeout, w, events[0]), j1, events[1..]);
    }
  }

  /** A failure while the timer is pending tells the user, and another call is still to come. */
  lemma LoudFailureOwes(timeout: nat, w: Link, j: nat, what: Events)
    requires Inv(timeout, w, j) && w.client.user.timers != [] && Happens(w, Break(what))
    ensures var w' := After(timeout, w, Break(what)); FreeInv(w', j) && Owed(w', j)
  {
    hide Inv, FreeInv, React, Next, EventStatus, GoesWell, Owed;
    QuietIsFree(timeout, w, j);
    WaitingSlot(timeout, w, j);
    SlotIsUsed(timeout, w, j);
    BreakCloses(timeout, w, j, what);
    FreeBreak(timeout, w, j, what);
    var w' := After(timeout, w, Break(what));
    assert FreeInv(w', j) by { WellIsFree(timeout, w, j, w', j); }
    CalledAndPending(w', j);
  }

  lemma WellIsFree(timeout: nat, w: Link, j: nat, w': Link, j': nat)
    requires GoesWell(timeout, w, j, w', j')
    ensures FreeInv(w', j')
  {
    hide FreeInv;
  }

  lemma CalledAndPending(w: Link, j: nat)
    requires !w.client.user.connecting && w.client.user.calls != [] && w.client.user.timers != []
    ensures Owed(w, j)
  {}

  lemma QuietIsFree(timeout: nat, w: Link, j: nat)
    requires Inv(timeout, w, j)
    ensures FreeInv(w, j)
  {
    hide InvAt, Clear, Scripted, Ended, Fits, Verdict, CommandAt;
    if w.client.slot.Receiving? {
      ReceivingSlot(timeout, w.client, w.replies, w.failures, j);
      assert Fits(CallbackAt(timeout, |w.replies| - 1), w.replies[|w.replies| - 1]);
    }
    if !w.client.slot.Closed? {
      SlotIsUsed(timeout, w, j);
    }
  }

  /** From a state of a quiet run on: a run that is not quiet owes the user a second call. */
  lemma {:induction false} LoudRunOwes(timeout: nat, w: Link, j: nat, events: seq<Event>) returns (j': nat)
    requires Inv(timeout, w, j) && FreeRun(timeout, w, events) && !QuietRun(timeout, w, events)
    ensures var w' := FreeFinal(timeout, w, events); FreeInv(w', j') && Owed(w', j')
    decreases |events|
  {
    hide Inv, FreeInv, Owed, Happens, After;
    var w1 := After(timeout, w, events[0]);
    if Quiet(w, events[0]) {
      var j1 := EventKeeps(timeout, w, j, events[0]);
      j' := LoudRunOwes(timeout, w1, j1, events[1..]);
    } else {
      LoudFailureOwes(timeout, w, j, events[0].what);
      j' := FreeRunKeeps(timeout, w1, j, events[1..]);
    }
  }

  /** A quiet run is a run. */
  lemma {:induction false} QuietIsFreeRun(timeout: nat, w: Link, events: seq<Event>)
    requires QuietRun(timeout, w, events)
    ensures FreeRun(timeout, w, events) && FreeFinal(timeout, w, events) == Final(timeout, w, events)
    decreases |events|
  {
    hide Happens, After, Quiet;
    if events != [] {
      QuietIsFreeRun(timeout, After(timeout, w, events[0]), events[1..]);
    }
  }

  /** What is owed can still come: by the timer, by the reply, or by the rest of the reply. */
  lemma OwedGoesOn(w: Link, j: nat) returns (e: Event)
    requires FreeInv(w, j) && Owed(w, j) && |w.client.user.calls| == 1
    ensures Happens(w, e) && !e.Break?
  {
    if w.client.user.timers != [] {
      hide InvAt;
      e := Tick(0);
    } else if w.client.slot.Sent? {
      hide InvAt, Conforming;
      e := Answer(["250" + " " + "OK"]);
      FinalFits(w.client.slot.callback);
    } else {
      hide Conforming, Heard, Encode, Fits;
      e := Bytes(|w.wire|);
      EncodeHasLf(Current(w.replies)[j..]);
      assert w.wire == "" ==> w.input + w.wire == w.input;
    }
  }

  /** A run that only a connection failure could continue has called the user exactly once if and
      only if no failure arrived while the timer was pending; otherwise it has called the user at
      least twice. */
  lemma CalledOnceExactlyWhenQuiet(timeout: nat, events: seq<Event>)
    requires FreeRun(timeout, Enabling(), events)
    requires var w := FreeFinal(timeout, Enabling(), events); forall e :: Happens(w, e) ==> e.Break?
    ensures var calls := FreeFinal(timeout, Enabling(), events).client.user.calls;
            |calls| >= 1 && (|calls| == 1 <==> QuietRun(timeout, Enabling(), events))
  {
    hide FreeRun, FreeFinal, QuietRun, Final, Inv, FreeInv, Happens;
    if QuietRun(timeout, Enabling(), events) {
      QuietIsFreeRun(timeout, Enabling(), events);
      StuckOnlyAfterCall(timeout, events);
    } else {
      EnablingInv(timeout);
      var j := LoudRunOwes(timeout, Enabling(), 0, events);
      var w := FreeFinal(timeout, Enabling(), events);
      if |w.client.user.calls| == 1 {
        var e := OwedGoesOn(w, j);
      }
    }
  }

  // ----- Every run ends -----

  predicate FreeSteps(timeout: nat, w: Link, e: Event, w': Link) {
    Happens(w, e) && w' == After(timeout, w, e)
  }

  /** No run goes on forever, however often the connection fails. */
  lemma FreeRunsEnd(timeout: nat, worlds: nat -> Link, events: nat -> Event)
    requires worlds(0) == Enabling()
    ensures exists k: nat :: !FreeSteps(timeout, worlds(k), events(k), worlds(k + 1))
  {
    hide FreeInv, FreeSteps;
    FreeStart();
    var k := LastFreeStep(timeout, worlds, events, 0, 0);
  }

  lemma {:induction false} LastFreeStep(timeout: nat, worlds: nat -> Link, events: nat -> Event, i: nat, j: nat)
    returns (k: nat)
    requires FreeInv(worlds(i), j)
    ensures !FreeSteps(timeout, worlds(k), events(k), worlds(k + 1))
    decreases Rank(timeout, worlds(i).client), SlotRank(worlds(i).client), |worlds(i).wire|
  {
    hide FreeInv, Owed, Happens, After, SlotRank, Rank;
    if FreeSteps(timeout, worlds(i), events(i), worlds(i + 1)) {
      var j' := FreeEvent(timeout, worlds(i), j, events(i));
      k := LastFreeStep(timeout, worlds, events, i + 1, j');
    } else {
      k := i;
    }
  }

  /** Every run can be continued to one that only a connection failure could continue. */
  lemma {:induction false} CanFinish(timeout: nat, w: Link, j: nat) returns (events: seq<Event>)
    requires FreeInv(w, j)
    ensures FreeRun(timeout, w, events)
    ensures forall e :: Happens(FreeFinal(timeout, w, events), e) ==> e.Break?
    decreases Rank(timeout, w.client), SlotRank(w.client), |w.wire|
  {
    hide FreeInv, Owed, Happens, After, SlotRank, Rank;
    if e :| Happens(w, e) && !e.Break? {
      var j' := FreeEvent(timeout, w, j, e);
      var more := CanFinish(timeout, After(timeout, w, e), j');
      events := [e] + more;
      assert events[1..] == more;
    } else {
      events := [];
    }
  }

  lemma {:induction false} FreeConcat(timeout: nat, w: Link, a: seq<Event>, b: seq<Event>)
    requires FreeRun(timeout, w, a) && FreeRun(timeout, FreeFinal(timeout, w, a), b)
    ensures FreeRun(timeout, w, a + b) && FreeFinal(timeout, w, a + b) == FreeFinal(timeout, FreeFinal(timeout, w, a), b)
    ensures QuietRun(timeout, w, a + b) ==> QuietRun(timeout, FreeFinal(timeout, w, a), b)
    decreases |a|
  {
    hide Happens, After, Quiet;
    if a == [] {
      assert a + b == b;
    } else {
      assert (a + b)[0] == a[0] && (a + b)[1..] == a[1..] + b;
      FreeConcat(timeout, After(timeout, w, a[0]), a[1..], b);
    }
  }

  /** From a state in which the timer is pending, a failure makes the run one that calls the user
      at least twice, however it is finished. */
  lemma LoudRunFinishes(timeout: nat, before: seq<Event>, what: Events) returns (events: seq<Event>)
    requires QuietRun(timeout, Enabling(), before) && Final(timeout, Enabling(), before).client.user.timers != []
    ensures before + [Break(what)] <= events
    ensures FreeRun(timeout, Enabling(), events) && !QuietRun(timeout, Enabling(), events)
    ensures var w := FreeFinal(timeout, Enabling(), events);
            |w.client.user.calls| >= 2 && forall e :: Happens(w, e) ==> e.Break?
  {
    hide FreeRun, FreeFinal, QuietRun, Final, Inv, FreeInv, Happens, After;
    var w := Final(timeout, Enabling(), before);
    var j := Reached(timeout, before);
    FirstBreaks(timeout, w, j, what);
    LoudFailureOwes(timeout, w, j, what);
    var more := CanFinish(timeout, After(timeout, w, Break(what)), j);
    QuietIsFreeRun(timeout, Enabling(), before);
    LoudStep(timeout, w, what, more);
    FreeConcat(timeout, Enabling(), before, [Break(what)] + more);
    events := before + ([Break(what)] + more);
    Associate(before, [Break(what)], more);
    CalledOnceExactlyWhenQuiet(timeout, events);
  }

  lemma LoudStep(timeout: nat, w: Link, what: Events, more: seq<Event>)
    requires Happens(w, Break(what)) && FreeRun(timeout, After(timeout, w, Break(what)), more)
    requires w.client.user.timers != []
    ensures var events := [Break(what)] + more;
            && FreeRun(timeout, w, events) && !QuietRun(timeout, w, events)
            && FreeFinal(timeout, w, events) == FreeFinal(timeout, After(timeout, w, Break(what)), more)
  {
    hide Happens, After;
    assert ([Break(what)] + more)[1..] == more;
  }
}
