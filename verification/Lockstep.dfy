/** Commands and replies over one control connection, with a server that answers each command
    once, after it was sent: whose callback gets which line. */
module Lockstep {
  import opened Options
  import opened Lines
  import opened OnionCtrl
  import opened OnionRecv

  // ----- The client -----

  /** The callbacks in the slots of the bufferevent: none, those of send or those of recv. The
      closures hold the line callback of the command they serve. */
  datatype Slot<K> = Closed | Sent(command: nat, callback: K) | Receiving(command: nat, callback: K)

  /** A command that was issued, and what the input buffer held at that time. */
  datatype Issue<K> = Issue(text: string, callback: K, pending: string)

  /** A line that was dispatched to the callback of a command. */
  datatype Delivery = Delivery(command: nat, reply: Reply)

  /** What a callback does to the connection before it returns: nothing, close, or sendrecv. */
  datatype Act<S, K> = Stay(user: S) | Close(user: S) | Send(user: S, text: string, callback: K)

  type User<!S, !K> = (S, K, Reply) -> Act<S, K>

  /** `answered` counts the final lines (those of kind ' ') that were dispatched. */
  datatype Client<S, K> =
    Client(slot: Slot<K>, issued: seq<Issue<K>>, delivered: seq<Delivery>, answered: nat, user: S)

  function Perform<S, K>(c: Client<S, K>, buffered: string, act: Act<S, K>): Client<S, K> {
    match act
    case Stay(user) => c.(user := user)
    case Close(user) => c.(slot := Closed, user := user)
    case Send(user, text, callback) =>
      c.(slot := Sent(|c.issued|, callback), issued := c.issued + [Issue(text, callback, buffered)], user := user)
  }

  function Dispatch<S, K>(c: Client<S, K>, k: nat, r: Reply): Client<S, K> {
    c.(delivered := c.delivered + [Delivery(k, r)], answered := c.answered + if r.kind == ' ' then 1 else 0)
  }

  /** The callback that recv installed for command `k`. */
  function OnLine<S, K>(user: User<S, K>, k: nat, callback: K): Handler<Client<S, K>> {
    (c: Client<S, K>, buffered: string, r: Reply) => Perform(Dispatch(c, k, r), buffered, user(c.user, callback, r))
  }

  // ----- The connection and the server -----

  /** `wire` holds the bytes that the server sent and that have not arrived yet; `replies` holds
      the texts of every reply it sent. */
  datatype World<S, K> =
    World(input: string, wire: string, replies: seq<seq<string>>, failures: seq<Events>, client: Client<S, K>)

  datatype Step<S, K> =
    | Outside(act: Act<S, K>)      // a timer or a connection event acts on the client
    | Flushed(reply: seq<string>)  // the command was written, and the server answers it
    | Deliver(count: nat)          // some of the bytes on the wire arrive
    | Fail(what: Events)           // an event other than a read or a write

  predicate IsFinal(text: string) {
    Classify(text).kind == ' '
  }

  /** A reply: well-formed lines of which the last, and no other, is final. */
  predicate Conforming(reply: seq<string>) {
    && reply != []
    && Sendable(reply)
    && forall i | 0 <= i < |reply| :: IsFinal(reply[i]) <==> i == |reply| - 1
  }

  predicate Enabled<S, K>(w: World<S, K>, step: Step<S, K>) {
    match step
    case Outside(act) => act.Send? ==> w.client.answered == |w.client.issued|
    case Flushed(reply) => w.client.slot.Sent? && Conforming(reply)
    case Deliver(count) => count <= |w.wire|
    case Fail(what) => !w.client.slot.Closed?
  }

  function Next<S, K>(user: User<S, K>, w: World<S, K>, step: Step<S, K>): World<S, K>
    requires Enabled(w, step)
  {
    match step
    case Outside(act) => w.(client := Perform(w.client, w.input, act))
    case Flushed(reply) =>
      var slot := Receiving(w.client.slot.command, w.client.slot.callback);
      w.(wire := w.wire + Encode(reply), replies := w.replies + [reply], client := w.client.(slot := slot))
    case Deliver(count) => Arrive(user, w.(wire := w.wire[count..]), w.wire[..count])
    case Fail(what) =>
      var act := user(w.client.user, w.client.slot.callback, Reply(EventStatus(what), '\0', ""));
      w.(failures := w.failures + [what], client := Perform(w.client, w.input, act))
  }

  /** Bytes arrive. Without a read callback they stay in the input buffer. */
  function Arrive<S, K>(user: User<S, K>, w: World<S, K>, data: string): World<S, K> {
    match w.client.slot
    case Receiving(k, callback) =>
      var l := RecvLoop(w.input + data, w.client, OnLine(user, k, callback));
      w.(input := l.rest, client := l.client)
    case _ => w.(input := w.input + data)
  }

  function Start<S, K>(user: S): World<S, K> {
    World("", "", [], [], Client(Closed, [], [], 0, user))
  }

  /** `Run` is the world after the first steps; each must be enabled where it is taken. */
  predicate IsRun<S, K>(user: User<S, K>, w: World<S, K>, steps: seq<Step<S, K>>)
    decreases |steps|
  {
    steps == [] || (Enabled(w, steps[0]) && IsRun(user, Next(user, w, steps[0]), steps[1..]))
  }

  function Run<S, K>(user: User<S, K>, w: World<S, K>, steps: seq<Step<S, K>>): World<S, K>
    requires IsRun(user, w, steps)
    decreases |steps|
  {
    if steps == [] then w else Run(user, Next(user, w, steps[0]), steps[1..])
  }

  // ----- What holds in every run -----

  /** A client that sends the next command from a callback only on a final line. */
  ghost predicate Patient<S(!new), K(!new)>(user: User<S, K>) {
    forall s, callback, r :: user(s, callback, r).Send? ==> r.kind == ' '
  }

  /** The lines of a reply, dispatched to the callback of command `k`. */
  function Tag(k: nat, texts: seq<string>): (d: seq<Delivery>)
    ensures |d| == |texts|
  {
    seq(|texts|, i requires 0 <= i < |texts| => Delivery(k, Classify(texts[i])))
  }

  /** Every line of every reply, dispatched to the callback of the command it answers. */
  function Tags(replies: seq<seq<string>>): seq<Delivery> {
    if replies == [] then []
    else Tags(replies[..|replies| - 1]) + Tag(|replies| - 1, replies[|replies| - 1])
  }

  /** The reply that is arriving. */
  function Current(replies: seq<seq<string>>): seq<string> {
    if replies == [] then [] else replies[|replies| - 1]
  }

  /** The dispatches when `j` lines of the current reply have been. */
  function Heard(replies: seq<seq<string>>, j: nat): seq<Delivery>
    requires j <= |Current(replies)|
  {
    if replies == [] then []
    else Tags(replies[..|replies| - 1]) + Tag(|replies| - 1, replies[|replies| - 1][..j])
  }

  predicate SlotOk<S, K>(w: World<S, K>) {
    var sent, replied := |w.client.issued|, |w.replies|;
    match w.client.slot
    case Closed => replied <= sent <= replied + 1
    case Sent(k, _) => sent == replied + 1 && k == replied
    case Receiving(k, _) => sent == replied && k + 1 == replied && '\n' !in w.input
  }

  /** `j` lines of the current reply have been dispatched; the others are buffered or on the
      wire. A command waits for its reply only when the previous reply is complete. */
  ghost predicate InvAt<S, K>(w: World<S, K>, j: nat) {
    var current := Current(w.replies);
    && j <= |current|
    && SlotOk(w)
    && (forall i | 0 <= i < |w.client.issued| :: w.client.issued[i].pending == "")
    && (forall i | 0 <= i < |w.replies| :: Conforming(w.replies[i]))
    && w.client.delivered == Heard(w.replies, j)
    && w.client.answered == |w.replies| - (if j == |current| then 0 else 1)
    && w.input + w.wire == Encode(current[j..])
    && (w.client.slot.Sent? ==> j == |current|)
  }

  /** A prefix of the wire form of some lines: the complete lines in it are the first of them,
      and the bytes after those are the beginning of the wire form of the others. */
  lemma {:induction false} PrefixOfEncode(a: string, b: string, texts: seq<string>) returns (m: nat)
    requires Sendable(texts) && a + b == Encode(texts)
    ensures m <= |texts| && Split(a) == TextLines(texts[..m]) && Tail(a) + b == Encode(texts[m..])
    decreases |texts|
  {
    hide Stops, FirstLine, Split, Tail;
    if texts != [] && |a| >= |texts[0]| + 2 {
      var more := a[|texts[0]| + 2..];
      CutFirst(a, b, texts[0], Encode(texts[1..]));
      m := PrefixOfEncode(more, b, texts[1..]);
      SplitCons(Line(texts[0], CRLF), more);
      assert TextLines(texts[..m + 1]) == [Line(texts[0], CRLF)] + TextLines(texts[1..][..m]);
      assert texts[m + 1..] == texts[1..][m..];
      m := m + 1;
    } else {
      m := 0;
      assert '\n' !in a by {
        if texts != [] { NoLfBefore(a, b, texts[0], Encode(texts[1..])); }
      }
      NoLine(a);
      assert texts[0..] == texts;
    }
  }

  lemma CutFirst(a: string, b: string, text: string, more: string)
    requires a + b == text + CRLF + more && |a| >= |text| + 2
    ensures a == text + CRLF + a[|text| + 2..] && a[|text| + 2..] + b == more
  {
    var n := |text| + 2;
    assert a[..n] == (a + b)[..n] == text + CRLF;
    assert a[n..] + b == (a + b)[n..] == more;
  }

  lemma NoLfBefore(a: string, b: string, text: string, more: string)
    requires a + b == text + CRLF + more && |a| < |text| + 2 && '\n' !in text
    ensures '\n' !in a
  {
    assert a == (text + CRLF + more)[..|a|];
    assert forall i | 0 <= i < |a| :: a[i] == (text + CRLF)[i];
  }

  lemma NoLine(a: string)
    requires '\n' !in a
    ensures Split(a) == [] && Tail(a) == a
  {
    FirstLineSound(a);
  }

  /** When bytes arrive, the callback runs on the next lines of the current reply, and an
      incomplete line stays in the buffer. */
  lemma ArriveLines<S, K>(user: User<S, K>, w: World<S, K>, j: nat, count: nat) returns (m: nat)
    requires InvAt(w, j) && w.client.slot.Receiving? && count <= |w.wire|
    ensures var w', current := Next(user, w, Deliver(count)), Current(w.replies);
            var handle := OnLine(user, w.client.slot.command, w.client.slot.callback);
            && j + m <= |current|
            && w'.client == FoldLines(w.client, TextLines(current[j..j + m]), w'.input, handle)
            && w'.input + w'.wire == Encode(current[j + m..]) && '\n' !in w'.input
            && (j + m == |current| ==> w'.input == "")
  {
    hide Conforming, RecvLoop, Split, Tail, SlotOk, Heard, FoldLines, Stops, OnLine, IsLine, TextLines, Encode;
    var current := Current(w.replies);
    var handle := OnLine(user, w.client.slot.command, w.client.slot.callback);
    var a, b := w.input + w.wire[..count], w.wire[count..];
    assert a + b == w.input + w.wire;
    SendableRest(w.replies, j);
    m := PrefixOfEncode(a, b, current[j..]);
    assert current[j..][..m] == current[j..j + m];
    assert current[j..][m..] == current[j + m..];
    SendablePart(current[j..], m);
    LoopDrains(a, w.client, handle, current[j..j + m]);
    EncodeOfNothing(current[j + m..]);
  }

  lemma EncodeOfNothing(texts: seq<string>)
    ensures texts == [] ==> Encode(texts) == ""
  {}

  lemma SendableRest(replies: seq<seq<string>>, j: nat)
    requires forall i | 0 <= i < |replies| :: Conforming(replies[i])
    requires j <= |Current(replies)|
    ensures Sendable(Current(replies)[j..])
  {
    hide Stops, Classify;
  }

  lemma SendablePart(texts: seq<string>, m: nat)
    requires Sendable(texts) && m <= |texts|
    ensures Sendable(texts[..m])
  {
    hide Stops;
  }

  lemma LoopDrains<S>(input: string, client: S, handle: Handler<S>, texts: seq<string>)
    requires Sendable(texts) && Split(input) == TextLines(texts)
    ensures var l := RecvLoop(input, client, handle);
            l.rest == Tail(input) && l.client == FoldLines(client, TextLines(texts), l.rest, handle) && '\n' !in l.rest
  {
    hide RecvLoop, Split, Tail, FoldLines, Stops, IsLine, TextLines;
    var l := RecvLoop(input, client, handle);
    LoopConsumes(input, client, handle);
    HealthyTexts(texts);
    LeavesLineOnlyIfStopped(Split(input));
    NothingLeft([], Split(input), Split(l.rest), Split(input)) by {
      assert [] + UpToStop(Split(input)) + Split(l.rest) == UpToStop(Split(input)) + Split(l.rest);
    }
    assert l.consumed == Split(input) by { assert l.consumed + [] == l.consumed; }
    SplitIsLines(input);
    SplitGrows(l.consumed, l.rest);
    TailOfRest(l.rest);
  }

  lemma HealthyTexts(texts: seq<string>)
    requires Sendable(texts)
    ensures Healthy(TextLines(texts))
  {
    hide Stops;
  }

  // ----- One reply -----

  /** What the callback of command `k` does with some lines of the reply, the last of them final
      or not. A new command is issued only from the final line, with nothing buffered. */
  ghost predicate Served<S, K>(c: Client<S, K>, c': Client<S, K>, k: nat, texts: seq<string>, final: bool) {
    && c'.delivered == c.delivered + Tag(k, texts)
    && c'.answered == c.answered + (if final then 1 else 0)
    && ( || (c'.issued == c.issued && (c'.slot == c.slot || c'.slot.Closed?))
         || (final && c'.slot.Sent? && c'.slot.command == |c.issued| && |c'.issued| == |c.issued| + 1
             && c'.issued[..|c.issued|] == c.issued && c'.issued[|c.issued|].pending == ""))
  }

  /** Some lines of a reply, of which only the last may be final, and then nothing follows. */
  predicate Stretch(texts: seq<string>, rest: string) {
    && (forall i | 0 <= i < |texts| :: texts[i] != "")
    && (forall i | 0 <= i < |texts| - 1 :: !IsFinal(texts[i]))
    && (EndsFinal(texts) ==> rest == "")
  }

  predicate EndsFinal(texts: seq<string>) {
    texts != [] && IsFinal(texts[|texts| - 1])
  }

  lemma ServedOne<S(!new), K(!new)>(user: User<S, K>, c: Client<S, K>, k: nat, callback: K, text: string, buffered: string)
    requires Patient(user) && (IsFinal(text) ==> buffered == "")
    ensures Served(c, OnLine(user, k, callback)(c, buffered, Classify(text)), k, [text], IsFinal(text))
  {
    hide Classify;
    var act := user(c.user, callback, Classify(text));
    var c' := OnLine(user, k, callback)(c, buffered, Classify(text));
    assert c' == Perform(Dispatch(c, k, Classify(text)), buffered, act);
    assert Tag(k, [text]) == [Delivery(k, Classify(text))];
    assert c'.delivered == c.delivered + Tag(k, [text]);
    assert c'.answered == c.answered + if IsFinal(text) then 1 else 0;
    if act.Send? {
      var issue := Issue(act.text, act.callback, buffered);
      assert (c.issued + [issue])[..|c.issued|] == c.issued && (c.issued + [issue])[|c.issued|] == issue;
    }
  }

  lemma ServedMore<S, K>(c: Client<S, K>, c1: Client<S, K>, c2: Client<S, K>, k: nat, texts: seq<string>, final: bool)
    requires texts != [] && Served(c, c1, k, [texts[0]], false) && Served(c1, c2, k, texts[1..], final)
    ensures Served(c, c2, k, texts, final)
  {
    hide Classify;
    assert Tag(k, texts) == Tag(k, [texts[0]]) + Tag(k, texts[1..]);
    Associate(c.delivered, Tag(k, [texts[0]]), Tag(k, texts[1..]));
  }

  lemma {:induction false} ServedAll<S(!new), K(!new)>(user: User<S, K>, c: Client<S, K>, k: nat, callback: K,
                                           texts: seq<string>, rest: string)
    requires Patient(user) && Stretch(texts, rest)
    ensures Served(c, FoldLines(c, TextLines(texts), rest, OnLine(user, k, callback)), k, texts, EndsFinal(texts))
    decreases |texts|
  {
    hide Classify, Served, Patient, OnLine, IsFinal;
    var handle := OnLine(user, k, callback);
    if texts == [] {
      ServedNone(c, k);
    } else {
      var c1 := handle(c, Join(TextLines(texts[1..])) + rest, Classify(texts[0]));
      assert TextLines(texts)[1..] == TextLines(texts[1..]);
      if |texts| == 1 {
        assert Join(TextLines(texts[1..])) + rest == rest;
        ServedOne(user, c, k, callback, texts[0], rest);
        assert texts == [texts[0]];
        assert FoldLines(c1, TextLines(texts[1..]), rest, handle) == c1;
      } else {
        ServedOne(user, c, k, callback, texts[0], Join(TextLines(texts[1..])) + rest);
        ServedAll(user, c1, k, callback, texts[1..], rest);
        ServedMore(c, c1, FoldLines(c1, TextLines(texts[1..]), rest, handle), k, texts, EndsFinal(texts));
      }
    }
  }

  lemma ServedNone<S, K>(c: Client<S, K>, k: nat)
    ensures Served(c, c, k, [], false)
  {
    assert c.delivered + Tag(k, []) == c.delivered;
  }

  lemma StretchOf(replies: seq<seq<string>>, j: nat, m: nat, rest: string)
    requires forall i | 0 <= i < |replies| :: Conforming(replies[i])
    requires j + m <= |Current(replies)| && (j + m == |Current(replies)| ==> rest == "")
    ensures var texts := Current(replies)[j..j + m];
            Stretch(texts, rest) && (EndsFinal(texts) <==> m > 0 && j + m == |Current(replies)|)
  {
    hide Classify, IsFinal;
    var current := Current(replies);
    if replies != [] {
      assert Conforming(current);
      assert forall i | 0 <= i < |current| :: current[i] != "";
    }
  }

  lemma HeardMore(replies: seq<seq<string>>, j: nat, m: nat)
    requires replies != [] && j + m <= |Current(replies)|
    ensures Heard(replies, j + m) == Heard(replies, j) + Tag(|replies| - 1, Current(replies)[j..j + m])
  {
    hide Classify;
    var current, k := Current(replies), |replies| - 1;
    assert Tag(k, current[..j + m]) == Tag(k, current[..j]) + Tag(k, current[j..j + m]);
    Associate(Tags(replies[..k]), Tag(k, current[..j]), Tag(k, current[j..j + m]));
  }

  // ----- One step -----

  lemma DeliverKeeps<S(!new), K(!new)>(user: User<S, K>, w: World<S, K>, j: nat, count: nat) returns (m: nat)
    requires Patient(user) && InvAt(w, j) && w.client.slot.Receiving? && count <= |w.wire|
    ensures j + m <= |Current(w.replies)| && InvAt(Next(user, w, Deliver(count)), j + m)
    ensures '\n' !in Next(user, w, Deliver(count)).input
    ensures var w' := Next(user, w, Deliver(count));
            w'.client == FoldLines(w.client, TextLines(Current(w.replies)[j..j + m]), w'.input,
                                   OnLine(user, w.client.slot.command, w.client.slot.callback))
    ensures var texts := Current(w.replies)[j..j + m];
            Served(w.client, Next(user, w, Deliver(count)).client, w.client.slot.command, texts, EndsFinal(texts))
  {
    hide Conforming, Heard, FoldLines, Stretch, EndsFinal, Patient, OnLine, RecvLoop, Encode, TextLines, Tag;
    m := ArriveLines(user, w, j, count);
    var w' := Next(user, w, Deliver(count));
    var texts, k := Current(w.replies)[j..j + m], w.client.slot.command;
    StretchOf(w.replies, j, m, w'.input);
    ServedAll(user, w.client, k, w.client.slot.callback, texts, w'.input);
    HeardMore(w.replies, j, m);
    if j == |Current(w.replies)| {
      assert m == 0;
    }
  }

  lemma FlushedKeeps<S, K>(user: User<S, K>, w: World<S, K>, j: nat, reply: seq<string>)
    requires InvAt(w, j) && Enabled(w, Flushed(reply))
    ensures InvAt(Next(user, w, Flushed(reply)), 0)
  {
    assert reply != [];
    hide Conforming, Tag, Encode;
    var w' := Next(user, w, Flushed(reply));
    var current := Current(w.replies);
    assert current[j..] == [];
    assert Encode([]) == "" by { EncodeOfNothing([]); }
    assert w'.replies[..|w'.replies| - 1] == w.replies;
    assert reply[0..] == reply && reply[..0] == [];
    assert w.input == "" && w.wire == "";
    assert w.input + (w.wire + Encode(reply)) == Encode(reply);
    if w.replies != [] {
      assert current[..j] == current;
    }
  }

  lemma DeliverFrame<S, K>(user: User<S, K>, w: World<S, K>, count: nat)
    requires count <= |w.wire|
    ensures var w' := Next(user, w, Deliver(count));
            && w'.replies == w.replies && w'.failures == w.failures && w'.wire == w.wire[count..]
            && (!w.client.slot.Receiving? ==> w'.client == w.client)
  {
    hide RecvLoop;
  }

  /** Without a read callback the bytes that arrive only move to the input buffer. */
  lemma BufferedKeeps<S, K>(user: User<S, K>, w: World<S, K>, j: nat, count: nat)
    requires InvAt(w, j) && !w.client.slot.Receiving? && count <= |w.wire|
    ensures InvAt(Next(user, w, Deliver(count)), j)
  {
    hide Conforming, Heard, Encode;
    var w' := Next(user, w, Deliver(count));
    assert w'.input + w'.wire == w.input + w.wire;
  }

  /** An act that sends only if every command has been answered. */
  lemma PerformKeeps<S, K>(w: World<S, K>, w': World<S, K>, j: nat, act: Act<S, K>)
    requires InvAt(w, j) && (act.Send? ==> w.client.answered == |w.client.issued|)
    requires w' == w.(client := Perform(w.client, w.input, act), failures := w'.failures)
    ensures InvAt(w', j)
  {
    hide Conforming, Heard;
    var current := Current(w.replies);
    if act.Send? {
      assert j == |current| && w.input == "" by { EncodeOfNothing(current[j..]); }
    }
  }

  lemma FailKeeps<S(!new), K(!new)>(user: User<S, K>, w: World<S, K>, j: nat, what: Events)
    requires Patient(user) && InvAt(w, j) && Enabled(w, Fail(what))
    ensures InvAt(Next(user, w, Fail(what)), j)
  {
    hide InvAt, EventStatus;
    var act := user(w.client.user, w.client.slot.callback, Reply(EventStatus(what), '\0', ""));
    assert !act.Send?;
    PerformKeeps(w, Next(user, w, Fail(what)), j, act);
  }

  lemma StepKeeps<S(!new), K(!new)>(user: User<S, K>, w: World<S, K>, j: nat, step: Step<S, K>) returns (j': nat)
    requires Patient(user) && InvAt(w, j) && Enabled(w, step)
    ensures InvAt(Next(user, w, step), j')
  {
    match step
    case Outside(act) =>
      j' := j;
      hide InvAt, Conforming;
      PerformKeeps(w, Next(user, w, step), j, act);
    case Flushed(reply) =>
      j' := 0;
      hide InvAt, Conforming;
      FlushedKeeps(user, w, j, reply);
    case Deliver(count) =>
      hide InvAt, Conforming, RecvLoop;
      if w.client.slot.Receiving? {
        var m := DeliverKeeps(user, w, j, count);
        j' := j + m;
      } else {
        j' := j;
        BufferedKeeps(user, w, j, count);
      }
    case Fail(what) =>
      j' := j;
      hide InvAt, Conforming, EventStatus;
      FailKeeps(user, w, j, what);
  }

  // ----- All runs -----

  lemma {:induction false} RunKeeps<S(!new), K(!new)>(user: User<S, K>, w: World<S, K>, j: nat, steps: seq<Step<S, K>>)
    returns (j': nat)
    requires Patient(user) && InvAt(w, j) && IsRun(user, w, steps)
    ensures InvAt(Run(user, w, steps), j')
    decreases |steps|
  {
    hide InvAt, Enabled, Next, Patient;
    if steps == [] {
      j' := j;
    } else {
      var j1 := StepKeeps(user, w, j, steps[0]);
      j' := RunKeeps(user, Next(user, w, steps[0]), j1, steps[1..]);
    }
  }

  lemma StartInv<S, K>(user: S)
    ensures InvAt(Start<S, K>(user), 0)
  {}

  /** Against a lockstep server, every command of a patient client is issued with an empty input
      buffer, even when a line callback issues it from inside the receive loop. */
  lemma CommandsFindEmptyBuffer<S(!new), K(!new)>(user: User<S, K>, s: S, steps: seq<Step<S, K>>)
    requires Patient(user) && IsRun(user, Start(s), steps)
    ensures var w := Run(user, Start(s), steps);
            forall i | 0 <= i < |w.client.issued| :: w.client.issued[i].pending == ""
  {
    hide Conforming, Heard, IsRun, Run, SlotOk, Encode, Patient;
    StartInv<S, K>(s);
    var j := RunKeeps(user, Start(s), 0, steps);
  }

  /** And every line goes to the callback of the command that it answers: what was dispatched is
      a prefix of the lines of all replies, in order, each tagged with its own command; the rest
      of the current reply is in the buffer or on the wire. */
  lemma LinesReachTheirCommand<S(!new), K(!new)>(user: User<S, K>, s: S, steps: seq<Step<S, K>>)
    requires Patient(user) && IsRun(user, Start(s), steps)
    ensures var w := Run(user, Start(s), steps);
            exists unread ::
              && w.client.delivered + Tag(if w.replies == [] then 0 else |w.replies| - 1, unread) == Tags(w.replies)
              && w.input + w.wire == Encode(unread)
  {
    hide Conforming, IsRun, Run, SlotOk, Encode, Patient, Tag, Tags;
    StartInv<S, K>(s);
    var j := RunKeeps(user, Start(s), 0, steps);
    var w := Run(user, Start(s), steps);
    HeardAndUnread(w.replies, j);
  }

  lemma HeardAndUnread(replies: seq<seq<string>>, j: nat)
    requires j <= |Current(replies)|
    ensures Heard(replies, j) + Tag(if replies == [] then 0 else |replies| - 1, Current(replies)[j..]) == Tags(replies)
  {
    hide Classify;
    if replies != [] {
      var k, current := |replies| - 1, Current(replies);
      HeardMore(replies, j, |current| - j);
      assert current[j..j + (|current| - j)] == current[j..] && current[..|current|] == current;
    }
  }

  // ----- Why patience is needed -----

  lemma LineGrows<S, K>(c: Client<S, K>, buffered: string, r: Reply, user: User<S, K>, k: nat, callback: K)
    ensures var c' := OnLine(user, k, callback)(c, buffered, r);
            && c.issued <= c'.issued
            && (user(c.user, callback, r).Send? ==>
                  |c'.issued| == |c.issued| + 1 && c'.issued[|c.issued|].pending == buffered)
  {
    assert OnLine(user, k, callback)(c, buffered, r) == Perform(Dispatch(c, k, r), buffered, user(c.user, callback, r));
  }

  lemma {:induction false} IssuedGrows<S, K>(c: Client<S, K>, lines: seq<Line>, rest: string, user: User<S, K>,
                                             k: nat, callback: K)
    ensures c.issued <= FoldLines(c, lines, rest, OnLine(user, k, callback)).issued
    decreases |lines|
  {
    hide Classify, Join;
    if lines != [] {
      var handle := OnLine(user, k, callback);
      var c' := if lines[0].text == "" then c else handle(c, Join(lines[1..]) + rest, Classify(lines[0].text));
      LineGrows(c, Join(lines[1..]) + rest, Classify(lines[0].text), user, k, callback);
      IssuedGrows(c', lines[1..], rest, user, k, callback);
    }
  }

  lemma FirstReply<S, K>(user: User<S, K>, s: S, text: string, callback: K, reply: seq<string>) returns (w1: World<S, K>)
    requires Conforming(reply)
    ensures var w := Next(user, Start(s), Outside(Send(s, text, callback)));
            Enabled(w, Flushed(reply)) && w1 == Next(user, w, Flushed(reply))
    ensures InvAt(w1, 0) && w1.replies == [reply] && w1.input == "" && w1.wire == Encode(reply)
    ensures var c := w1.client; c.user == s && c.slot == Receiving(0, callback) && |c.issued| == 1
  {
    var w := Next(user, Start(s), Outside(Send(s, text, callback)));
    w1 := Next(user, w, Flushed(reply));
    hide InvAt, Conforming, Encode;
    assert "" + Encode(reply) == Encode(reply);
    StartInv<S, K>(s);
    PerformKeeps(Start(s), w, 0, Send(s, text, callback));
    FlushedKeeps(user, w, 0, reply);
  }

  /** The state of the client after the callback ran on some lines, and the number of commands that
      it sent meanwhile. */
  function UserAfter<S, K>(user: User<S, K>, s: S, callback: K, texts: seq<string>): S
    decreases |texts|
  {
    if texts == [] then s else UserAfter(user, user(s, callback, Classify(texts[0])).user, callback, texts[1..])
  }

  function CountSends<S, K>(user: User<S, K>, s: S, callback: K, texts: seq<string>): nat
    decreases |texts|
  {
    if texts == [] then 0
    else
      var act := user(s, callback, Classify(texts[0]));
      (if act.Send? then 1 else 0) + CountSends(user, act.user, callback, texts[1..])
  }

  lemma {:induction false} FoldCounts<S, K>(user: User<S, K>, c: Client<S, K>, k: nat, callback: K,
                                            texts: seq<string>, rest: string)
    requires forall i | 0 <= i < |texts| :: texts[i] != ""
    ensures var c' := FoldLines(c, TextLines(texts), rest, OnLine(user, k, callback));
            && c'.user == UserAfter(user, c.user, callback, texts)
            && |c'.issued| == |c.issued| + CountSends(user, c.user, callback, texts)
    decreases |texts|
  {
    hide Classify, FoldLines, TextLines, Join, OnLine;
    var handle := OnLine(user, k, callback);
    if texts == [] {
      FoldNone(c, texts, rest, handle);
    } else {
      var buffered := Join(TextLines(texts[1..])) + rest;
      FoldLinesCons(c, texts, rest, handle);
      LineCounts(user, c, k, callback, buffered, Classify(texts[0]));
      FoldCounts(user, handle(c, buffered, Classify(texts[0])), k, callback, texts[1..], rest);
    }
  }

  lemma LineCounts<S, K>(user: User<S, K>, c: Client<S, K>, k: nat, callback: K, buffered: string, r: Reply)
    ensures var c', act := OnLine(user, k, callback)(c, buffered, r), user(c.user, callback, r);
            c'.user == act.user && |c'.issued| == |c.issued| + if act.Send? then 1 else 0
  {
    assert OnLine(user, k, callback)(c, buffered, r) == Perform(Dispatch(c, k, r), buffered, user(c.user, callback, r));
  }

  /** A client that sends on a line of a reply which is not the last finds exactly the lines behind
      it in the buffer when the reply arrived in one read event. The command is the one that
      follows the first and those sent on earlier lines. */
  lemma ImpatientClientFindsRest<S, K>(user: User<S, K>, s: S, text: string, callback: K, reply: seq<string>, i: nat)
    requires Conforming(reply) && i < |reply| - 1
    requires user(UserAfter(user, s, callback, reply[..i]), callback, Classify(reply[i])).Send?
    ensures var w := Next(user, Start(s), Outside(Send(s, text, callback)));
            var w1 := Next(user, w, Flushed(reply));
            var w2 := Next(user, w1, Deliver(|w1.wire|));
            var k := 1 + CountSends(user, s, callback, reply[..i]);
            k < |w2.client.issued| && w2.client.issued[k].pending == Encode(reply[i + 1..]) != ""
  {
    hide InvAt, Conforming, RecvLoop, FoldLines, TextLines, Encode, Perform, Sendable, Join, Classify, UserAfter, CountSends;
    var w1 := FirstReply(user, s, text, callback, reply);
    var m := ArriveLines(user, w1, 0, |w1.wire|);
    var w2 := Next(user, w1, Deliver(|w1.wire|));
    assert w1.replies == [reply];
    AllArrived(reply, m, w2.input) by { assert w2.wire == ""; assert w2.input + "" == w2.input; }
    assert reply[0..0 + m] == reply;
    LineSends(user, w1.client, reply, callback, i);
  }

  lemma EncodeHasLf(texts: seq<string>)
    requires texts != []
    ensures '\n' in Encode(texts)
  {
    assert Encode(texts)[|texts[0]| + 1] == '\n';
  }

  lemma AllArrived(reply: seq<string>, m: nat, rest: string)
    requires Conforming(reply) && m <= |reply| && rest == Encode(reply[m..]) && '\n' !in rest
    ensures m == |reply|
  {
    if m < |reply| {
      EncodeHasLf(reply[m..]);
    }
  }

  lemma LineSends<S, K>(user: User<S, K>, c: Client<S, K>, reply: seq<string>, callback: K, i: nat)
    requires Conforming(reply) && i < |reply| - 1 && |c.issued| == 1
    requires user(UserAfter(user, c.user, callback, reply[..i]), callback, Classify(reply[i])).Send?
    ensures var c' := FoldLines(c, TextLines(reply), "", OnLine(user, 0, callback));
            var k := 1 + CountSends(user, c.user, callback, reply[..i]);
            k < |c'.issued| && c'.issued[k].pending == Encode(reply[i + 1..]) != ""
  {
    assert forall l | 0 <= l < |reply| :: reply[l] != "";
    hide Classify, Join, Encode, FoldLines, TextLines, OnLine, Conforming, UserAfter, CountSends;
    var handle, before, after := OnLine(user, 0, callback), reply[..i], reply[i..];
    assert reply == before + after && after[0] == reply[i] && after[1..] == reply[i + 1..];
    FoldTextsConcat(c, before, after, "", handle);
    var c1 := FoldLines(c, TextLines(before), Join(TextLines(after)) + "", handle);
    FoldCounts(user, c, 0, callback, before, Join(TextLines(after)) + "");
    TailSends(user, c1, after, callback);
  }

  lemma TailSends<S, K>(user: User<S, K>, c: Client<S, K>, texts: seq<string>, callback: K)
    requires |texts| >= 2 && texts[0] != "" && user(c.user, callback, Classify(texts[0])).Send?
    ensures var c' := FoldLines(c, TextLines(texts), "", OnLine(user, 0, callback));
            |c.issued| < |c'.issued| && c'.issued[|c.issued|].pending == Encode(texts[1..]) != ""
  {
    hide Classify, Join, Encode, FoldLines, TextLines, OnLine;
    var handle, buffered := OnLine(user, 0, callback), Join(TextLines(texts[1..])) + "";
    FoldLinesCons(c, texts, "", handle);
    EncodeIsJoin(texts[1..]);
    EncodeHasLf(texts[1..]);
    assert buffered == Encode(texts[1..]);
    LineGrows(c, buffered, Classify(texts[0]), user, 0, callback);
    IssuedGrows(handle(c, buffered, Classify(texts[0])), TextLines(texts[1..]), "", user, 0, callback);
  }
}
