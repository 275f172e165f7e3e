/** The echo loop that is driven by the events of a socket rather than by a bufferevent. */
module Echo {
  import opened Evbuffers

  /** The buffer may be filled further while it holds fewer bytes than this. */
  const LIMIT: nat := 1048576

  /** The size of the array that a read fills. */
  const CHUNK: nat := 1024

  /** The EV_ flags that woke the loop up. */
  datatype What = What(timeout: bool, reading: bool, writing: bool)

  datatype ReadResult = ReadError | Received(data: seq<byte>)

  datatype WriteResult = WriteError | Wrote(count: nat)

  /** One call of handle_io: the flags, and what the kernel answers if it reads or writes. */
  datatype Call = Call(what: What, read: ReadResult, write: WriteResult)

  /** The events that were asked for, besides the timeout; none of them is the final state. */
  datatype Pending = Pending(reading: bool, writing: bool)

  const FINAL := Pending(false, false)

  datatype State = State(buffered: seq<byte>, haveSeenEof: bool, pending: Pending)

  /** The descriptor as the kernel sees it. */
  predicate Answers(s: State, call: Call) {
    && (call.what.reading && call.read.Received? ==> |call.read.data| <= CHUNK)
    && (call.what.writing && call.write.Wrote? ==> call.write.count <= |AfterRead(s, call).buffered|)
  }

  function AfterRead(s: State, call: Call): State {
    if call.what.reading && call.read.Received? then
      s.(buffered := s.buffered + call.read.data, haveSeenEof := call.read.data == [])
    else s
  }

  predicate WantsMore(s: State) {
    |s.buffered| < LIMIT && !s.haveSeenEof
  }

  /** A call in which the loop gives up, or an operation of it fails. */
  predicate Fails(call: Call) {
    || call.what.timeout
    || (call.what.reading && call.read.ReadError?)
    || (call.what.writing && call.write.WriteError?)
  }

  function AfterHandleIo(s: State, call: Call): State
    requires Answers(s, call)
  {
    var s1 := AfterRead(s, call);
    if call.what.timeout || (call.what.reading && call.read.ReadError?) then s.(pending := FINAL)
    else if call.what.writing && call.write.WriteError? then s1.(pending := Pending(WantsMore(s1), false))
    else
      var left := if call.what.writing then s1.buffered[call.write.count..] else s1.buffered;
      State(left, s1.haveSeenEof, Pending(WantsMore(s1), left != []))
  }

  /** What the closures share. `before` names the events of the call that registered this one,
      which handle_io does not look at. */
  class Context {
    var buffered: seq<byte>
    var haveSeenEof: bool

    constructor ()
      ensures buffered == [] && !haveSeenEof
    {
      buffered, haveSeenEof := [], false;
    }

    method HandleIo(what: What, read: ReadResult, write: WriteResult, ghost before: Pending) returns (pending: Pending)
      requires Answers(State(buffered, haveSeenEof, before), Call(what, read, write))
      modifies this
      ensures State(buffered, haveSeenEof, pending)
           == AfterHandleIo(old(State(buffered, haveSeenEof, before)), Call(what, read, write))
    {
      pending := FINAL;
      if what.timeout { return; }
      if what.reading {
        if read == ReadError { return; }
        haveSeenEof := read.data == [];
        buffered := buffered + read.data;
      }
      if |buffered| < LIMIT && !haveSeenEof {
        pending := pending.(reading := true);
      }
      if what.writing {
        if write == WriteError { return; }
        buffered := buffered[write.count..];
      }
      if |buffered| > 0 {
        pending := pending.(writing := true);
      }
    }
  }

  // ----- Runs -----

  /** The loop, and all the bytes that were read and written so far. */
  datatype Trace = Trace(loop: State, received: seq<byte>, written: seq<byte>)

  /** libevent runs the closure for events that were asked for, or for the timeout. */
  predicate Enabled(s: State, call: Call) {
    && s.pending != FINAL
    && (call.what.reading ==> s.pending.reading)
    && (call.what.writing ==> s.pending.writing)
    && Answers(s, call)
  }

  function Next(t: Trace, call: Call): Trace
    requires Enabled(t.loop, call)
  {
    var s' := AfterHandleIo(t.loop, call);
    if call.what.timeout || (call.what.reading && call.read.ReadError?) then t.(loop := s')
    else
      Trace(s',
            t.received + (if call.what.reading then call.read.data else []),
            t.written + (if call.what.writing && call.write.Wrote? then AfterRead(t.loop, call).buffered[..call.write.count] else []))
  }

  /** After the first call, which no event caused. */
  function Start(): Trace {
    var nothing := Call(What(false, false, false), ReadError, WriteError);
    Trace(AfterHandleIo(State([], false, FINAL), nothing), [], [])
  }

  predicate IsRun(t: Trace, calls: seq<Call>)
    decreases |calls|
  {
    calls == [] || (Enabled(t.loop, calls[0]) && IsRun(Next(t, calls[0]), calls[1..]))
  }

  function Run(t: Trace, calls: seq<Call>): Trace
    requires IsRun(t, calls)
    decreases |calls|
  {
    if calls == [] then t else Run(Next(t, calls[0]), calls[1..])
  }

  predicate Inv(t: Trace) {
    && t.written + t.loop.buffered == t.received
    && |t.loop.buffered| <= LIMIT - 1 + CHUNK
    && (t.loop.pending.reading ==> !t.loop.haveSeenEof && |t.loop.buffered| < LIMIT)
    && (t.loop.pending.writing ==> t.loop.buffered != [])
  }

  lemma NextKeepsInv(t: Trace, call: Call)
    requires Inv(t) && Enabled(t.loop, call)
    ensures Inv(Next(t, call))
  {
    NextConserves(t, call);
    hide Next;
    NextBounds(t, call);
  }

  lemma NextConserves(t: Trace, call: Call)
    requires t.written + t.loop.buffered == t.received && Enabled(t.loop, call)
    ensures var t' := Next(t, call); t'.written + t'.loop.buffered == t'.received
  {
    hide WantsMore;
    var s1 := AfterRead(t.loop, call);
    if call.what.reading && call.read.Received? {
      assert t.written + s1.buffered == t.received + call.read.data;
    }
    assert t.received + [] == t.received && t.written + [] == t.written;
    if call.what.writing && call.write.Wrote? {
      var n := call.write.count;
      assert (t.written + s1.buffered[..n]) + s1.buffered[n..] == t.written + s1.buffered;
    }
  }

  lemma NextBounds(t: Trace, call: Call)
    requires Inv(t) && Enabled(t.loop, call)
    ensures var s := Next(t, call).loop;
            && |s.buffered| <= LIMIT - 1 + CHUNK
            && (s.pending.reading ==> !s.haveSeenEof && |s.buffered| < LIMIT)
            && (s.pending.writing ==> s.buffered != [])
  {}

  lemma {:induction false} RunKeepsInv(t: Trace, calls: seq<Call>)
    requires Inv(t) && IsRun(t, calls)
    ensures Inv(Run(t, calls))
    decreases |calls|
  {
    hide Inv, Enabled, Next;
    if calls != [] {
      NextKeepsInv(t, calls[0]);
      RunKeepsInv(Next(t, calls[0]), calls[1..]);
    }
  }

  /** In every run: what was written, followed by what is buffered, is what was read; and the
      buffer is bounded. */
  lemma BytesConserved(calls: seq<Call>)
    requires IsRun(Start(), calls)
    ensures var t := Run(Start(), calls);
            t.written + t.loop.buffered == t.received && |t.loop.buffered| <= 1048575 + 1024
  {
    hide IsRun, Run;
    RunKeepsInv(Start(), calls);
  }

  /** End of file, once seen, stays seen: the loop does not read again. */
  lemma EofIsSticky(calls: seq<Call>, call: Call)
    requires IsRun(Start(), calls) && Enabled(Run(Start(), calls).loop, call)
    requires Run(Start(), calls).loop.haveSeenEof
    ensures var t' := Next(Run(Start(), calls), call);
            t'.loop.haveSeenEof && t'.received == Run(Start(), calls).received && !t'.loop.pending.reading
  {
    hide IsRun, Run;
    RunKeepsInv(Start(), calls);
    assert [] + Run(Start(), calls).received == Run(Start(), calls).received;
  }

  /** A call in which nothing fails ends the loop exactly when every byte read has been written
      and, besides, end of file was seen or this call alone wrote at least LIMIT bytes. */
  lemma ClosesExactlyWhen(calls: seq<Call>, call: Call)
    requires IsRun(Start(), calls) && Enabled(Run(Start(), calls).loop, call) && !Fails(call)
    ensures var t := Run(Start(), calls);
            var t' := Next(t, call);
            t'.loop.pending == FINAL <==>
            t'.written == t'.received && (t'.loop.haveSeenEof || |t'.written| - |t.written| >= LIMIT)
  {
    hide IsRun, Run;
    var t := Run(Start(), calls);
    RunKeepsInv(Start(), calls);
    NextKeepsInv(t, call);
    var t' := Next(t, call);
    assert t'.written == t'.received <==> t'.loop.buffered == [] by {
      if t'.loop.buffered == [] { assert t'.written + [] == t'.written; }
      else { assert |t'.written + t'.loop.buffered| > |t'.written|; }
    }
  }

  /** A write error ends the loop only if it would not read on; otherwise the loop continues,
      without asking to write, and what it had read stays buffered. */
  lemma WriteErrorMayContinue(calls: seq<Call>, call: Call)
    requires IsRun(Start(), calls) && Enabled(Run(Start(), calls).loop, call)
    requires !call.what.timeout && !(call.what.reading && call.read.ReadError?)
    requires call.what.writing && call.write.WriteError?
    ensures var t, t' := Run(Start(), calls), Next(Run(Start(), calls), call);
            && t'.written == t.written
            && t'.loop.buffered != [] && !t'.loop.pending.writing
            && (t'.loop.pending == FINAL <==> t'.loop.haveSeenEof || |t'.loop.buffered| >= LIMIT)
  {
    hide IsRun, Run;
    RunKeepsInv(Start(), calls);
    assert Run(Start(), calls).written + [] == Run(Start(), calls).written;
  }

  /** A timeout, or a read error, ends the loop at once: nothing is read, written or dropped. */
  lemma TimeoutOrReadErrorEnds(calls: seq<Call>, call: Call)
    requires IsRun(Start(), calls) && Enabled(Run(Start(), calls).loop, call)
    requires call.what.timeout || (call.what.reading && call.read.ReadError?)
    ensures var t, t' := Run(Start(), calls), Next(Run(Start(), calls), call);
            t'.loop.pending == FINAL && t' == t.(loop := t.loop.(pending := FINAL))
  {
    hide IsRun, Run;
  }

  /** While the loop runs, the timeout can always come, and so can what it asked for. */
  lemma WhatCanCome(s: State, reading: bool, writing: bool)
    requires s.pending != FINAL && (reading ==> s.pending.reading) && (writing ==> s.pending.writing)
    ensures Enabled(s, Call(What(true, reading, writing), ReadError, WriteError))
    ensures Enabled(s, Call(What(false, reading, writing), Received(seq(1024, _ => 0)), Wrote(0)))
  {}

  /** As long as nothing fails the loop asks for what it can use: to read below the limit until end
      of file, and to write while bytes are buffered. */
  lemma AsksForWhatItCanUse(calls: seq<Call>, call: Call)
    requires IsRun(Start(), calls) && Enabled(Run(Start(), calls).loop, call) && !Fails(call)
    ensures var t, t' := Run(Start(), calls), Next(Run(Start(), calls), call);
            && (t'.loop.pending.writing <==> |t'.written| < |t'.received|)
            && (t'.loop.pending.reading <==> |t'.received| - |t.written| < 1048576 && !t'.loop.haveSeenEof)
            && (t'.loop.haveSeenEof <==> t.loop.haveSeenEof || (call.what.reading && call.read.data == []))
  {
    hide IsRun, Run;
    RunKeepsInv(Start(), calls);
    NextKeepsInv(Run(Start(), calls), call);
    var t, t' := Run(Start(), calls), Next(Run(Start(), calls), call);
    assert |t'.written| + |t'.loop.buffered| == |t'.received|;
    assert |t.written| + |t.loop.buffered| == |t.received|;
  }

  /** Both happen: after one byte was read the loop survives a write error; after end of file, too,
      it ends with that byte unwritten. */
  lemma WriteErrorReached(eof: bool) returns (calls: seq<Call>, call: Call)
    ensures IsRun(Start(), calls) && Enabled(Run(Start(), calls).loop, call)
    ensures call == Call(What(false, false, true), ReadError, WriteError)
    ensures Next(Run(Start(), calls), call).loop == State([0], eof, Pending(!eof, false))
  {
    var byteRead := Call(What(false, true, false), Received([0]), WriteError);
    var eofRead := Call(What(false, true, false), Received([]), WriteError);
    call := Call(What(false, false, true), ReadError, WriteError);
    calls := if eof then [byteRead, eofRead] else [byteRead];
    var t1 := Next(Start(), byteRead);
    assert t1.loop == State([0], false, Pending(true, true));
    assert [0] + [] == [0];
    assert calls[1..] == if eof then [eofRead] else [];
    OneCall(t1, eofRead);
    assert IsRun(t1, []);
  }

  lemma OneCall(t: Trace, call: Call)
    requires Enabled(t.loop, call)
    ensures IsRun(t, [call]) && Run(t, [call]) == Next(t, call)
  {
    hide Enabled, Next;
    assert [call][1..] == [];
    assert IsRun(Next(t, call), []);
  }

  // ----- The loop can end before end of file -----

  const FULL_READ := Call(What(false, true, false), Received(seq(CHUNK, _ => 0)), WriteError)

  function Fill(n: nat): seq<Call> {
    seq(n, _ => FULL_READ)
  }

  lemma {:induction false} RunConcat(t: Trace, a: seq<Call>, b: seq<Call>)
    requires IsRun(t, a) && IsRun(Run(t, a), b)
    ensures IsRun(t, a + b) && Run(t, a + b) == Run(Run(t, a), b)
    decreases |a|
  {
    hide Enabled, Next;
    if a == [] {
      assert a + b == b;
    } else {
      assert (a + b)[1..] == a[1..] + b && (a + b)[0] == a[0];
      RunConcat(Next(t, a[0]), a[1..], b);
    }
  }

  lemma {:induction false} Filled(n: nat)
    requires n <= 1024
    ensures IsRun(Start(), Fill(n))
    ensures var t := Run(Start(), Fill(n));
            && |t.loop.buffered| == n * CHUNK && !t.loop.haveSeenEof && t.written == []
            && t.loop.pending == Pending(n < 1024, n > 0)
  {
    if n > 0 {
      Filled(n - 1);
      var t := Run(Start(), Fill(n - 1));
      FullRead(t, n);
      OneCall(t, FULL_READ);
      RunConcat(Start(), Fill(n - 1), [FULL_READ]);
      assert Fill(n) == Fill(n - 1) + [FULL_READ];
    }
  }

  lemma FullRead(t: Trace, n: nat)
    requires 0 < n <= 1024 && t.loop.pending.reading
    requires |t.loop.buffered| == (n - 1) * CHUNK && !t.loop.haveSeenEof && t.written == []
    ensures Enabled(t.loop, FULL_READ)
    ensures var t' := Next(t, FULL_READ);
            && |t'.loop.buffered| == n * CHUNK && !t'.loop.haveSeenEof && t'.written == []
            && t'.loop.pending == Pending(n < 1024, n > 0)
  {
    assert |FULL_READ.read.data| == CHUNK;
    assert t.written + [] == [];
  }

  /** The condition of ClosesExactlyWhen cannot be cut down to end of file: 1024 full reads and
      one write of all of it end the loop although end of file was never seen. */
  lemma CloseBeforeEof() returns (calls: seq<Call>, call: Call)
    ensures IsRun(Start(), calls) && Enabled(Run(Start(), calls).loop, call) && !Fails(call)
    ensures Next(Run(Start(), calls), call).loop == State([], false, FINAL)
  {
    hide IsRun, Run;
    calls, call := Fill(1024), Call(What(false, false, true), ReadError, Wrote(LIMIT));
    Filled(1024);
    hide Fill;
    WriteAll(Run(Start(), calls), call);
  }

  lemma WriteAll(t: Trace, call: Call)
    requires |t.loop.buffered| == LIMIT && !t.loop.haveSeenEof && t.loop.pending == Pending(false, true)
    requires call == Call(What(false, false, true), ReadError, Wrote(LIMIT))
    ensures Enabled(t.loop, call) && !Fails(call) && Next(t, call).loop == State([], false, FINAL)
  {
    assert t.loop.buffered[LIMIT..] == [];
  }
}
