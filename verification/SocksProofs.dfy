/** The SOCKS5 handshake over every stream, every fragmentation and every interleaving. */
module SocksProofs {
  import opened Options
  import opened Evbuffers
  import opened Socks
  import Text

  // ----- A parser of the whole stream -----

  datatype Outcome = Incomplete | Complete(status: Status, consumed: nat)

  /** The section 6 reply, given all bytes after the method reply. */
  function ParseReply(charSigned: bool, r: seq<byte>): Outcome {
    if |r| < 5 then Incomplete
    else if r[0] != 5 || r[1] != 0 || r[2] != 0 then Complete(ProtoError, 0)
    else match Total(charSigned, r[..5])
      case None => Complete(InvalidAtype, 0)
      case Some(total) => if |r| < total then Incomplete else Complete(Ok, total)
  }

  /** The method reply alone: none if it lets the handshake go on. */
  function ParseMethod(cfg: Config, s: seq<byte>): Option<Status>
    requires |s| >= 2
  {
    if s[0] != 5 then Some(UnexpectedVersion)
    else if s[1] != 0 then Some(ProtoError)
    else if |cfg.host| > 255 then Some(AddressTooLong)
    else None
  }

  /** All that the proxy sends, in one go. */
  function Parse(cfg: Config, s: seq<byte>): Outcome {
    if |s| < 2 then Incomplete
    else match ParseMethod(cfg, s)
      case Some(status) => Complete(status, 2)
      case None =>
        match ParseReply(cfg.charSigned, s[2..])
        case Incomplete => Incomplete
        case Complete(status, n) => Complete(status, 2 + n)
  }

  /** More bytes never change a completed parse. */
  lemma ReplyStable(charSigned: bool, r: seq<byte>, more: seq<byte>)
    requires ParseReply(charSigned, r).Complete?
    ensures ParseReply(charSigned, r + more) == ParseReply(charSigned, r)
    ensures ParseReply(charSigned, r).consumed <= |r|
  {
    assert (r + more)[..5] == r[..5];
  }

  lemma ParseStable(cfg: Config, s: seq<byte>, more: seq<byte>)
    requires Parse(cfg, s).Complete?
    ensures Parse(cfg, s + more) == Parse(cfg, s)
    ensures Parse(cfg, s).consumed <= |s|
  {
    assert (s + more)[2..] == s[2..] + more;
    if ParseMethod(cfg, s).None? {
      ReplyStable(cfg.charSigned, s[2..], more);
    }
  }

  // ----- Read events -----

  /** The handshake once connected. */
  const OPENED := OnEvent(START, CONNECTED)

  /** One read event per chunk. */
  function Feed(cfg: Config, h: Handshake, chunks: seq<seq<byte>>): Handshake
    decreases |chunks|
  {
    if chunks == [] then h
    else OnReadable(cfg, Feed(cfg, h, chunks[..|chunks| - 1]), chunks[|chunks| - 1])
  }

  /** The method reply was complete only with the last read event. */
  predicate Bundled(chunks: seq<seq<byte>>) {
    chunks != [] && |Flatten(chunks[..|chunks| - 1])| < 2
  }

  /** The state after any sequence of read events, from the bytes alone. */
  ghost predicate FeedState(cfg: Config, h: Handshake, s: seq<byte>, bundled: bool) {
    match h.slots.read
    case Some(ReadMethod) =>
      |s| < 2 && h.input == s && h.calls == [] && h.slots == OPENED.slots
    case Some(ReadReply) =>
      && |s| >= 2 && ParseMethod(cfg, s).None? && h.input == s[2..] && h.calls == []
      && (ParseReply(cfg.charSigned, s[2..]).Incomplete? || bundled)
    case None =>
      && |h.calls| == 1 && Parse(cfg, s).Complete? && Parse(cfg, s).consumed <= |s|
      && h.calls[0].status == Parse(cfg, s).status && h.input == s[Parse(cfg, s).consumed..]
      && (ParseMethod(cfg, s).Some? || !bundled)
  }

  lemma FeedStep(cfg: Config, h: Handshake, s: seq<byte>, bundled: bool, data: seq<byte>)
    requires FeedState(cfg, h, s, bundled)
    ensures FeedState(cfg, OnReadable(cfg, h, data), s + data, |s| < 2)
  {
    hide FeedState, OnMethod, OnReply, Parse, ParseMethod, ParseReply;
    match h.slots.read
    case Some(ReadMethod) => StepFromMethod(cfg, h, s, bundled, data);
    case Some(ReadReply) => StepFromReply(cfg, h, s, bundled, data);
    case None => StepWhenDone(cfg, h, s, bundled, data);
  }

  lemma StepFromMethod(cfg: Config, h: Handshake, s: seq<byte>, bundled: bool, data: seq<byte>)
    requires FeedState(cfg, h, s, bundled) && h.slots.read == Some(ReadMethod)
    ensures FeedState(cfg, OnMethod(cfg, h.(input := h.input + data)), s + data, |s| < 2)
  {
    hide ParseReply, BigEndian;
    assert h.input + data == s + data;
  }

  lemma StepFromReply(cfg: Config, h: Handshake, s: seq<byte>, bundled: bool, data: seq<byte>)
    requires FeedState(cfg, h, s, bundled) && h.slots.read == Some(ReadReply)
    ensures FeedState(cfg, OnReply(cfg, h.(input := h.input + data)), s + data, |s| < 2)
  {
    var t := s + data;
    assert t[2..] == s[2..] + data;
    assert ParseMethod(cfg, t) == ParseMethod(cfg, s);
    hide ParseMethod, Total;
    ReplyAgrees(cfg, h.(input := h.input + data));
    hide ParseReply, OnReply;
    var o := ParseReply(cfg.charSigned, t[2..]);
    if o.Complete? {
      assert t[2..][o.consumed..] == t[2 + o.consumed..];
    }
  }

  /** One run of the reply callback does what the parser of replies says. */
  lemma ReplyAgrees(cfg: Config, h: Handshake)
    requires h.calls == [] && h.slots.read == Some(ReadReply)
    ensures match ParseReply(cfg.charSigned, h.input)
            case Incomplete => OnReply(cfg, h) == h
            case Complete(status, n) =>
              && n <= |h.input|
              && OnReply(cfg, h) == Finish(h.(input := h.input[n..]), status, status == Ok)
  {
    hide Total;
    assert h.input[0..] == h.input;
  }

  lemma StepWhenDone(cfg: Config, h: Handshake, s: seq<byte>, bundled: bool, data: seq<byte>)
    requires FeedState(cfg, h, s, bundled) && h.slots.read.None?
    ensures FeedState(cfg, h.(input := h.input + data), s + data, |s| < 2)
  {
    ParseStable(cfg, s, data);
    assert ParseMethod(cfg, s + data) == ParseMethod(cfg, s);
    hide ParseMethod, ParseReply, Parse;
    var n := Parse(cfg, s).consumed;
    assert (s + data)[n..] == s[n..] + data;
  }

  lemma {:induction false} FeedIsState(cfg: Config, chunks: seq<seq<byte>>)
    ensures FeedState(cfg, Feed(cfg, OPENED, chunks), Flatten(chunks), Bundled(chunks))
    decreases |chunks|
  {
    if chunks == [] {
    } else {
      var init, last := chunks[..|chunks| - 1], chunks[|chunks| - 1];
      assert chunks == init + [last];
      FlattenSnoc(init, last);
      FeedIsState(cfg, init);
      FeedStep(cfg, Feed(cfg, OPENED, init), Flatten(init), Bundled(init), last);
    }
  }

  /** The handshake and the one-shot parser have come to the same end: neither is done, or
      both are with the same status and the same bytes left. */
  predicate Agrees(h: Handshake, s: seq<byte>, o: Outcome) {
    match o
    case Incomplete => h.calls == []
    case Complete(status, n) => |h.calls| == 1 && h.calls[0].status == status && n <= |s| && h.input == s[n..]
  }

  /** A handshake that is done agrees with the one-shot parser, however the stream was cut
      and whatever came after. */
  lemma CompletedAgrees(cfg: Config, chunks: seq<seq<byte>>)
    requires Feed(cfg, OPENED, chunks).calls != []
    ensures Agrees(Feed(cfg, OPENED, chunks), Flatten(chunks), Parse(cfg, Flatten(chunks)))
  {
    FeedIsState(cfg, chunks);
  }

  /** One more run of the read callback, without new bytes, always brings agreement. */
  lemma OneMoreRunAgrees(cfg: Config, chunks: seq<seq<byte>>)
    ensures Agrees(OnReadable(cfg, Feed(cfg, OPENED, chunks), []), Flatten(chunks), Parse(cfg, Flatten(chunks)))
  {
    hide Feed, FeedState, Agrees, OnReadable;
    FeedIsState(cfg, chunks);
    RunAgain(cfg, Feed(cfg, OPENED, chunks), Flatten(chunks), Bundled(chunks));
  }

  lemma RunAgain(cfg: Config, h: Handshake, s: seq<byte>, bundled: bool)
    requires FeedState(cfg, h, s, bundled)
    ensures Agrees(OnReadable(cfg, h, []), s, Parse(cfg, s))
  {
    hide ParseReply, OnReply, ParseMethod;
    assert h.input + [] == h.input;
    match h.slots.read
    case Some(ReadReply) =>
      hide Agrees, OnMethod, Parse;
      ReplyAgain(cfg, h, s, bundled);
    case _ =>
  }

  lemma ReplyAgain(cfg: Config, h: Handshake, s: seq<byte>, bundled: bool)
    requires FeedState(cfg, h, s, bundled) && h.slots.read == Some(ReadReply)
    ensures Agrees(OnReply(cfg, h), s, Parse(cfg, s))
  {
    hide ParseReply, OnReply, ParseMethod;
    ReplyAgrees(cfg, h);
    var o := ParseReply(cfg.charSigned, s[2..]);
    if o.Complete? {
      assert s[2..][o.consumed..] == s[2 + o.consumed..];
    }
  }

  /** When exactly the further run is needed: the last read event brought both the rest of
      the method reply and a complete reply to a request not yet sent. */
  lemma AgreesIff(cfg: Config, chunks: seq<seq<byte>>)
    ensures var s := Flatten(chunks);
            Agrees(Feed(cfg, OPENED, chunks), s, Parse(cfg, s)) <==>
            !(Bundled(chunks) && |s| >= 2 && ParseMethod(cfg, s).None? && ParseReply(cfg.charSigned, s[2..]).Complete?)
  {
    FeedIsState(cfg, chunks);
  }

  /** A proxy that answers only what it was asked never needs it: if some read event ends
      just after the method reply, the handshake always agrees with the parser. */
  lemma PoliteProxyAgrees(cfg: Config, before: seq<seq<byte>>, after: seq<seq<byte>>)
    requires |Flatten(before)| == 2
    ensures var chunks := before + after;
            Agrees(Feed(cfg, OPENED, chunks), Flatten(chunks), Parse(cfg, Flatten(chunks)))
  {
    var chunks := before + after;
    AgreesIff(cfg, chunks);
    FlattenConcat(before, after);
    if after == [] {
      assert chunks == before;
    } else {
      var init := chunks[..|chunks| - 1];
      assert init == before + after[..|after| - 1];
      FlattenConcat(before, after[..|after| - 1]);
    }
  }

  // ----- All interleavings -----

  datatype Event = Readable(data: seq<byte>) | Signal(what: Events)

  function Step(cfg: Config, h: Handshake, e: Event): Handshake {
    match e
    case Readable(data) => OnReadable(cfg, h, data)
    case Signal(what) => OnEvent(h, what)
  }

  function Run(cfg: Config, events: seq<Event>): Handshake
    decreases |events|
  {
    if events == [] then START else Step(cfg, Run(cfg, events[..|events| - 1]), events[|events| - 1])
  }

  function Received(events: seq<Event>): seq<byte> {
    if events == [] then []
    else
      var last := events[|events| - 1];
      Received(events[..|events| - 1]) + (if last.Readable? then last.data else [])
  }

  /** The section 4 request. */
  function EncodeRequest(host: seq<byte>, port: uint16): seq<byte>
    requires |host| <= 255
  {
    REQUEST_HEAD + [|host|] + host + BigEndian(port, 2)
  }

  datatype Request = Request(host: seq<byte>, port: nat)

  /** A decoder of section 4 of RFC 1928, for CONNECT to a domain name. */
  function DecodeRequest(bytes: seq<byte>): Option<Request> {
    if |bytes| < 5 || bytes[0] != 5 || bytes[1] != 1 || bytes[2] != 0 || bytes[3] != 3 then None
    else
      var n: int := bytes[4];
      if |bytes| != 5 + n + 2 then None
      else Some(Request(bytes[5..5 + n], FromBigEndian(bytes[5 + n..])))
  }

  lemma DecodeOfEncode(host: seq<byte>, port: uint16)
    requires |host| <= 255
    ensures DecodeRequest(EncodeRequest(host, port)) == Some(Request(host, port))
  {
    var bytes := EncodeRequest(host, port);
    assert Pow256(2) == 0x1_0000 by { assert Pow256(1) == 256; }
    BigEndianRoundTrip(port, 2);
    assert bytes[5..5 + |host|] == host;
    assert bytes[5 + |host|..] == BigEndian(port, 2);
  }

  /** The first `n` bytes of `rest` are what the code takes for the whole reply. */
  predicate Accepts(charSigned: bool, rest: seq<byte>, n: nat) {
    && |rest| >= 5 && n <= |rest| && rest[0] == 5 && rest[1] == 0 && rest[2] == 0
    && Total(charSigned, rest[..5]) == Some(n)
  }

  /** What was sent and received when the handshake ended with a status. */
  ghost predicate EndedWith(cfg: Config, h: Handshake, received: seq<byte>, call: Call) {
    match call.status
    case ConnectFailed => !call.bev && h.output == [] && h.input == received
    case IoErrorStep2 => !call.bev && h.output == GREETING && h.input == received
    case UnexpectedVersion => !call.bev && h.output == GREETING && |received| >= 2 && h.input == received[2..] && received[0] != 5
    case AddressTooLong =>
      !call.bev && h.output == GREETING + REQUEST_HEAD && |received| >= 2 && h.input == received[2..] && |cfg.host| > 255
    case ProtoError =>
      && !call.bev && |received| >= 2 && h.input == received[2..]
      && (h.output == GREETING || (|cfg.host| <= 255 && h.output == GREETING + EncodeRequest(cfg.host, cfg.port)))
    case Ok =>
      && call.bev && |cfg.host| <= 255 && h.output == GREETING + EncodeRequest(cfg.host, cfg.port)
      && |received| >= 2 && received[0] == 5 && received[1] == 0
      && |h.input| <= |received| - 2 && h.input == received[|received| - |h.input|..]
      && Accepts(cfg.charSigned, received[2..], |received| - 2 - |h.input|)
    case InvalidAtype | IoErrorStep4 =>
      && !call.bev && |cfg.host| <= 255 && h.output == GREETING + EncodeRequest(cfg.host, cfg.port)
      && |received| >= 2 && h.input == received[2..]
    case _ => false
  }

  /** The state after any sequence of events. */
  ghost predicate RunState(cfg: Config, h: Handshake, received: seq<byte>) {
    match h.slots.event
    case Some(ConnectDone) =>
      h == Handshake(START.slots, received, [], [])
    case Some(FailStep2) =>
      h == Handshake(OPENED.slots, received, GREETING, [])
    case Some(FailStep4) =>
      && |cfg.host| <= 255 && |received| >= 2 && received[0] == 5 && received[1] == 0
      && h == Handshake(Slots(Some(ReadReply), None, Some(FailStep4)), received[2..],
                        GREETING + EncodeRequest(cfg.host, cfg.port), [])
    case None =>
      && |h.calls| == 1 && h.slots == CLEARED && h.calls[0].slots == CLEARED
      && EndedWith(cfg, h, received, h.calls[0])
  }

  lemma RequestAppended(cfg: Config, out: seq<byte>)
    requires |cfg.host| <= 255
    ensures out + REQUEST_HEAD + [|cfg.host|] + cfg.host + BigEndian(cfg.port, 2) == out + EncodeRequest(cfg.host, cfg.port)
  {}

  lemma MoreInput(cfg: Config, h: Handshake, received: seq<byte>, data: seq<byte>)
    requires RunState(cfg, h, received) && h.slots.event.None?
    ensures RunState(cfg, h.(input := h.input + data), received + data)
  {
    var t := received + data;
    if |received| >= 2 {
      assert t[2..] == received[2..] + data;
      if |received| >= 7 {
        assert t[2..][..5] == received[2..][..5];
      }
      if |h.input| <= |received| {
        assert t[|received| - |h.input|..] == received[|received| - |h.input|..] + data;
      }
    }
  }

  lemma MethodStep(cfg: Config, h: Handshake, received: seq<byte>)
    requires h == Handshake(OPENED.slots, received, GREETING, [])
    ensures RunState(cfg, OnMethod(cfg, h), received)
  {
    if |cfg.host| <= 255 {
      RequestAppended(cfg, GREETING);
      assert GREETING + REQUEST_HEAD + [|cfg.host|] + cfg.host + BigEndian(cfg.port, 2) ==
             GREETING + EncodeRequest(cfg.host, cfg.port);
    }
  }

  lemma ReplyStep(cfg: Config, h: Handshake, received: seq<byte>)
    requires |cfg.host| <= 255 && |received| >= 2 && received[0] == 5 && received[1] == 0
    requires h == Handshake(Slots(Some(ReadReply), None, Some(FailStep4)), received[2..],
                            GREETING + EncodeRequest(cfg.host, cfg.port), [])
    ensures RunState(cfg, OnReply(cfg, h), received)
  {
    hide EncodeRequest;
    var after := OnReply(cfg, h);
    if after.calls != [] && after.calls[0].status == Ok {
      var total := Total(cfg.charSigned, h.input[..5]).value;
      assert after.input == received[2 + total..];
    }
  }

  lemma StepKeepsRunState(cfg: Config, h: Handshake, received: seq<byte>, e: Event)
    requires RunState(cfg, h, received)
    ensures RunState(cfg, Step(cfg, h, e), received + if e.Readable? then e.data else [])
  {
    match e
    case Signal(_) =>
      assert received + [] == received;
    case Readable(data) =>
      if h.slots.event.None? {
        MoreInput(cfg, h, received, data);
      } else {
        var h1 := h.(input := h.input + data);
        match h.slots.read
        case None =>
        case Some(ReadMethod) => MethodStep(cfg, h1, received + data);
        case Some(ReadReply) =>
          assert (received + data)[2..] == received[2..] + data;
          ReplyStep(cfg, h1, received + data);
      }
  }

  lemma {:induction false} RunIsState(cfg: Config, events: seq<Event>)
    ensures RunState(cfg, Run(cfg, events), Received(events))
    decreases |events|
  {
    hide RunState;
    if events == [] {
      assert RunState(cfg, START, []) by { StartState(cfg); }
    } else {
      RunIsState(cfg, events[..|events| - 1]);
      StepKeepsRunState(cfg, Run(cfg, events[..|events| - 1]), Received(events[..|events| - 1]), events[|events| - 1]);
    }
  }

  lemma StartState(cfg: Config)
    ensures RunState(cfg, START, [])
  {}

  /** Over all interleavings of connection, read and error events the user callback runs at
      most once; it has run exactly when all slots are clear, and they were clear before it ran. */
  lemma SingleCompletion(cfg: Config, events: seq<Event>)
    ensures var h := Run(cfg, events);
            && |h.calls| <= 1
            && (h.calls != [] <==> h.slots == CLEARED)
            && (h.calls != [] ==> h.calls[0].slots == CLEARED && (h.calls[0].bev <==> h.calls[0].status == Ok))
  {
    RunIsState(cfg, events);
  }

  /** The statuses that an event may end the handshake with, by the phase it finds. */
  predicate Fits(phase: Option<EventCb>, e: Event, status: Status) {
    match (phase, e)
    case (Some(ConnectDone), Signal(what)) => what != CONNECTED && status == ConnectFailed
    case (Some(FailStep2), Signal(_)) => status == IoErrorStep2
    case (Some(FailStep4), Signal(_)) => status == IoErrorStep4
    case (Some(FailStep2), Readable(_)) => status == UnexpectedVersion || status == ProtoError || status == AddressTooLong
    case (Some(FailStep4), Readable(_)) => status == ProtoError || status == InvalidAtype || status == Ok
    case _ => false
  }

  lemma StepFits(cfg: Config, h: Handshake, received: seq<byte>, e: Event)
    requires RunState(cfg, h, received)
    ensures h.calls != [] ==> Step(cfg, h, e).calls == h.calls
    ensures h.calls == [] && Step(cfg, h, e).calls != [] ==> Fits(h.slots.event, e, Step(cfg, h, e).calls[0].status)
  {}

  /** A handshake that is done ended at one event, with a status that fits the phase. */
  lemma {:induction false} StatusFitsPhase(cfg: Config, events: seq<Event>) returns (k: nat)
    requires Run(cfg, events).calls != []
    ensures k < |events| && Run(cfg, events[..k]).calls == []
    ensures Fits(Run(cfg, events[..k]).slots.event, events[k], Run(cfg, events).calls[0].status)
    ensures Run(cfg, events[..k + 1]).calls == Run(cfg, events).calls
    decreases |events|
  {
    hide RunState, Fits, Step;
    var init, last := events[..|events| - 1], events[|events| - 1];
    RunIsState(cfg, init);
    StepFits(cfg, Run(cfg, init), Received(init), last);
    if Run(cfg, init).calls == [] {
      k := |events| - 1;
      assert events[..k + 1] == events;
    } else {
      k := StatusFitsPhase(cfg, init);
      assert init[..k] == events[..k] && init[..k + 1] == events[..k + 1];
    }
  }

  // ----- The wire -----

  /** Section 6 of RFC 1928: the length of a reply, from its address type. */
  function RfcLength(r: seq<byte>): Option<nat>
    requires |r| >= 5
  {
    if r[3] == 1 then Some(4 + 4 + 2)
    else if r[3] == 3 then Some(r[4] as int + 4 + 1 + 2)
    else if r[3] == 4 then Some(4 + 16 + 2)
    else None
  }

  /** A successful section 6 reply, complete. */
  predicate IsReply(r: seq<byte>) {
    |r| >= 5 && r[0] == 5 && r[1] == 0 && r[2] == 0 && RfcLength(r) == Some(|r|)
  }

  /** The code reckons the length as the standard does exactly when the octet is not read as
      a negative number. */
  lemma TotalIsRfc(charSigned: bool, r: seq<byte>)
    requires |r| >= 5
    ensures Total(charSigned, r[..5]) == RfcLength(r) <==> !charSigned || r[3] != 3 || r[4] <= 127
  {}

  /** On a conforming reply, whatever follows it in the buffer, the code takes exactly the
      reply if and only if the length octet of a domain name survives plain `char`. Beyond
      127 a signed `char` makes it wait for ever or take too little. */
  lemma ReplyTakenIff(charSigned: bool, r: seq<byte>, tail: seq<byte>)
    requires IsReply(r) && |r + tail| < 0x8000_0000_0000_0000
    ensures ParseReply(charSigned, r + tail) == Complete(Ok, |r|) <==> !charSigned || r[3] != 3 || r[4] <= 127
    ensures charSigned && r[3] == 3 && 128 <= r[4] <= 248 ==> ParseReply(charSigned, r + tail) == Incomplete
    ensures charSigned && r[3] == 3 && 249 <= r[4] ==> ParseReply(charSigned, r + tail) == Complete(Ok, r[4] - 249)
  {
    var all := r + tail;
    assert all[..5] == r[..5] && all[3] == r[3] && all[4] == r[4];
    TotalOfReply(charSigned, r);
    hide Total, RfcLength;
    assert all[0] == 5 && all[1] == 0 && all[2] == 0;
  }

  /** What the code reckons for a conforming reply. */
  lemma TotalOfReply(charSigned: bool, r: seq<byte>)
    requires IsReply(r)
    ensures var n: int := r[4];
            Total(charSigned, r[..5]) ==
            Some(if !charSigned || r[3] != 3 || n <= 127 then |r|
                 else if n <= 248 then 0x1_0000_0000_0000_0000 - 249 + n
                 else n - 249)
  {}

  /** A decoder of section 3 of RFC 1928: the methods that a greeting offers. */
  function DecodeGreeting(bytes: seq<byte>): Option<seq<byte>> {
    if |bytes| < 2 || bytes[0] != 5 || bytes[1] == 0 then None
    else
      var n: int := bytes[1];
      if |bytes| != 2 + n then None else Some(bytes[2..])
  }

  /** Whatever was sent begins with a greeting that offers one method, no authentication. */
  lemma GreetingOffersNoAuth(cfg: Config, events: seq<Event>)
    ensures var out := Run(cfg, events).output;
            out != [] ==> |out| >= 3 && DecodeGreeting(out[..3]) == Some([0])
  {
    hide EncodeRequest, Accepts;
    RunIsState(cfg, events);
    GreetingDecodes();
    GreetingFirst(cfg, events);
    hide DecodeGreeting, RunState;
    var out := Run(cfg, events).output;
    if out != [] {
      assert out[..3] == GREETING;
    }
  }

  lemma GreetingDecodes()
    ensures |GREETING| == 3 && DecodeGreeting(GREETING) == Some([0])
  {
    assert GREETING[2..] == [0];
  }

  lemma GreetingFirst(cfg: Config, events: seq<Event>)
    requires RunState(cfg, Run(cfg, events), Received(events))
    ensures Run(cfg, events).output != [] ==> GREETING <= Run(cfg, events).output
  {
    hide EncodeRequest, Accepts;
  }

  /** An event that is not a read always tells the user, with the status of the phase that the
      bytes sent so far show; only when nothing was sent yet, and the event is the connection,
      nothing is told, and the greeting goes out. */
  lemma EventEndsHandshake(cfg: Config, events: seq<Event>, what: Events)
    requires Run(cfg, events).calls == []
    ensures var h, h' := Run(cfg, events), Run(cfg, events + [Signal(what)]);
            if h.output == [] && what == CONNECTED then h'.calls == [] && h'.output == [5, 1, 0]
            else
              && h'.output == h.output && h'.slots == CLEARED
              && h'.calls == [Call(if h.output == [] then ConnectFailed
                                   else if |h.output| == 3 then IoErrorStep2
                                   else IoErrorStep4, false, CLEARED)]
  {
    hide Accepts;
    RunIsState(cfg, events);
    assert (events + [Signal(what)])[..|events|] == events;
  }

  /** A host that is too long is noticed only when the head of the request is queued. */
  lemma TooLongSendsHead(cfg: Config, events: seq<Event>)
    requires Run(cfg, events).calls != [] && Run(cfg, events).calls[0].status == AddressTooLong
    ensures |cfg.host| > 255 && Run(cfg, events).output == [5, 1, 0, 5, 1, 0, 3]
  {
    hide EncodeRequest, Accepts;
    RunIsState(cfg, events);
  }

  /** What the parser of the stream, and with it the handshake, answers to each method reply. */
  lemma MethodReplyMeans(cfg: Config, version: byte, m: byte, rest: seq<byte>)
    ensures var o := Parse(cfg, [version, m] + rest);
            && (version != 5 ==> o == Complete(UnexpectedVersion, 2))
            && (version == 5 && m != 0 ==> o == Complete(ProtoError, 2))
            && (version == 5 && m == 0 && |cfg.host| > 255 ==> o == Complete(AddressTooLong, 2))
            && (version == 5 && m == 0 && |cfg.host| <= 255 && |rest| < 5 ==> o == Incomplete)
  {
    assert ([version, m] + rest)[2..] == rest;
  }

  /** And to each reply to the request: a conforming one is taken entirely and ends with OK, what
      does not begin with 5, 0, 0 is refused, and so is an address type other than 1, 3 and 4. */
  lemma ReplyMeans(cfg: Config, r: seq<byte>, tail: seq<byte>)
    requires |cfg.host| <= 255 && |r| >= 5 && |r + tail| < 0x8000_0000_0000_0000
    ensures var o := Parse(cfg, [5, 0] + (r + tail));
            && (r[0] != 5 || r[1] != 0 || r[2] != 0 ==> o == Complete(ProtoError, 2))
            && (r[0] == 5 && r[1] == 0 && r[2] == 0 && r[3] != 1 && r[3] != 3 && r[3] != 4 ==> o == Complete(InvalidAtype, 2))
            && (IsReply(r) && (!cfg.charSigned || r[3] != 3 || r[4] <= 127) ==> o == Complete(Ok, 2 + |r|))
  {
    assert ([5, 0] + (r + tail))[2..] == r + tail;
    assert (r + tail)[..5] == r[..5];
    if IsReply(r) {
      ReplyTakenIff(cfg.charSigned, r, tail);
    }
  }

  /** On success, what was sent is a greeting that offers no authentication alone, and then a
      request that decodes to the host and the port asked for. */
  lemma SentOnSuccess(cfg: Config, events: seq<Event>)
    requires Run(cfg, events).calls != [] && Run(cfg, events).calls[0].status == Ok
    ensures var out := Run(cfg, events).output;
            && |out| >= 3 && DecodeGreeting(out[..3]) == Some([0])
            && DecodeRequest(out[3..]) == Some(Request(cfg.host, cfg.port))
  {
    GreetingOffersNoAuth(cfg, events);
    hide DecodeRequest, EncodeRequest;
    RunIsState(cfg, events);
    DecodeOfEncode(cfg.host, cfg.port);
    assert Run(cfg, events).output[3..] == EncodeRequest(cfg.host, cfg.port);
  }

  /** On success, what was received is the method reply, then some bytes that were taken for
      the reply, then the bytes still in the buffer. What was taken is exactly one section 6
      reply if and only if the length octet survives plain `char`. */
  lemma ReceivedOnSuccess(cfg: Config, events: seq<Event>)
    requires Run(cfg, events).calls != [] && Run(cfg, events).calls[0].status == Ok
    requires |Received(events)| < 0x8000_0000_0000_0000
    ensures var h, received := Run(cfg, events), Received(events);
            && |received| >= 2 + 5 && received[..2] == [5, 0] && |h.input| <= |received| - 2
            && received[|received| - |h.input|..] == h.input
            && (IsReply(received[2..|received| - |h.input|]) <==>
                  !cfg.charSigned || received[5] != 3 || received[6] <= 127)
  {
    hide EncodeRequest;
    var h, received := Run(cfg, events), Received(events);
    RunIsState(cfg, events);
    var rest, n := received[2..], |received| - 2 - |h.input|;
    assert received[2..|received| - |h.input|] == rest[..n];
    AcceptedIsReply(cfg.charSigned, rest, n);
  }

  lemma AcceptedIsReply(charSigned: bool, rest: seq<byte>, n: nat)
    requires Accepts(charSigned, rest, n) && |rest| < 0x8000_0000_0000_0000
    ensures IsReply(rest[..n]) <==> !charSigned || rest[3] != 3 || rest[4] <= 127
  {
    TotalIsRfc(charSigned, rest);
    if n >= 5 {
      assert RfcLength(rest[..n]) == RfcLength(rest);
    }
  }

  // ----- The port -----

  /** Of the numbers printed in decimal, the overload that takes a string accepts those of
      up to five digits, and takes them for themselves exactly up to 65535: beyond, they wrap
      around. */
  lemma DecimalPorts(port: nat)
    ensures PortOf(Text.Decimal(port)) == if port < 100000 then Some(port % 0x1_0000) else None
    ensures PortOf(Text.Decimal(port)) == Some(port) <==> port <= 65535
  {
    Text.AtoiOfDecimal(port);
    Text.DecimalWidth(port, 5);
    assert Text.Pow10(5) == 100000 by {
      assert Text.Pow10(1) == 10 && Text.Pow10(2) == 100;
      assert Text.Pow10(3) == 1000 && Text.Pow10(4) == 10000;
    }
  }

  /** Other strings: one with a character that is not a digit is refused, the empty one stands for
      0, and a leading zero changes nothing while the length allows it. */
  lemma OtherPorts(before: string, c: char, after: string, digits: string)
    ensures c !in "0123456789" ==> PortOf(before + [c] + after).None?
    ensures PortOf("") == Some(0)
    ensures |digits| <= 4 ==> PortOf("0" + digits) == PortOf(digits)
    ensures |digits| > 5 ==> PortOf(digits).None?
  {
    Text.DigitsAre(c);
    var s := before + [c] + after;
    assert s[|before|] == c;
    assert forall i | 0 <= i < |digits| :: ("0" + digits)[i + 1] == digits[i];
    if Text.AllDigits(digits) {
      Text.LeadingZero(digits);
    }
  }
}
