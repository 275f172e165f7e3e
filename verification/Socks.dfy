/** The SOCKS5 client handshake: an incremental parser fed by read events. SocksProofs.dfy
    proves it equal to a one-shot parser of the whole stream. */
module Socks {
  import opened Options
  import opened Evbuffers
  import Text

  datatype Status =
    | Ok | ConnectFailed | UnexpectedVersion | ProtoError | AddressTooLong | InvalidAtype
    | IoErrorStep2 | IoErrorStep4 | InvalidProxyAddress | InvalidPort

  /** The closures that connect stores in the callback slots; it never stores a write callback. */
  datatype ReadCb = ReadMethod | ReadReply
  datatype WriteCb = NoSuchCallback
  datatype EventCb = ConnectDone | FailStep2 | FailStep4

  datatype Slots = Slots(read: Option<ReadCb>, write: Option<WriteCb>, event: Option<EventCb>)

  const CLEARED := Slots(None, None, None)

  /** A call of the user callback: the status, whether it got the bufferevent, and what the
      slots held at that moment. */
  datatype Call = Call(status: Status, bev: bool, slots: Slots)

  /** `charSigned` tells whether plain `char` is signed on the platform. */
  datatype Config = Config(host: seq<byte>, port: uint16, charSigned: bool)

  datatype Handshake = Handshake(slots: Slots, input: seq<byte>, output: seq<byte>, calls: seq<Call>)

  const START := Handshake(Slots(None, None, Some(ConnectDone)), [], [], [])

  const GREETING: seq<byte> := [5, 1, 0]
  const REQUEST_HEAD: seq<byte> := [5, 1, 0, 3]

  /** setcb(nullptr, nullptr, nullptr), then the user callback. */
  function Finish(h: Handshake, status: Status, bev: bool): Handshake {
    h.(slots := CLEARED, calls := h.calls + [Call(status, bev, CLEARED)])
  }

  /** What the event callback of each phase does. */
  function OnEvent(h: Handshake, what: Events): Handshake {
    match h.slots.event
    case None => h
    case Some(ConnectDone) =>
      if what != CONNECTED then Finish(h, ConnectFailed, false)
      else h.(output := h.output + GREETING, slots := Slots(Some(ReadMethod), None, Some(FailStep2)))
    case Some(FailStep2) => Finish(h, IoErrorStep2, false)
    case Some(FailStep4) => Finish(h, IoErrorStep4, false)
  }

  function OnMethod(cfg: Config, h: Handshake): Handshake {
    if |h.input| < 2 then h
    else
      var s := h.input[..2];
      var h1 := h.(input := h.input[2..]);
      if s[0] != 5 then Finish(h1, UnexpectedVersion, false)
      else if s[1] != 0 then Finish(h1, ProtoError, false)
      else
        var h2 := h1.(output := h1.output + REQUEST_HEAD);
        if |cfg.host| > 255 then Finish(h2, AddressTooLong, false)
        else
          h2.(output := h2.output + [|cfg.host|] + cfg.host + BigEndian(cfg.port, 2),
              slots := Slots(Some(ReadReply), None, Some(FailStep4)))
  }

  /** An octet read through plain `char`. */
  function CharValue(charSigned: bool, b: byte): int {
    if charSigned && b >= 128 then b - 256 else b
  }

  /** The `size_t` that an int converts to. */
  function SizeT(n: int): nat {
    n % 0x1_0000_0000_0000_0000
  }

  /** `total`, from the first five bytes of the reply; none if the address type is invalid. */
  function Total(charSigned: bool, s: seq<byte>): Option<nat>
    requires |s| >= 5
  {
    if s[3] == 1 then Some(4 + 4 + 2)
    else if s[3] == 3 then Some(SizeT(SizeT(4 + (1 + CharValue(charSigned, s[4]))) + 2))
    else if s[3] == 4 then Some(4 + 16 + 2)
    else None
  }

  function OnReply(cfg: Config, h: Handshake): Handshake {
    if |h.input| < 5 then h
    else
      var s := h.input[..5];
      if s[0] != 5 || s[1] != 0 || s[2] != 0 then Finish(h, ProtoError, false)
      else match Total(cfg.charSigned, s)
        case None => Finish(h, InvalidAtype, false)
        case Some(total) =>
          if |h.input| < total then h
          else Finish(h.(input := h.input[total..]), Ok, true)
  }

  /** A read event: libevent appends the bytes, and the one callback in the slot runs once. */
  function OnReadable(cfg: Config, h: Handshake, data: seq<byte>): Handshake {
    var h1 := h.(input := h.input + data);
    match h.slots.read
    case None => h1
    case Some(ReadMethod) => OnMethod(cfg, h1)
    case Some(ReadReply) => OnReply(cfg, h1)
  }

  // ----- The same in place -----

  class Client {
    const cfg: Config
    const input: Evbuffer<byte>
    const output: Evbuffer<byte>
    var slots: Slots
    var calls: seq<Call>

    ghost predicate Valid() {
      input != output
    }

    ghost function View(): Handshake
      reads this, input, output
    {
      Handshake(slots, input.Contents(), output.Contents(), calls)
    }

    constructor (cfg: Config)
      ensures Valid() && View() == START && this.cfg == cfg
      ensures fresh(input) && fresh(output)
    {
      this.cfg := cfg;
      input := new Evbuffer();
      output := new Evbuffer();
      slots := Slots(None, None, Some(ConnectDone));
      calls := [];
    }

    method Setcb(read: Option<ReadCb>, write: Option<WriteCb>, event: Option<EventCb>)
      modifies `slots
      ensures slots == Slots(read, write, event)
    {
      slots := slots.(event := event);
      slots := slots.(read := read);
      slots := slots.(write := write);
    }

    /** The user callback, which sees the slots as they are. */
    method Callback(status: Status, bev: bool)
      modifies `calls
      ensures calls == old(calls) + [Call(status, bev, slots)]
    {
      calls := calls + [Call(status, bev, slots)];
    }

    method HandleEvent(what: Events)
      requires Valid()
      modifies this, output
      ensures View() == OnEvent(old(View()), what)
    {
      match slots.event
      case None =>
      case Some(ConnectDone) =>
        if what != CONNECTED {
          Setcb(None, None, None);
          Callback(ConnectFailed, false);
          return;
        }
        AddUint8(output, 5);
        AddUint8(output, 1);
        AddUint8(output, 0);
        assert output.Contents() == old(output.Contents()) + GREETING;
        Setcb(Some(ReadMethod), None, Some(FailStep2));
      case Some(FailStep2) =>
        Setcb(None, None, None);
        Callback(IoErrorStep2, false);
      case Some(FailStep4) =>
        Setcb(None, None, None);
        Callback(IoErrorStep4, false);
    }

    /** The request head is queued before the length of the host is looked at. */
    method SendRequest() returns (ok: bool)
      requires Valid()
      modifies output
      ensures ok == (|cfg.host| <= 255)
      ensures output.Contents() ==
              if ok then old(output.Contents()) + REQUEST_HEAD + [|cfg.host|] + cfg.host + BigEndian(cfg.port, 2)
              else old(output.Contents()) + REQUEST_HEAD
    {
      AddUint8(output, 5);
      AddUint8(output, 1);
      AddUint8(output, 0);
      AddUint8(output, 3);
      assert output.Contents() == old(output.Contents()) + REQUEST_HEAD;
      if |cfg.host| > 255 { return false; }
      AddUint8(output, |cfg.host|);
      output.Add(cfg.host);
      AddUint16(output, cfg.port);
      ok := true;
    }

    method HandleMethod()
      requires Valid()
      modifies this, input, output
      ensures View() == OnMethod(cfg, old(View()))
    {
      var length := input.GetLength();
      if length < 2 { return; }
      var s := input.Remove(2);
      if s[0] != 5 {
        Setcb(None, None, None);
        Callback(UnexpectedVersion, false);
        return;
      }
      if s[1] != 0 {
        Setcb(None, None, None);
        Callback(ProtoError, false);
        return;
      }
      var ok := SendRequest();
      if !ok {
        Setcb(None, None, None);
        Callback(AddressTooLong, false);
        return;
      }
      Setcb(Some(ReadReply), None, Some(FailStep4));
    }

    method HandleReply()
      requires Valid()
      modifies this, input
      ensures View() == OnReply(cfg, old(View()))
    {
      var length := input.GetLength();
      if length < 5 { return; }
      var s := input.Copyout(5);
      if s[0] != 5 || s[1] != 0 || s[2] != 0 {
        Setcb(None, None, None);
        Callback(ProtoError, false);
        return;
      }
      var total := ReplySize(s);
      if total.None? {
        Setcb(None, None, None);
        Callback(InvalidAtype, false);
        return;
      }
      if length < total.value { return; }
      input.Drain(total.value);
      Setcb(None, None, None);
      Callback(Ok, true);
    }

    method ReplySize(s: seq<byte>) returns (size: Option<nat>)
      requires |s| >= 5
      ensures size == Total(cfg.charSigned, s)
    {
      var atype := s[3];
      var total := 4;
      if atype == 1 {
        total := total + 4;
      } else if atype == 3 {
        total := SizeT(total + (1 + CharValue(cfg.charSigned, s[4])));
      } else if atype == 4 {
        total := total + 16;
      } else {
        return None;
      }
      size := Some(SizeT(total + 2));
    }

    /** libevent appends what it received, then runs the callback that is in the slot now. */
    method HandleReadable(data: seq<byte>)
      requires Valid()
      modifies this, input, output
      ensures View() == OnReadable(cfg, old(View()), data)
    {
      input.Add(data);
      match slots.read
      case None =>
      case Some(ReadMethod) => HandleMethod();
      case Some(ReadReply) => HandleReply();
    }
  }

  /** The port that a string stands for, through atoi and a conversion to 16 bits; none stands
      for INVALID_PORT. */
  function PortOf(port: string): Option<uint16> {
    if |port| > 5 || !Text.AllDigits(port) then None else Some(Text.Atoi(port) % 0x1_0000)
  }

  /** The overload that takes the port as a string. */
  method ParsePort(port: string) returns (p: Option<uint16>)
    ensures p == PortOf(port)
  {
    if |port| > 5 { return None; }
    for i := 0 to |port|
      invariant forall j | 0 <= j < i :: Text.IsDigit(port[j])
    {
      if !Text.IsDigit(port[i]) { return None; }
    }
    p := Some(Text.Atoi(port) % 0x1_0000);
  }
}
