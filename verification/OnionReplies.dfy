/** How the line callbacks fold the lines of a reply into calls of the user callback, and the
    printers and parsers of the control protocol. */
module OnionReplies {
  import opened Options
  import opened Evbuffers
  import opened Lines
  import opened Text
  import opened OnionCtrl
  import opened OnionRecv

  // ----- GETINFO status/bootstrap-phase -----

  datatype StringCall = StringCall(status: OnionStatus, text: string)

  const PHASE_KEY := "status/bootstrap-phase="

  /** The `result` cell that the callback captured, and the calls it made. */
  datatype Getinfo = Getinfo(result: string, calls: seq<StringCall>)

  function GetinfoLine(c: Getinfo, r: Reply): Getinfo {
    if r.status != Ok then c.(calls := c.calls + [StringCall(r.status, "")])
    else if r.kind == '-' && PHASE_KEY <= r.text then c.(result := r.text[|PHASE_KEY|..])
    else if r.kind != ' ' then c.(calls := c.calls + [StringCall(UnexpectedReply, "")])
    else c.(calls := c.calls + [StringCall(r.status, c.result)])
  }

  // ----- SETEVENTS STATUS_CLIENT -----

  datatype Setevents = Setevents(expected: OnionStatus, calls: seq<StringCall>)

  function SeteventsLine(c: Setevents, r: Reply): Setevents {
    if r.status != c.expected then c.(calls := c.calls + [StringCall(UnexpectedStatus, "")])
    else if r.kind != ' ' then c.(calls := c.calls + [StringCall(UnexpectedReply, "")])
    else if r.status == Ok then c.(expected := Async)
    else Setevents(Async, c.calls + [StringCall(r.status, r.text)])
  }

  /** The shared cells as the closures update them. */
  class Cells {
    var result: string
    var expected: OnionStatus
    var calls: seq<StringCall>

    constructor ()
      ensures Getinfo(result, calls) == Getinfo("", []) && expected == Ok
    {
      result, expected, calls := "", Ok, [];
    }

    method Callback(status: OnionStatus, text: string)
      modifies `calls
      ensures calls == old(calls) + [StringCall(status, text)]
    {
      calls := calls + [StringCall(status, text)];
    }

    method OnGetinfoLine(status: OnionStatus, kind: char, s: string)
      modifies `result, `calls
      ensures Getinfo(result, calls) == GetinfoLine(old(Getinfo(result, calls)), Reply(status, kind, s))
    {
      if status != Ok {
        Callback(status, "");
        return;
      }
      if kind == '-' && PHASE_KEY <= s {
        result := s[|PHASE_KEY|..];
        return;
      }
      if kind != ' ' {
        Callback(UnexpectedReply, "");
        return;
      }
      Callback(status, result);
    }

    method OnSeteventsLine(status: OnionStatus, kind: char, s: string)
      modifies `expected, `calls
      ensures Setevents(expected, calls) == SeteventsLine(old(Setevents(expected, calls)), Reply(status, kind, s))
    {
      if status != expected {
        Callback(UnexpectedStatus, "");
        return;
      }
      if kind != ' ' {
        Callback(UnexpectedReply, "");
        return;
      }
      expected := Async;
      if status == Ok { return; }
      Callback(status, s);
    }

    ghost function GetinfoLoop(input: Evbuffer<char>): Loop<Getinfo>
      reads this, input
    {
      RecvLoop(input.Contents(), Getinfo(result, calls), Plain(GetinfoLine))
    }

    /** The receive loop with the closure of GETINFO: on each read event. */
    method ReadGetinfo(input: Evbuffer<char>)
      modifies this, input
      ensures expected == old(expected)
      ensures SameEnd(Loop([], input.Contents(), Getinfo(result, calls)), old(GetinfoLoop(input)))
    {
      hide RecvLoop, FirstLine, Classify, GetinfoLine;
      while true
        invariant expected == old(expected)
        invariant SameEnd(GetinfoLoop(input), old(GetinfoLoop(input)))
        decreases |input.Contents()|
      {
        LineStep(input.Contents(), Getinfo(result, calls), Plain(GetinfoLine));
        var line := Readln(input);
        if line == "" { return; }
        var r := Classify(line);
        OnGetinfoLine(r.status, r.kind, r.text);
        if Stops(line) { return; }
      }
    }

    ghost function SeteventsLoop(input: Evbuffer<char>): Loop<Setevents>
      reads this, input
    {
      RecvLoop(input.Contents(), Setevents(expected, calls), Plain(SeteventsLine))
    }

    /** The receive loop with the closure of SETEVENTS: on each read event. */
    method ReadSetevents(input: Evbuffer<char>)
      modifies this, input
      ensures result == old(result)
      ensures SameEnd(Loop([], input.Contents(), Setevents(expected, calls)), old(SeteventsLoop(input)))
    {
      hide RecvLoop, FirstLine, Classify, SeteventsLine;
      while true
        invariant result == old(result)
        invariant SameEnd(SeteventsLoop(input), old(SeteventsLoop(input)))
        decreases |input.Contents()|
      {
        LineStep(input.Contents(), Setevents(expected, calls), Plain(SeteventsLine));
        var line := Readln(input);
        if line == "" { return; }
        var r := Classify(line);
        OnSeteventsLine(r.status, r.kind, r.text);
        if Stops(line) { return; }
      }
    }
  }

  lemma ClassifyFinal(code: string, text: string)
    requires |code| == 3 && AllDigits(code)
    ensures Classify(code + " " + text) == Reply(StatusOf(Atoi(code)), ' ', text)
    ensures !Stops(code + " " + text)
  {
    assert (code + " " + text)[..3] == code && (code + " " + text)[4..] == text;
  }

  lemma ClassifyMid(code: string, text: string)
    requires |code| == 3 && AllDigits(code)
    ensures Classify(code + "-" + text) == Reply(StatusOf(Atoi(code)), '-', text)
    ensures !Stops(code + "-" + text)
  {
    assert (code + "-" + text)[..3] == code && (code + "-" + text)[4..] == text;
  }

  /** The three-digit codes that the classifier knows. */
  lemma KnownCodes()
    ensures AllDigits("250") && Atoi("250") == 250
    ensures AllDigits("552") && Atoi("552") == 552
    ensures AllDigits("650") && Atoi("650") == 650
  {
    AtoiThree("250");
    AtoiThree("552");
    AtoiThree("650");
  }

  lemma AtoiThree(s: string)
    requires |s| == 3 && AllDigits(s)
    ensures Atoi(s) == (s[0] as int - '0' as int) * 100 + (s[1] as int - '0' as int) * 10 + (s[2] as int - '0' as int)
  {
    var t := s[..2];
    var u := t[..1];
    assert Atoi(u[..0]) == 0;
    assert Atoi(u) == u[0] as int - '0' as int;
    assert Atoi(t) == Atoi(u) * 10 + (t[1] as int - '0' as int);
  }

  /** The status of a well-formed line names its code, and nothing else of the line. */
  lemma StatusNamesCode(code: string, kind: char, text: string)
    requires |code| == 3 && AllDigits(code)
    ensures var r := Classify(code + [kind] + text);
            && r.kind == kind && r.text == text
            && (r.status == Ok <==> code == "250")
            && (r.status == UnrecognizedEntity <==> code == "552")
            && (r.status == Async <==> code == "650")
            && (r.status == UnknownStatusError <==> code !in {"250", "552", "650"})
  {
    var line := code + [kind] + text;
    assert line[..3] == code && line[4..] == text;
    hide Atoi, AllDigits;
    KnownCodes();
    SameCode(code, "250");
    SameCode(code, "552");
    SameCode(code, "650");
  }

  /** A three-digit code is known by its number. */
  lemma SameCode(code: string, other: string)
    requires |code| == |other| == 3 && AllDigits(code) && AllDigits(other)
    ensures Atoi(code) == Atoi(other) <==> code == other
  {
    AtoiThree(code);
    AtoiThree(other);
    hide Atoi;
    assert IsDigit(code[0]) && IsDigit(code[1]) && IsDigit(code[2]);
    assert IsDigit(other[0]) && IsDigit(other[1]) && IsDigit(other[2]);
    hide AllDigits;
    if Atoi(code) == Atoi(other) {
      assert code[0] == other[0];
    }
  }

  /** What becomes of the lines that cannot be a reply: they are reported without their text. */
  lemma MalformedLine(line: string)
    ensures Stops(line) <==> |line| < 4 || exists i :: 0 <= i < 3 && line[i] !in "0123456789"
    ensures |line| < 4 ==> Classify(line) == Reply(ExpectedMoreTokens, '\0', "")
    ensures |line| >= 4 && Stops(line) ==> Classify(line) == Reply(NotADigit, '\0', "")
  {
    forall i | 0 <= i < |line| ensures IsDigit(line[i]) <==> line[i] in "0123456789" {
      DigitsAre(line[i]);
    }
    if |line| >= 4 {
      assert (exists i :: 0 <= i < 3 && line[i] !in "0123456789")
        <==> line[0] !in "0123456789" || line[1] !in "0123456789" || line[2] !in "0123456789";
    }
  }

  /** The reply to GETINFO status/bootstrap-phase. */
  function PhaseReply(phase: string): seq<string> {
    ["250-status/bootstrap-phase=" + phase, "250 OK"]
  }

  /** However the reply is cut, the user callback runs exactly once, with OK and the phase. */
  lemma GetinfoFolds(phase: string, chunks: seq<string>)
    requires '\n' !in phase && Flatten(chunks) == Encode(["250-status/bootstrap-phase=" + phase, "250 OK"])
    ensures Feed(Getinfo("", []), chunks, Plain(GetinfoLine)).client.calls == [StringCall(Ok, phase)]
  {
    var texts := PhaseReply(phase);
    PhaseReplySendable(phase);
    PhaseClassified(phase);
    ChunksDoNotMatter(Getinfo("", []), texts, chunks, GetinfoLine);
    FoldTwo(Getinfo("", []), texts, GetinfoLine);
    PhaseLines(Getinfo("", []), phase, "OK");
  }

  /** A single line, however it is cut. */
  lemma OneLineFolds<S>(client: S, line: string, chunks: seq<string>, handle: LineHandler<S>)
    requires '\n' !in line && !Stops(line) && Flatten(chunks) == Encode([line])
    ensures Feed(client, chunks, Plain(handle)).client == handle(client, Classify(line))
  {
    hide Stops, Classify, Feed;
    ChunksDoNotMatter(client, [line], chunks, handle);
    assert [line][1..] == [];
  }

  /** A `250-` line that tells something else makes one call, with UNEXPECTED_REPLY, and leaves
      the cell alone. */
  lemma GetinfoRefusesOtherKeys(result: string, text: string, chunks: seq<string>)
    requires '\n' !in text && Flatten(chunks) == Encode(["250" + "-" + text])
    requires !("status/bootstrap-phase=" <= text)
    ensures Feed(Getinfo(result, []), chunks, Plain(GetinfoLine)).client == Getinfo(result, [StringCall(UnexpectedReply, "")])
  {
    KnownCodes();
    ClassifyMid("250", text);
    NoLf("250", "-", text);
    hide Classify, Stops;
    OneLineFolds(Getinfo(result, []), "250" + "-" + text, chunks, GetinfoLine);
  }

  /** A line with another code makes one call, with the status that the code names. */
  lemma GetinfoReportsCode(result: string, code: string, kind: char, text: string, chunks: seq<string>)
    requires |code| == 3 && AllDigits(code) && code != "250" && '\n' !in [kind] && '\n' !in text
    requires Flatten(chunks) == Encode([code + [kind] + text])
    ensures Feed(Getinfo(result, []), chunks, Plain(GetinfoLine)).client ==
            Getinfo(result, [StringCall(if code == "552" then UnrecognizedEntity
                                        else if code == "650" then Async else UnknownStatusError, "")])
  {
    StatusNamesCode(code, kind, text);
    NoLf(code, [kind], text);
    hide Classify, Stops;
    OneLineFolds(Getinfo(result, []), code + [kind] + text, chunks, GetinfoLine);
  }

  lemma FoldTwo<S>(client: S, texts: seq<string>, handle: LineHandler<S>)
    requires |texts| == 2
    ensures FoldTexts(client, texts, handle) == handle(handle(client, Classify(texts[0])), Classify(texts[1]))
  {
    var c1 := handle(client, Classify(texts[0]));
    var c2 := handle(c1, Classify(texts[1]));
    assert texts[1..][1..] == [];
    assert FoldTexts(c2, texts[1..][1..], handle) == c2;
    assert FoldTexts(c1, texts[1..], handle) == c2;
  }

  /** The fold over the two replies: the first stores the phase, the second reports it. */
  lemma PhaseLines(c: Getinfo, phase: string, text: string)
    ensures GetinfoLine(GetinfoLine(c, Reply(Ok, '-', PHASE_KEY + phase)), Reply(Ok, ' ', text))
         == Getinfo(phase, c.calls + [StringCall(Ok, phase)])
  {
    AfterPrefix(PHASE_KEY, phase);
  }

  lemma AfterPrefix(prefix: string, text: string)
    ensures prefix <= prefix + text && (prefix + text)[|prefix|..] == text
  {}

  lemma PhaseClassified(phase: string)
    ensures Classify(PhaseReply(phase)[0]) == Reply(Ok, '-', PHASE_KEY + phase) && !Stops(PhaseReply(phase)[0])
    ensures Classify(PhaseReply(phase)[1]) == Reply(Ok, ' ', "OK") && !Stops(PhaseReply(phase)[1])
  {
    hide Classify, Stops;
    KnownCodes();
    PhaseText(phase);
    ClassifyMid("250", PHASE_KEY + phase);
    ClassifyFinal("250", "OK");
  }

  lemma PhaseText(phase: string)
    ensures PhaseReply(phase) == ["250" + "-" + (PHASE_KEY + phase), "250" + " " + "OK"]
  {
    KeyText();
    Associate("250" + "-", PHASE_KEY, phase);
    assert "250" + " " + "OK" == "250 OK";
  }

  lemma KeyText()
    ensures "250" + "-" + PHASE_KEY == "250-status/bootstrap-phase="
  {}

  lemma PhaseReplySendable(phase: string)
    requires '\n' !in phase
    ensures Sendable(PhaseReply(phase))
  {
    PhaseClassified(phase);
    hide Stops, Classify;
    var texts := PhaseReply(phase);
    assert '\n' !in texts[0] && '\n' !in texts[1] by { PhaseHasNoLf(phase); }
    hide PhaseReply;
  }

  lemma PhaseHasNoLf(phase: string)
    requires '\n' !in phase
    ensures '\n' !in "250-status/bootstrap-phase=" + phase && '\n' !in "250 OK"
  {
    NoLf("250-status/bootstrap-phase=", "", phase);
    assert "250-status/bootstrap-phase=" + "" + phase == "250-status/bootstrap-phase=" + phase;
  }

  lemma NoLf(a: string, b: string, c: string)
    requires '\n' !in a && '\n' !in b && '\n' !in c
    ensures '\n' !in a + b + c
  {}

  /** Asynchronous events, one final line each. */
  function AsyncLines(events: seq<string>): (texts: seq<string>)
    ensures |texts| == |events|
    ensures forall i | 0 <= i < |events| :: texts[i] == "650" + " " + events[i]
  {
    seq(|events|, i requires 0 <= i < |events| => "650" + " " + events[i])
  }

  function AsyncCalls(events: seq<string>): seq<StringCall> {
    seq(|events|, i requires 0 <= i < |events| => StringCall(Async, events[i]))
  }

  lemma {:induction false} AsyncFold(calls: seq<StringCall>, events: seq<string>)
    ensures FoldTexts(Setevents(Async, calls), AsyncLines(events), SeteventsLine)
         == Setevents(Async, calls + AsyncCalls(events))
    decreases |events|
  {
    if events == [] {
      assert calls + AsyncCalls(events) == calls;
    } else {
      KnownCodes();
      ClassifyFinal("650", events[0]);
      assert AsyncLines(events)[1..] == AsyncLines(events[1..]);
      AsyncFold(calls + [StringCall(Async, events[0])], events[1..]);
      assert calls + [StringCall(Async, events[0])] + AsyncCalls(events[1..]) == calls + AsyncCalls(events);
    }
  }

  /** However the stream is cut, `250 OK` followed by n event lines makes exactly n calls, one
      for each event, in order. */
  lemma SeteventsFolds(events: seq<string>, chunks: seq<string>)
    requires forall i | 0 <= i < |events| :: '\n' !in events[i]
    requires Flatten(chunks) == Encode(["250" + " " + "OK"] + AsyncLines(events))
    ensures Feed(Setevents(Ok, []), chunks, Plain(SeteventsLine)).client.calls == AsyncCalls(events)
  {
    KnownCodes();
    ClassifyFinal("250", "OK");
    assert '\n' !in "250" + " " + "OK" by { NoLf("250", " ", "OK"); }
    hide Classify, Stops;
    AcceptedFolds("250" + " " + "OK", "OK", events, chunks);
  }

  lemma AcceptedFolds(first: string, text: string, events: seq<string>, chunks: seq<string>)
    requires '\n' !in first && !Stops(first) && Classify(first) == Reply(Ok, ' ', text)
    requires forall i | 0 <= i < |events| :: '\n' !in events[i]
    requires Flatten(chunks) == Encode([first] + AsyncLines(events))
    ensures Feed(Setevents(Ok, []), chunks, Plain(SeteventsLine)).client.calls == AsyncCalls(events)
  {
    AsyncSendable(first, events);
    ChunksDoNotMatter(Setevents(Ok, []), [first] + AsyncLines(events), chunks, SeteventsLine);
    hide Classify, Stops, Encode, AsyncLines, AsyncCalls, Feed;
    assert ([first] + AsyncLines(events))[1..] == AsyncLines(events);
    AsyncFold([], events);
    assert [] + AsyncCalls(events) == AsyncCalls(events);
  }

  lemma AsyncSendable(first: string, events: seq<string>)
    requires '\n' !in first && !Stops(first) && forall i | 0 <= i < |events| :: '\n' !in events[i]
    ensures Sendable([first] + AsyncLines(events))
  {
    KnownCodes();
    forall i | 0 <= i < |events| ensures !Stops(AsyncLines(events)[i]) {
      ClassifyFinal("650", events[i]);
    }
  }

  /** A line with another code than the one expected, 250 first and 650 then, makes one call with
      UNEXPECTED_STATUS; one with the code expected that is not final, with UNEXPECTED_REPLY. What
      is expected does not change. */
  lemma SeteventsRefuses(c: Setevents, code: string, kind: char, text: string)
    requires |code| == 3 && AllDigits(code) && (c.expected == Ok || c.expected == Async)
    ensures var c', wanted := SeteventsLine(c, Classify(code + [kind] + text)), if c.expected == Ok then "250" else "650";
            && (code != wanted ==> c' == c.(calls := c.calls + [StringCall(UnexpectedStatus, "")]))
            && (code == wanted && kind != ' ' ==> c' == c.(calls := c.calls + [StringCall(UnexpectedReply, "")]))
  {
    StatusNamesCode(code, kind, text);
    hide Classify;
  }

  // ----- Void replies -----

  /** do_void_cb, and the callback of connect_and_authenticate, which branches alike. */
  function VoidStatus(r: Reply): OnionStatus {
    if r.status != Ok then r.status
    else if r.kind != ' ' then UnexpectedReply
    else r.status
  }

  // ----- Bootstrap progress -----

  datatype Parsed = Parsed(status: OnionStatus, value: int)

  const PROGRESS_KEY := "PROGRESS="

  /** parse_bootstrap_progress; `phase` is what the output variable held before. */
  function ParseProgress(s: string, phase: int): Parsed {
    var vec := Tokens(s);
    if |vec| < 3 then Parsed(ExpectedMoreTokens, phase)
    else if vec[0] != "NOTICE" then Parsed(ExpectedNoticeToken, phase)
    else if vec[1] != "BOOTSTRAP" then Parsed(ExpectedBootstrapToken, phase)
    else if !(PROGRESS_KEY <= vec[2]) then Parsed(ExpectedProgressKey, phase)
    else ParseDigits(vec[2][|PROGRESS_KEY|..], 3, phase)
  }

  /** The common end of the integer parsers. */
  function ParseDigits(s: string, width: nat, otherwise: int): Parsed {
    if |s| > width then Parsed(TooManyDigits, otherwise)
    else if !AllDigits(s) then Parsed(NotADigit, otherwise)
    else Parsed(Ok, Atoi(s))
  }

  method CheckDigits(s: string, width: nat, otherwise: int) returns (r: Parsed)
    ensures r == ParseDigits(s, width, otherwise)
  {
    if |s| > width { return Parsed(TooManyDigits, otherwise); }
    for i := 0 to |s|
      invariant forall j | 0 <= j < i :: IsDigit(s[j])
    {
      if !IsDigit(s[i]) { return Parsed(NotADigit, otherwise); }
    }
    r := Parsed(Ok, Atoi(s));
  }

  method ParseBootstrapProgress(s: string, phase: int) returns (r: Parsed)
    ensures r == ParseProgress(s, phase)
  {
    var vec := Tokenize(s);
    if |vec| < 3 { return Parsed(ExpectedMoreTokens, phase); }
    if vec[0] != "NOTICE" { return Parsed(ExpectedNoticeToken, phase); }
    if vec[1] != "BOOTSTRAP" { return Parsed(ExpectedBootstrapToken, phase); }
    if !(PROGRESS_KEY <= vec[2]) { return Parsed(ExpectedProgressKey, phase); }
    vec := vec[2 := vec[2][|PROGRESS_KEY|..]];
    r := CheckDigits(vec[2], 3, phase);
  }

  /** A phase as tor prints it: the progress, then whatever follows after a space. */
  function PrintProgress(n: nat, more: string): string {
    "NOTICE BOOTSTRAP PROGRESS=" + Decimal(n) + (if more == "" then "" else [' '] + more)
  }

  lemma DigitsParseBack(n: nat, width: nat, otherwise: int)
    requires width > 0
    ensures ParseDigits(Decimal(n), width, otherwise) == if n < Pow10(width) then Parsed(Ok, n) else Parsed(TooManyDigits, otherwise)
  {
    AtoiOfDecimal(n);
    DecimalWidth(n, width);
  }

  lemma TokensOfProgress(n: nat, more: string)
    ensures Tokens(PrintProgress(n, more)) == ["NOTICE", "BOOTSTRAP", PROGRESS_KEY + Decimal(n)] + Tokens(more)
  {
    var head := ["NOTICE", "BOOTSTRAP", PROGRESS_KEY + Decimal(n)];
    PrintedHead(Decimal(n));
    ProgressToken(n);
    assert forall i | 0 <= i < |head| :: IsToken(head[i]);
    hide IsToken, SpaceJoin, Tokens;
    TokensAfter(head, more);
  }

  lemma ProgressToken(n: nat)
    ensures IsToken("NOTICE") && IsToken("BOOTSTRAP") && IsToken(PROGRESS_KEY + Decimal(n))
  {
    var digits := Decimal(n);
    assert IsToken(PROGRESS_KEY);
    forall i | 0 <= i < |digits| ensures !IsSpace(digits[i]) {
      assert IsDigit(digits[i]);
    }
  }

  lemma TokensAfter(head: seq<string>, more: string)
    requires forall i | 0 <= i < |head| :: IsToken(head[i])
    ensures Tokens(SpaceJoin(head) + (if more == "" then "" else [' '] + more)) == head + Tokens(more)
  {
    TokensOfJoin(head);
    hide Tokens, SpaceJoin, IsToken;
    if more == "" {
      NoTokens(more);
      assert SpaceJoin(head) + "" == SpaceJoin(head);
      assert head + [] == head;
    } else {
      TokensOfConcat(SpaceJoin(head), ' ', more);
      Associate(SpaceJoin(head), [' '], more);
    }
  }

  lemma NoTokens(s: string)
    requires s == ""
    ensures Tokens(s) == []
  {}

  /** Progress parses back from its printed form exactly up to 999. */
  lemma ProgressRoundTrip(n: nat, more: string, phase: int)
    ensures ParseProgress(PrintProgress(n, more), phase) == if n <= 999 then Parsed(Ok, n) else Parsed(TooManyDigits, phase)
  {
    hide PrintProgress, Tokens;
    TokensOfProgress(n, more);
    AfterPrefix(PROGRESS_KEY, Decimal(n));
    DigitsParseBack(n, 3, phase);
    PowersOfTen();
  }

  /** A number that ParseDigits accepts has at most as many digits as the width. */
  lemma ParsedIsBounded(s: string, width: nat, otherwise: int)
    requires ParseDigits(s, width, otherwise).status == Ok
    ensures 0 <= ParseDigits(s, width, otherwise).value < Pow10(width)
  {
    AtoiBound(s);
    Pow10Grows(|s|, width);
  }

  lemma {:induction false} Pow10Grows(a: nat, b: nat)
    requires a <= b
    ensures Pow10(a) <= Pow10(b)
    decreases b
  {
    if a < b {
      Pow10Grows(a, b - 1);
    }
  }

  lemma PowersOfTen()
    ensures Pow10(3) == 1000 && Pow10(5) == 100000
  {
    assert Pow10(1) == 10 && Pow10(2) == 100;
    assert Pow10(4) == 10000;
  }

  /** Whatever the string, a phase that is reported lies between 0 and 999; the documentation
      promises 100. */
  lemma ProgressIsBounded(s: string, phase: int)
    requires ParseProgress(s, phase).status == Ok
    ensures 0 <= ParseProgress(s, phase).value <= 999
  {
    hide ParseDigits, Tokens, Pow10;
    PowersOfTen();
    ParsedIsBounded(Tokens(s)[2][|PROGRESS_KEY|..], 3, phase);
  }

  /** What is refused, and how: less than three tokens; a first token other than NOTICE, a second
      other than BOOTSTRAP, a third that does not begin with PROGRESS=; what follows there when it
      has more than three characters, or one that is not a digit. The number does not change. */
  lemma ProgressRefusals(tokens: seq<string>, more: string, phase: int)
    requires forall i | 0 <= i < |tokens| :: IsToken(tokens[i])
    ensures |tokens| < 3 ==> ParseProgress(SpaceJoin(tokens), phase) == Parsed(ExpectedMoreTokens, phase)
    ensures |tokens| == 3 ==>
              var s := SpaceJoin(tokens) + if more == "" then "" else [' '] + more;
              ParseProgress(s, phase) ==
              if tokens[0] != "NOTICE" then Parsed(ExpectedNoticeToken, phase)
              else if tokens[1] != "BOOTSTRAP" then Parsed(ExpectedBootstrapToken, phase)
              else if !("PROGRESS=" <= tokens[2]) then Parsed(ExpectedProgressKey, phase)
              else if |tokens[2]| > 12 then Parsed(TooManyDigits, phase)
              else if exists i :: 9 <= i < |tokens[2]| && tokens[2][i] !in "0123456789" then Parsed(NotADigit, phase)
              else Parsed(Ok, Atoi(tokens[2][9..]))
  {
    hide Tokens, SpaceJoin, IsToken;
    if |tokens| < 3 {
      TokensOfJoin(tokens);
    }
    if |tokens| == 3 {
      TokensAfter(tokens, more);
      if "PROGRESS=" <= tokens[2] {
        DigitsAfter(tokens[2], 9);
      }
    }
  }

  /** The characters of `s` from `start` on are digits, or one of them is not. */
  lemma DigitsAfter(s: string, start: nat)
    requires start <= |s|
    ensures AllDigits(s[start..]) <==> !exists i :: start <= i < |s| && s[i] !in "0123456789"
  {
    forall i | 0 <= i < |s| ensures IsDigit(s[i]) <==> s[i] in "0123456789" {
      DigitsAre(s[i]);
    }
    if AllDigits(s[start..]) {
      forall i | start <= i < |s| ensures s[i] in "0123456789" {
        assert s[start..][i - start] == s[i];
      }
    } else {
      var k :| 0 <= k < |s[start..]| && !IsDigit(s[start..][k]);
      assert s[start + k] !in "0123456789";
    }
  }

  /** No digit at all is taken for 0. */
  lemma NoDigitsMeansZero(phase: int)
    ensures ParseProgress("NOTICE BOOTSTRAP PROGRESS=", phase) == Parsed(Ok, 0)
  {
    hide Tokens, SpaceJoin, IsToken, ParseProgress, ParseDigits;
    KeyTokens();
    var head := ["NOTICE", "BOOTSTRAP", PROGRESS_KEY + ""];
    assert PROGRESS_KEY + "" == PROGRESS_KEY;
    TokensOfJoin(head);
    PrintedHead("");
    assert "NOTICE BOOTSTRAP PROGRESS=" + "" == "NOTICE BOOTSTRAP PROGRESS=";
    ThreeTokens(SpaceJoin(head), "", phase);
    EmptyParses(3, phase);
  }

  lemma BareKey()
    ensures "NOTICE" + " " + ("BOOTSTRAP" + " " + PROGRESS_KEY) == "NOTICE BOOTSTRAP PROGRESS="
  {}

  lemma PrintedHead(digits: string)
    ensures SpaceJoin(["NOTICE", "BOOTSTRAP", PROGRESS_KEY + digits]) == "NOTICE BOOTSTRAP PROGRESS=" + digits
  {
    hide SpaceJoin;
    JoinThree("NOTICE", "BOOTSTRAP", PROGRESS_KEY + digits);
    BareKey();
    Regroup("NOTICE" + " ", "BOOTSTRAP" + " ", PROGRESS_KEY, digits);
  }

  lemma Regroup<T>(a: seq<T>, b: seq<T>, c: seq<T>, d: seq<T>)
    ensures a + (b + (c + d)) == a + (b + c) + d
  {}

  lemma ThreeTokens(s: string, digits: string, phase: int)
    requires Tokens(s) == ["NOTICE", "BOOTSTRAP", PROGRESS_KEY + digits]
    ensures ParseProgress(s, phase) == ParseDigits(digits, 3, phase)
  {
    hide Tokens, ParseDigits;
    AfterPrefix(PROGRESS_KEY, digits);
  }

  lemma KeyTokens()
    ensures IsToken("NOTICE") && IsToken("BOOTSTRAP") && IsToken(PROGRESS_KEY)
  {}

  lemma JoinThree(a: string, b: string, c: string)
    ensures SpaceJoin([a, b, c]) == a + " " + (b + " " + c)
  {
    assert [a, b, c][1..] == [b, c] && [b, c][1..] == [c];
    assert SpaceJoin([c]) == c;
    assert SpaceJoin([b, c]) == b + " " + c;
  }

  lemma EmptyParses(width: nat, otherwise: int)
    ensures ParseDigits("", width, otherwise) == Parsed(Ok, 0)
  {}

  // ----- Integer configuration variables -----

  /** getconf_int */
  function GetconfInt(r: Reply, name: string, default_: int): Parsed {
    if r.status != Ok then Parsed(r.status, 0)
    else if r.kind != ' ' then Parsed(UnexpectedReply, 0)
    else if r.text == name then Parsed(Ok, default_)
    else if !(name <= r.text) then Parsed(ExpectedVarNameKey, 0)
    else ParseDigits(r.text[|name| + 1..], 5, 0)
  }

  method ReadConfInt(status: OnionStatus, kind: char, s: string, name: string, default_: int) returns (r: Parsed)
    ensures r == GetconfInt(Reply(status, kind, s), name, default_)
  {
    if status != Ok { return Parsed(status, 0); }
    if kind != ' ' { return Parsed(UnexpectedReply, 0); }
    if s == name { return Parsed(Ok, default_); }
    if !(name <= s) { return Parsed(ExpectedVarNameKey, 0); }
    r := CheckDigits(s[|name| + 1..], 5, 0);
  }

  /** A variable parses back from the final line of a GETCONF reply exactly up to 99999; the
      bare name gives the default. The separator is not looked at. */
  lemma ConfRoundTrip(name: string, separator: char, n: nat, default_: int)
    ensures GetconfInt(Classify("250" + " " + (name + [separator] + Decimal(n))), name, default_) ==
            if n <= 99999 then Parsed(Ok, n) else Parsed(TooManyDigits, 0)
    ensures GetconfInt(Classify("250" + " " + name), name, default_) == Parsed(Ok, default_)
  {
    KnownCodes();
    var s := name + [separator] + Decimal(n);
    ClassifyFinal("250", s);
    ClassifyFinal("250", name);
    assert s[|name| + 1..] == Decimal(n);
    assert s[..|name|] == name;
    DigitsParseBack(n, 5, 0);
    PowersOfTen();
  }

  /** Whatever the reply, a number that is read from it lies between 0 and 99999. */
  lemma ConfIsBounded(r: Reply, name: string, default_: int)
    requires GetconfInt(r, name, default_).status == Ok
    ensures r.text == name || 0 <= GetconfInt(r, name, default_).value <= 99999
  {
    hide ParseDigits, Pow10;
    PowersOfTen();
    if r.text != name {
      ParsedIsBounded(r.text[|name| + 1..], 5, 0);
    }
  }

  /** What is refused, and how: a code other than 250, a line that is not final, a text that does
      not begin with the name. */
  lemma ConfRefusals(code: string, kind: char, text: string, name: string, default_: int)
    requires |code| == 3 && AllDigits(code)
    ensures var p := GetconfInt(Classify(code + [kind] + text), name, default_);
            && (code != "250" ==>
                  p == Parsed(if code == "552" then UnrecognizedEntity else if code == "650" then Async else UnknownStatusError, 0))
            && (code == "250" && kind != ' ' ==> p == Parsed(UnexpectedReply, 0))
            && (code == "250" && kind == ' ' && !(name <= text) ==> p == Parsed(ExpectedVarNameKey, 0))
  {
    StatusNamesCode(code, kind, text);
    hide Classify, ParseDigits, Atoi;
  }

  /** What follows the name and one character more is refused when it has more than five characters,
      or one that is not a digit. */
  lemma ConfDigits(name: string, separator: char, digits: string, default_: int)
    ensures GetconfInt(Classify("250" + " " + (name + [separator] + digits)), name, default_) ==
            if |digits| > 5 then Parsed(TooManyDigits, 0)
            else if exists i :: 0 <= i < |digits| && digits[i] !in "0123456789" then Parsed(NotADigit, 0)
            else Parsed(Ok, Atoi(digits))
  {
    KnownCodes();
    ClassifyFinal("250", name + [separator] + digits);
    hide Classify, Atoi, ParseDigits;
    ConfText(name, separator, digits, default_);
    DigitsOrNot(digits, 5, 0);
  }

  lemma ConfText(name: string, separator: char, digits: string, default_: int)
    ensures GetconfInt(Reply(Ok, ' ', name + [separator] + digits), name, default_) == ParseDigits(digits, 5, 0)
  {
    hide ParseDigits;
    var s := name + [separator] + digits;
    assert s[..|name|] == name && s[|name| + 1..] == digits;
  }

  lemma DigitsOrNot(digits: string, width: nat, otherwise: int)
    ensures ParseDigits(digits, width, otherwise) ==
            if |digits| > width then Parsed(TooManyDigits, otherwise)
            else if exists i :: 0 <= i < |digits| && digits[i] !in "0123456789" then Parsed(NotADigit, otherwise)
            else Parsed(Ok, Atoi(digits))
  {
    hide Atoi;
    assert digits[0..] == digits;
    DigitsAfter(digits, 0);
  }

  // ----- AUTHENTICATE -----

  const AUTHENTICATE := "AUTHENTICATE"

  function CmdAuthenticate(param: string): string {
    Command(AUTHENTICATE, param) + CRLF
  }

  function Command(command: string, param: string): string {
    if param != "" then command + " " + param else command
  }

  /** What a server makes of the line: the cookie in hexadecimal after one space. */
  function DecodeCommand(command: string, line: string): Option<string> {
    if line == command then Some("")
    else if command + " " <= line && |line[|command| + 1..]| % 2 == 0 then Some(Unhex(line[|command| + 1..]))
    else None
  }

  lemma CommandLine(text: string)
    requires '\n' !in text
    ensures FirstLine(text + CRLF) == Some(Cut(Line(text, CRLF), ""))
  {
    FirstLineUnique(Line(text, CRLF), "");
    assert text + CRLF + "" == text + CRLF;
  }

  lemma HexHasNoLf(cookie: string)
    requires forall i | 0 <= i < |cookie| :: IsByte(cookie[i])
    ensures '\n' !in Hex(cookie)
  {
    var hex := Hex(cookie);
    hide Hex;
    assert forall i | 0 <= i < |hex| :: hex[i] != '\n';
  }

  lemma CommandIsLine(command: string, hex: string)
    requires '\n' !in command && '\n' !in hex
    ensures FirstLine(Command(command, hex) + CRLF) == Some(Cut(Line(Command(command, hex), CRLF), ""))
  {
    hide FirstLine;
    NoLf(command, " ", hex);
    CommandLine(Command(command, hex));
  }

  lemma DecodeOfCommand(command: string, hex: string)
    requires |hex| % 2 == 0
    ensures DecodeCommand(command, Command(command, hex)) == Some(Unhex(hex))
  {
    hide Unhex;
    if hex != "" {
      AfterPrefix(command + " ", hex);
      assert |command + " "| == |command| + 1;
    } else {
      assert Unhex("") == "" by { UnhexOfNothing(); }
    }
  }

  lemma UnhexOfNothing()
    ensures Unhex("") == ""
  {}

  /** Any cookie, sent in hexadecimal, is one CRLF line that decodes back to it. */
  lemma CookieRoundTrip(cookie: string)
    requires forall i | 0 <= i < |cookie| :: IsByte(cookie[i])
    ensures FirstLine(CmdAuthenticate(Hex(cookie))).Some?
    ensures var Cut(line, rest) := FirstLine(CmdAuthenticate(Hex(cookie))).value;
            rest == "" && line.eol == CRLF && DecodeCommand(AUTHENTICATE, line.text) == Some(cookie)
  {
    hide FirstLine, CmdAuthenticate, Command, DecodeCommand, Hex, Unhex;
    HexHasNoLf(cookie);
    UnhexOfHex(cookie);
    AuthenticateLine(Hex(cookie));
  }

  lemma AuthenticateLine(hex: string)
    requires '\n' !in hex && |hex| % 2 == 0
    ensures FirstLine(CmdAuthenticate(hex)) == Some(Cut(Line(Command(AUTHENTICATE, hex), CRLF), ""))
    ensures DecodeCommand(AUTHENTICATE, Command(AUTHENTICATE, hex)) == Some(Unhex(hex))
  {
    hide FirstLine, Command, DecodeCommand, Unhex;
    CommandIsLine(AUTHENTICATE, hex);
    DecodeOfCommand(AUTHENTICATE, hex);
  }
}
