# Measurement-kit networking core: a verified model

This project models the event-driven core of measurement-kit's networking code in Dafny and proves
what it does over all inputs, all fragmentations of a stream and all runs. `dafny verify
dfyconfig.toml` checks it.

## What is modelled

**Bufferevent lifetime** (`Lifetime.dfy`, `LifetimeProofs.dfy`, `LifetimeSafety.dfy`,
`Bufferevent.dfy`). A wrapper is reference counted. One count belongs to the `varp` that libevent
keeps as its opaque pointer; the others belong to C++ variables, to closures stored in callback
slots, and to the copy that `Func` makes of a closure while it runs. A wrapper that only libevent
knows is condemned when a trampoline returns and deleted by a timer. An SSL filter steals the raw
handle of its underlying wrapper. `Lifetime` is the state machine; `Bufferevents.Heap` performs the
same operations in place, each proved to be the step of that name.

**Evbuffer** (`Lines.dfy`, `Evbuffer.dfy`). A byte queue kept as a chain of extents, proved against
the flat string that the chain spells.

**SOCKS5 handshake** (`Socks.dfy`, `SocksProofs.dfy`). An incremental parser of sections 3 to 6 of
RFC 1928. One read event runs the callback once; the callback that the method reply installs waits
for the next read event. Whether plain `char` is signed is a parameter, because the length octet of
a domain name is read through it.

**Tor control connection** (`Text.dfy`, `OnionCtrl.dfy`, `OnionRecv.dfy`, `OnionReplies.dfy`,
`Lockstep.dfy`). The receive loop, the classification of reply lines (section 2.3 of the Tor control
protocol specification), the folding of replies into user calls, the printers and parsers, and the
pairing of replies with commands. A callback is a function of the client it acts upon, of the bytes
still in the input buffer, and of the line; the loop goes on with the callback it started with.

**Tor poller** (`OnionPoller.dfy`, `OnionPollerProofs.dfy`, `OnionPollerRuns.dfy`,
`OnionPollerSafety.dfy`, `OnionPollerFree.dfy`, `OnionPollerWitness.dfy`). `enable_tor` as a client of
the connection above: authenticate, enable the network, poll once a second, give up after `timeout`
polls. `OnionPollerFree.dfy` drops the assumption that no failure arrives while the timer is pending;
the last file gives runs that reach each of the outcomes.

**Object ordering** (`Object.dfy`). `Object::operator<` on nested lists and dictionaries.

**Buffered drivers** (`Echo.dfy`, `Sendrecv.dfy`). The event echo loop, and `sendrecv` with an output
string.

Specifications are functions on values; classes hold the fields that the C++ objects and closures
update, and each method is proved to compute what the function says.

## Environment

- libevent appends received bytes to the input buffer, drains the output buffer, runs the callback
  that is in the slot, and fires timers. It does not run a callback of a bufferevent from within
  another callback of the same one. The SSL filter replaces the callbacks of the handle it takes.
- The kernel's answers to `read` and `write` in the echo loop are parameters.
- The control server answers each command once, after the command was written and the write callback
  ran. Lines are well formed and only the last line of a reply has a space after its code. For the
  poller, replies to AUTHENTICATE and SETCONF have one line, and the earlier lines of a reply to
  GETINFO are `250-status/bootstrap-phase=` lines. `LongReplyCallsAndGoesOn` and
  `LongReplyGoesOnExactlyWhen` show why.
- A client of the control connection sends from a callback only on the last line of a reply
  (`Lockstep.Patient`), and from elsewhere, a timer or the connection event, only when every command
  it issued has been answered (`Lockstep.Enabled`). Of the poller both are proved
  (`PollerIsPatient`, `TickKeeps`).
- No connection event arrives while the poller's timer is pending (`OnionPoller.Quiet`), except in
  `OnionPollerFree.dfy`, where `CalledOnceExactlyWhenQuiet` shows exactly what that is needed for.
- `Double` is a real number, so there is no NaN.

## Where the code falls short of what one might expect

- The order of objects puts an object that contains a None before itself; it is a strict total order
  on a set of keys exactly when all are free of None (`FitForKeysIffNoneFree`).
- With a signed `char`, a SOCKS reply whose domain name is longer than 127 octets is waited for
  forever or cut short (`ReplyTakenIff`, `ReceivedOnSuccess`).
- A SOCKS reply that arrives in the same read event as the end of the method reply waits for one more
  read event (`AgreesIff`).
- A read event leaves complete lines in the buffer if and only if an empty or malformed line, other
  than the last, is among those that are there (`LeftoverExactlyWhenStopped`); `\r\n250 OK\r\n` does it
  (`EmptyLineLeavesReply`).
- `parse_bootstrap_progress` is documented to give a phase from 0 to 100; the code accepts any number
  of at most three digits (`ProgressIsBounded`, `ProgressRoundTrip`), also none
  (`NoDigitsMeansZero`), and the model follows the code.
- The poller's user is called more than once if and only if the connection fails while the timer is
  pending (`CalledOnceExactlyWhenQuiet`, for runs that have come to their end): the old callbacks are
  still installed and report the failure, the timer then goes on with the script, and whatever ends
  the script is reported as well.
- The poller goes on after it reported that AUTHENTICATE failed when the reply has two lines, the
  second accepts, and both become complete in one read event (`LongReplyGoesOnExactlyWhen`).
- `getconf_int` skips the character after the variable name without looking at it.
- The echo loop ends before end of file when one write empties a buffer of at least 1048576 bytes
  (`ClosesExactlyWhen`, `CloseBeforeEof`), and it survives a write error while it still wants to read
  (`WriteErrorMayContinue`, `WriteErrorReached`).
- Deferred deletion does not protect a raw handle whose callback gives it to a filter made on another
  `EventBase`, drops the filter and runs the loop of that base (`StepKeepsRunningRaws`,
  `NestedLoopFreesRunning`). The loop of its own base it cannot run: libevent does not re-enter it.

## Model

| member | source | states |
|---|---|---|
| LifetimeProofs.StepKeepsInv | src/common/libevent.cpp:18-53 | every step keeps the protocol's invariant: counts equal references, one pending deletion per condemned wrapper, owners and raw handles point at each other |
| LifetimeSafety.ReachableInRange | src/common/libevent.hpp:317-343 | every identifier in a reachable state denotes something, so the step function applies in all of them and no run is cut short |
| LifetimeSafety.OneOwner | src/common/libevent.hpp:409-444 | in every reachable state a raw bufferevent has at most one owner, wrapper or filter, and was freed at most once; once freed neither a wrapper nor a live filter owns it |
| LifetimeSafety.InUseIsAlive | src/common/libevent.cpp:34-53 | a wrapper that a variable, a stored or a running closure holds, or whose callback runs, is neither condemned nor deleted and its raw handle was not freed |
| LifetimeSafety.CapturedStaysAlive | include/measurement_kit/common/func.hpp:28-32 | from the start of a callback to its end every captured handle stays alive, whatever setcb, nested callbacks or other steps do in between |
| LifetimeSafety.CondemnedUntilDeleted | src/common/libevent.cpp:18-32 | a condemned wrapper keeps count 1 until its own timer, which runs at most once; after that its count is 0 and its raw handle is gone |
| LifetimeSafety.IgnoredIsCondemned | src/common/libevent.cpp:34-53 | when a trampoline returns, or finds nothing to run, its wrapper is condemned if and only if nobody but libevent refers to it; then exactly one deletion is pending and no raw handle can call it |
| LifetimeSafety.CondemnedIsFreed | src/common/libevent.cpp:25-31 | the pending deletion can run, and frees the raw handle that the wrapper still owns, which was not freed before |
| LifetimeSafety.CallbackRunsExactlyWhenWanted | src/common/libevent.cpp:36-37 | the closure in the slot runs if and only if there is one and somebody besides libevent refers to the wrapper |
| LifetimeSafety.NewCanBeCalled | src/common/libevent.hpp:338-342 | the raw handle of a new wrapper calls it, for every kind of callback, and the caller holds it |
| LifetimeSafety.StolenIsSilent | src/common/libevent.hpp:412-443 | after a steal the filter calls the new wrapper, the stolen handle calls nobody, and the old wrapper has neither handle nor closures |
| LifetimeSafety.StoredIsRun | src/common/libevent.hpp:353-358 | the closure that setcb stored is the one the next trampoline runs |
| LifetimeSafety.CopyThenDrop | include/measurement_kit/common/func.hpp:30-32 | copying a handle adds one reference, and dropping the copy restores the state |
| LifetimeSafety.FreedByItsWrapper | src/common/libevent.hpp:327-333 | a raw handle is freed only by the deletion of the wrapper responsible for it, directly or through filters, and that wrapper is not in use |
| LifetimeSafety.FreesBelow | src/common/libevent.hpp:427-433 | freeing a handle frees exactly the handles that closing filters below it took, each once |
| LifetimeSafety.StepKeepsRunningRaws | src/common/libevent.cpp:23-31 | a step frees the raw handle of a running callback if and only if it is a timer, run from inside that callback, that deletes a filter above that handle |
| LifetimeSafety.NotFreedDuringCallback | src/common/libevent.cpp:23-31 | in every run whose timers fire between callbacks, no raw handle is freed while one of its callbacks runs |
| LifetimeSafety.NestedLoopFreesRunning | src/common/libevent.hpp:412-426 | a concrete run, with the loop of a second event base run from a callback, frees a handle under that callback |
| Bufferevents.Heap.SocketNew | src/common/libevent.hpp:317-343 | performs the step New in place, or nothing when construction fails |
| Bufferevents.Heap.OpensslFilterNew | src/common/libevent.hpp:409-444 | performs the step Steal: the underlying wrapper loses its handle and its closures, the new one owns the filter |
| Bufferevents.Heap.Setcb | src/common/libevent.hpp:353-358 | performs the step SetCb by three slot assignments in source order, never destroying a wrapper |
| Bufferevents.Heap.Assign | include/measurement_kit/common/func.hpp:21-22 | replaces one closure: copies the new handles, then releases the old ones, keeping counts right |
| Bufferevents.Heap.Copy | include/measurement_kit/common/func.hpp:30-30 | a loop over the captured handles adds each occurrence to its count |
| Bufferevents.Heap.Destroy | include/measurement_kit/common/func.hpp:32-32 | a loop over the captured handles takes each occurrence off its count, none of which reaches zero |
| Bufferevents.Heap.Trampoline | src/common/libevent.cpp:34-38 | performs the step BeginCallback: the closure runs from a copy, only if the wrapper is not unique |
| Bufferevents.Heap.Return | src/common/libevent.cpp:39-41 | performs the step EndCallback: drops the copy and condemns the wrapper if only libevent holds it |
| Bufferevents.Heap.IsIgnoredByCxx | src/common/libevent.cpp:18-32 | silences the raw handle, if not stolen, and schedules exactly one deletion |
| Bufferevents.Heap.Delete | src/common/libevent.cpp:31-31 | performs the step LoopTick: the count of `varp` is the last one, so the deleter runs |
| Bufferevents.Heap.DestroyWrapper | src/common/libevent.hpp:327-333 | frees the raw handle first, then the closures of the object |
| Bufferevents.ThreeAssignments | src/common/libevent.hpp:353-358 | assigning event, read and write closures one by one comes to replacing all of them at once |
| Lines.FirstLineSound | src/common/libevent.hpp:266-277 | a line cut off is a line in the CRLF style followed by the rest; none is found exactly when there is no LF |
| Lines.FirstLineUnique | src/common/libevent.hpp:266-277 | there is only one way to cut a line off a string |
| Lines.SplitGrows | src/common/libevent.hpp:266-277 | complete lines do not change when more text arrives, wherever the boundary falls |
| Lines.JoinOfSplit | src/common/libevent.hpp:266-277 | the lines of a string with their terminators, then its incomplete tail, spell the string |
| Evbuffers.DrainIsDrop | src/common/libevent.hpp:178-183 | draining the chain removes the first bytes of the flat string |
| Evbuffers.Evbuffer.Add | src/common/libevent.hpp:185-190 | appends to the flat contents |
| Evbuffers.Evbuffer.GetLength | src/common/libevent.hpp:176-176 | the sum over the extents is the length of the flat contents |
| Evbuffers.TakeAndDrop | src/common/libevent.hpp:238-255 | the bytes taken and those left make up the contents, and as many are taken as asked for or there are |
| Evbuffers.Evbuffer.Copyout | src/common/libevent.hpp:224-247 | the walk over the extents returns the first min(upto, length) bytes, for every chain and every upto |
| Evbuffers.Evbuffer.Remove | src/common/libevent.hpp:249-255 | returns those bytes and leaves the others |
| Evbuffers.Readln | src/common/libevent.hpp:266-277 | returns the text of the first line of the flat string and leaves the rest, whatever the extent boundaries |
| Evbuffers.BigEndianRoundTrip | src/common/libevent.hpp:281-289 | network byte order decodes back to the number |
| Evbuffers.MostSignificantFirst | src/common/libevent.hpp:281-289 | two and four bytes in network order weigh 256 and 1, and 2^24, 2^16, 2^8 and 1 |
| Evbuffers.AddUint8 | src/common/libevent.hpp:279-279 | appends the byte |
| Evbuffers.AddUint16 | src/common/libevent.hpp:281-284 | appends two bytes that decode to the number |
| Evbuffers.AddUint32 | src/common/libevent.hpp:286-289 | appends four bytes that decode to the number |
| Socks.Client.constructor | src/net/socks.hpp:149-156 | starts with empty buffers and only the connect event callback |
| Socks.Client.HandleEvent | src/net/socks.hpp:156-173 | on each event does what the event callback of the current phase does |
| Socks.Client.HandleMethod | src/net/socks.hpp:175-217 | consumes the method reply, ends the handshake or sends the request and installs the reply callback without running it |
| Socks.Client.SendRequest | src/net/socks.hpp:196-215 | queues the whole request, or only its head when the host is longer than 255 |
| Socks.Client.HandleReply | src/net/socks.hpp:219-265 | looks at five bytes, waits for the whole reply, and drains exactly what it reckoned |
| Socks.Client.ReplySize | src/net/socks.hpp:237-253 | reckons the size with plain char and size_t arithmetic |
| Socks.Client.HandleReadable | src/net/socks.hpp:175-265 | a read event appends the bytes and runs the one callback in the slot once |
| Socks.ParsePort | src/net/socks.hpp:110-125 | the checks and the digit loop compute the specified port or refusal |
| SocksProofs.ParseStable | src/net/socks.hpp:175-265 | more bytes never change a completed parse of the stream |
| SocksProofs.CompletedAgrees | src/net/socks.hpp:175-265 | for every stream and every fragmentation a completed handshake has the status and the leftover of the one-shot parser |
| SocksProofs.OneMoreRunAgrees | src/net/socks.hpp:219-222 | at any time one further run of the read callback brings agreement with the one-shot parser |
| SocksProofs.AgreesIff | src/net/socks.hpp:215-223 | agreement without a further run, if and only if the last read event did not bring both the end of the method reply and a complete reply |
| SocksProofs.PoliteProxyAgrees | src/net/socks.hpp:175-265 | a proxy that waits for the request before it replies never causes disagreement |
| SocksProofs.SingleCompletion | src/net/socks.hpp:154-278 | over all interleavings of events the user callback runs at most once, with the slots cleared before; the bufferevent is passed exactly with OK |
| SocksProofs.StatusFitsPhase | src/net/socks.hpp:154-278 | a finished run ended at one event, with a status that belongs to the phase and kind of that event |
| SocksProofs.EventEndsHandshake | src/net/socks.hpp:156-173 | in any state before the end, an event that is not a read tells the user, with the status of the phase that the bytes sent show; only the connection tells nothing and sends 5, 1, 0 |
| SocksProofs.GreetingOffersNoAuth | src/net/socks.hpp:167-171 | whatever was sent begins with a greeting that an RFC 1928 section 3 decoder maps to the one method 0 |
| SocksProofs.MethodReplyMeans | src/net/socks.hpp:177-208 | the answer to every method reply: version other than 5, method other than 0, host too long, or going on |
| SocksProofs.ReplyMeans | src/net/socks.hpp:220-264 | the answer to every reply: a conforming one is taken entirely with OK, another beginning or address type is refused |
| SocksProofs.TooLongSendsHead | src/net/socks.hpp:198-208 | a host that is too long is noticed after the head of the request was queued |
| SocksProofs.DecodeOfEncode | src/net/socks.hpp:198-215 | an RFC 1928 section 4 decoder maps the request back to host and port, for every host up to 255 bytes |
| SocksProofs.TotalIsRfc | src/net/socks.hpp:239-253 | the reckoned total is the length of RFC 1928 section 6 if and only if the length octet is not read as negative |
| SocksProofs.ReplyTakenIff | src/net/socks.hpp:239-260 | a conforming reply is taken exactly if and only if that holds; beyond 127 a signed char waits forever or cuts short |
| SocksProofs.SentOnSuccess | src/net/socks.hpp:167-215 | on OK the bytes sent are a greeting that decodes to the one method 0 and a request that decodes to the host and port asked for |
| SocksProofs.ReceivedOnSuccess | src/net/socks.hpp:224-264 | on OK the bytes received are the method reply, what was taken and the remaining input; what was taken is one reply if and only if the octet survives plain char |
| SocksProofs.DecimalPorts | src/net/socks.hpp:114-124 | a number printed in decimal gives the port modulo 65536 if it has up to five digits and is refused otherwise; it gives itself exactly up to 65535 |
| SocksProofs.OtherPorts | src/net/socks.hpp:114-124 | a character that is not a digit, or a sixth character, is refused; the empty string is 0 and leading zeros change nothing |
| OnionCtrl.StatusOfFailure | src/tor/onion-ctrl.hpp:674-684 | which flags of the mask give which status: a timeout counts before an error, and that before end of file |
| OnionCtrl.Connection.ReadLine | src/tor/onion-ctrl.hpp:637-669 | one pass of the loop body; if the loop goes on the buffer is shorter and the outcome of the whole loop unchanged |
| OnionCtrl.Connection.Readable | src/tor/onion-ctrl.hpp:636-670 | the loop terminates with the outcome of the recursive specification |
| OnionCtrl.Connection.Receive | src/tor/onion-ctrl.hpp:634-671 | a read event appends the bytes and then runs the loop |
| OnionRecv.LoopConsumes | src/tor/onion-ctrl.hpp:637-669 | the loop consumes the lines up to the first that stops it, dispatches them in order, and conserves the bytes |
| OnionRecv.FeedConserves | src/tor/onion-ctrl.hpp:634-671 | for every split of the stream, the consumed lines with terminators followed by the buffer equal the stream, and the lines are its first lines |
| OnionRecv.FeedDispatches | src/tor/onion-ctrl.hpp:643-668 | for every split, the callback ran on the classification of each consumed non-empty line, in order |
| OnionRecv.HealthyIsDrained | src/tor/onion-ctrl.hpp:637-669 | if no line is empty or malformed, after each read event no complete line is buffered |
| OnionRecv.LeftoverExactlyWhenStopped | src/tor/onion-ctrl.hpp:640-651 | a read event leaves a complete line in the buffer if and only if an empty or malformed line, other than the last, was among the lines in it; that line was then consumed last |
| OnionRecv.EmptyLineLeavesRest | src/tor/onion-ctrl.hpp:640-643 | whatever comes with an empty line and behind it stays in the buffer, undispatched |
| OnionRecv.EmptyLineLeavesReply | src/tor/onion-ctrl.hpp:640-643 | a concrete input: the reply in `\r\n250 OK\r\n` is not dispatched |
| OnionRecv.ChunksDoNotMatter | src/tor/onion-ctrl.hpp:634-671 | a conforming reply is folded the same way however it was cut |
| OnionReplies.Cells.ReadGetinfo | src/tor/onion-ctrl.hpp:340-362 | the receive loop with that closure acting on the cells in place ends as the specification of the loop says |
| OnionReplies.Cells.ReadSetevents | src/tor/onion-ctrl.hpp:541-561 | the same for the closure of SETEVENTS |
| OnionReplies.StatusNamesCode | src/tor/onion-ctrl.hpp:652-668 | the status of a well-formed line is OK, unrecognized entity or asynchronous if and only if its code is 250, 552 or 650; kind and text are the rest of the line |
| OnionReplies.Cells.OnGetinfoLine | src/tor/onion-ctrl.hpp:345-361 | the closure updates the shared string or calls the user as specified |
| OnionReplies.Cells.OnSeteventsLine | src/tor/onion-ctrl.hpp:545-560 | the closure updates the expected status or calls the user as specified |
| OnionReplies.MalformedLine | src/tor/onion-ctrl.hpp:644-651 | a line of less than four characters, or without three digits, is reported without its text, and exactly such lines stop the loop |
| OnionReplies.GetinfoFolds | src/tor/onion-ctrl.hpp:340-362 | under any chunking the phase line and the OK line make one call, with OK and the phase |
| OnionReplies.GetinfoRefusesOtherKeys | src/tor/onion-ctrl.hpp:350-359 | under any chunking a `250-` line that tells something else makes one call, with UNEXPECTED_REPLY, and leaves the cell alone |
| OnionReplies.GetinfoReportsCode | src/tor/onion-ctrl.hpp:346-349 | under any chunking a line with another code makes one call, with the status that the code names |
| OnionReplies.SeteventsRefuses | src/tor/onion-ctrl.hpp:546-553 | a code other than the expected one, or a line that is not final, makes one call with that complaint, and what is expected stays |
| OnionReplies.SeteventsFolds | src/tor/onion-ctrl.hpp:541-561 | under any chunking `250 OK` and n event lines make exactly n calls, in order |
| OnionReplies.ParseBootstrapProgress | src/tor/onion-ctrl.hpp:368-394 | the parser with its digit loop computes the specified result, all error statuses included |
| OnionReplies.CheckDigits | src/tor/onion-ctrl.hpp:384-393 | the loop finds the first non-digit; width is checked before |
| OnionReplies.ProgressRoundTrip | src/tor/onion-ctrl.hpp:368-394 | a printed progress parses back exactly up to 999, whatever follows it, and is refused beyond |
| OnionReplies.ProgressRefusals | src/tor/onion-ctrl.hpp:368-394 | for every list of tokens: which status refuses it, in which order, and that the number then stays; otherwise the number |
| OnionReplies.ProgressIsBounded | src/tor/onion-ctrl.hpp:384-393 | whatever the string, a phase reported with OK lies between 0 and 999 |
| OnionReplies.NoDigitsMeansZero | src/tor/onion-ctrl.hpp:380-392 | a progress without digits is taken for 0 |
| OnionReplies.ConfIsBounded | src/tor/onion-ctrl.hpp:447-459 | whatever the reply, a number read from it lies between 0 and 99999 |
| OnionReplies.ConfRefusals | src/tor/onion-ctrl.hpp:432-446 | for every code, kind and text: which status refuses the line |
| OnionReplies.ConfDigits | src/tor/onion-ctrl.hpp:447-459 | what follows the name and one character is a number of up to five digits, or refused with the right status |
| OnionReplies.ReadConfInt | src/tor/onion-ctrl.hpp:429-460 | the reader computes the specified result, all error statuses included |
| OnionReplies.ConfRoundTrip | src/tor/onion-ctrl.hpp:429-460 | a value parses back from the wire form of the reply exactly up to 99999; the bare name gives the default |
| OnionReplies.CookieRoundTrip | src/tor/onion-ctrl.hpp:268-313 | AUTHENTICATE with any cookie is a single CRLF line that decodes back to the cookie |
| Text.AuthCookieToHex | src/tor/onion-ctrl.hpp:305-313 | the loop prints two lower-case digits per byte |
| Text.UnhexOfHex | src/tor/onion-ctrl.hpp:305-313 | the printed form has twice the length and decodes back, for every cookie |
| Text.DigitsAre | src/tor/onion-ctrl.hpp:384-388 | the digits are the characters 0 to 9 |
| Text.SpacesAre | src/tor/onion-ctrl.hpp:605-606 | white space is the space and the characters 9 to 13 |
| Text.Tokenize | src/tor/onion-ctrl.hpp:602-617 | the loop computes the tokens, all non-empty and free of white space |
| Text.TokensOfConcat | src/tor/onion-ctrl.hpp:602-617 | tokenizing distributes over concatenation with white space between |
| Text.TokensOfJoin | src/tor/onion-ctrl.hpp:602-617 | tokenizing inverts joining tokens with spaces |
| Lockstep.StepKeeps | src/tor/onion-ctrl.hpp:587-671 | every step keeps: dispatched lines, buffer and wire together are the replies, and a command waits only when the previous reply is complete |
| Lockstep.CommandsFindEmptyBuffer | src/tor/onion-ctrl.hpp:587-600 | in every run of every client that sends from callbacks only on final lines, and from elsewhere only when all its commands were answered, each command is issued with an empty input buffer, even from inside the receive loop |
| Lockstep.LinesReachTheirCommand | src/tor/onion-ctrl.hpp:634-671 | in every such run the dispatched lines are a prefix of all reply lines, in order, each given to the callback of the command it answers |
| Lockstep.ImpatientClientFindsRest | src/tor/onion-ctrl.hpp:587-671 | a client that sends on any line of a reply but the last finds exactly the lines behind it in the buffer when the reply arrives in one read event |
| Lockstep.PrefixOfEncode | src/common/libevent.hpp:266-277 | any prefix of the wire form of some lines splits into the first of them and the beginning of the next |
| OnionPoller.Controller.constructor | src/tor/onion-poller.hpp:56-58 | enable_tor starts in the state that waits for the connection |
| OnionPoller.Controller.ConnectEvent | src/tor/onion-ctrl.hpp:251-261 | closes and reports CONNECT_FAILED, or sends AUTHENTICATE |
| OnionPoller.Controller.Line | src/tor/onion-poller.hpp:59-137 | the lambdas of enable_tor and wait_for_circuit_, run in place on a reply line, do what the specification says |
| OnionPoller.Controller.ReadLine | src/tor/onion-ctrl.hpp:637-669 | one pass of the receive loop with the closures acting on the controller in place |
| OnionPoller.Controller.Readable | src/tor/onion-ctrl.hpp:634-671 | the receive loop, its closures acting in place and sending further commands, ends with the buffer and the controller that the specification of the loop gives |
| OnionPoller.Controller.Wait | src/tor/onion-poller.hpp:99-118 | wait_for_circuit_: starts the timer, or disables the network when the counter has reached the timeout |
| OnionPoller.Controller.Timer | src/tor/onion-poller.hpp:119-122 | the timer sends GETINFO with a fresh result cell |
| OnionPollerProofs.FinalLineDecides | src/tor/onion-poller.hpp:59-137 | on the last line of a reply the callback does what the verdict on the whole reply asks for |
| OnionPollerRuns.EventKeeps | src/tor/onion-poller.hpp:56-139 | every event of the environment keeps the poller's invariant |
| OnionPollerRuns.PollerIsPatient | src/tor/onion-poller.hpp:56-139 | the poller sends from a callback only on a final line |
| OnionPollerSafety.CommandsFollowScript | src/tor/onion-poller.hpp:56-118 | in every run the commands are a prefix of AUTHENTICATE, SETCONF 0, `timeout` times GETINFO, SETCONF 1, so SETCONF 1 comes only after `timeout` polls; each finds an empty buffer |
| OnionPollerSafety.UserCalledAtMostOnce | src/tor/onion-poller.hpp:56-139 | in every run the user callback runs at most once, and then the connection is closed and no timer is left |
| OnionPollerSafety.RefusalIsReported | src/tor/onion-ctrl.hpp:251-261 | in every run CONNECT_FAILED is reported if and only if the connection event is not exactly CONNECTED, with nothing sent and the callbacks cleared; commands are issued if and only if it is |
| OnionPollerSafety.AnyConnectEvent | src/tor/onion-ctrl.hpp:251-252 | any connection event can come first |
| OnionPollerSafety.FailureIsReported | src/tor/onion-ctrl.hpp:667-671 | in every run a failure of the connection is reported with its status, as the only call |
| OnionPollerSafety.RefusalEndsRun | src/tor/onion-poller.hpp:59-74 | the final line alone, with any code, answers any command, and one that does not accept ends the run with the status that the code names |
| OnionPollerSafety.BadPhaseEndsRun | src/tor/onion-poller.hpp:122-129 | a phase that does not parse ends the run with the status of the parser |
| OnionPollerSafety.OkExactlyWhenBootstrapped | src/tor/onion-poller.hpp:122-137 | OK is reported if and only if authentication and SETCONF were accepted and some poll before the timeout parsed to 100, all earlier ones to other values |
| OnionPollerSafety.GenericErrorExactlyAfterDisabling | src/tor/onion-poller.hpp:102-113 | without a connection failure GENERIC_ERROR is reported if and only if all polls stayed below 100 and SETCONF DisableNetwork=1 was then acknowledged |
| OnionPollerSafety.FirstVerdictIsReported | src/tor/onion-poller.hpp:59-137 | the first reply with a verdict is the last reply, and without a failure its verdict is what the user is told, once it arrived entirely |
| OnionPollerSafety.PrintedProgressDecides | src/tor/onion-ctrl.hpp:322-394 | the reply `250-status/bootstrap-phase=NOTICE BOOTSTRAP PROGRESS=`n, n up to 999, then `250 OK`, ends the polling with success exactly when n is 100 |
| OnionPollerSafety.EventComesCloser | src/tor/onion-poller.hpp:99-139 | every event decreases a lexicographic measure bounded by the number of commands left |
| OnionPollerSafety.RunsEnd | src/tor/onion-poller.hpp:99-139 | no run is endless |
| OnionPollerSafety.StuckOnlyAfterCall | src/tor/onion-poller.hpp:56-139 | a run that only a connection failure could continue has called the user exactly once |
| OnionPollerSafety.FailureWhileWaitingCallsTwice | src/tor/onion-poller.hpp:119-131 | from any state with the timer pending, a failure, the timer and a second failure call the user twice (any other end of the script does as well, see `OnionPollerFree.CalledOnceExactlyWhenQuiet`) |
| OnionPollerFree.FreeEvent | src/tor/onion-poller.hpp:56-139 | in any run, quiet or not, every event keeps the invariant, keeps owed a second call that is owed, and decreases a lexicographic measure |
| OnionPollerFree.CalledOnceExactlyWhenQuiet | src/tor/onion-poller.hpp:56-139 | a run that only a connection failure could continue has called the user exactly once if and only if no failure arrived while the timer was pending, and at least twice otherwise |
| OnionPollerFree.FreeRunsEnd | src/tor/onion-poller.hpp:99-139 | no run is endless, however often the connection fails |
| OnionPollerFree.CanFinish | src/tor/onion-poller.hpp:56-139 | every run can be continued to one that only a connection failure could continue |
| OnionPollerFree.LoudRunFinishes | src/tor/onion-poller.hpp:119-131 | a failure in any state with the timer pending can be continued to a finished run, which has called the user at least twice |
| OnionPollerSafety.LongReplyCallsAndGoesOn | src/tor/onion-ctrl.hpp:219-231 | a two-line reply that accepts AUTHENTICATE, arriving in one read event, calls the user and then still sends SETCONF |
| OnionPollerSafety.LongReplyGoesOnExactlyWhen | src/tor/onion-ctrl.hpp:219-231 | for every way of cutting such a reply into two read events the user is called once; SETCONF is sent if and only if the first event does not bring the first line whole without all of the second, and otherwise the connection is closed |
| OnionPollerWitness.ExchangeCameTo | src/tor/onion-poller.hpp:59-137 | from every state in which a command was sent, each conforming reply can come, and its verdict decides: the user is called, the next command is sent, or the timer is started |
| OnionPollerWitness.WaitingIsReached | src/tor/onion-poller.hpp:56-76 | for every timeout a run reaches the pending timer, or, with timeout 0, the last SETCONF |
| OnionPollerWitness.PollingIsReached | src/tor/onion-poller.hpp:99-131 | for every number of polls up to the timeout a run reaches the state after them |
| OnionPollerWitness.OkIsReached | src/tor/onion-poller.hpp:135-136 | for every number of unfinished polls below the timeout some run then reports OK |
| OnionPollerWitness.GenericErrorIsReached | src/tor/onion-poller.hpp:102-113 | for every timeout some run without a failure reports GENERIC_ERROR |
| OnionPollerWitness.UserCalledTwiceIsReached | src/tor/onion-poller.hpp:119-131 | for every timeout above 0 a concrete run, then a failure, the timer and a second failure call the user twice |
| OnionPollerWitness.LoudRunIsReached | src/tor/onion-poller.hpp:119-131 | for every timeout above 0 a finished run that is not quiet exists |
| OnionPollerWitness.LongReplyExists | src/tor/onion-ctrl.hpp:219-231 | two-line replies that accept exist |
| Objects.Trichotomy | src/common/object.cpp:74-97 | for all objects: neither of two is less if and only if they are structurally equal and free of None |
| Objects.Transitive | src/common/object.cpp:74-97 | the order is transitive on all objects, nested to any depth, None included |
| Objects.Reflexivity | src/common/object.cpp:78-80 | an object is less than itself if and only if a None occurs inside it |
| Objects.FitForKeysIffNoneFree | include/measurement_kit/common/object.hpp:19-19 | the order is a strict total order on a set of keys if and only if no key holds a None |
| Objects.ListLexicographic | src/common/object.cpp:90-92 | a list comes before another if and only if, at the first position where they differ, it is over or has the lesser item (section 25.4.8 of ISO C++11) |
| Objects.TextLexicographic | src/common/object.cpp:93-95 | a string comes before another if and only if, at the first difference, it is over or has the lesser character |
| Objects.DictLessIsListLess | src/common/object.cpp:81-83 | comparing dictionaries pair by pair comes to comparing keys and values in turn |
| Objects.DictCanonical | include/measurement_kit/common/object.hpp:19-19 | dictionaries with the same entries and None-free keys have one representation |
| Objects.IntListsCompareAsNumbers | src/common/object.cpp:87-92 | lists of integers compare as the sequences of their numbers, in the numeric lexicographic order |
| Objects.DoubleListsCompareAsNumbers | src/common/object.cpp:84-92 | the same for doubles |
| Objects.TypesInOrder | include/measurement_kit/common/object.hpp:26-33 | objects of different types compare by the order None, Dict, Double, Int, List, Str |
| Objects.KeysIterateUpwards | include/measurement_kit/common/object.hpp:19-19 | the integer keys of a dictionary iterate in the order of the numbers |
| Echo.Context.HandleIo | example/common/evhelpers-event-echo.cpp:23-76 | the body with its early exits computes the specified state and pending events |
| Echo.BytesConserved | example/common/evhelpers-event-echo.cpp:31-66 | in every run the bytes written followed by the buffer are the bytes read, and the buffer never exceeds 1048575 + 1024 bytes |
| Echo.EofIsSticky | example/common/evhelpers-event-echo.cpp:43-52 | once end of file was seen nothing is read any more and it stays seen |
| Echo.ClosesExactlyWhen | example/common/evhelpers-event-echo.cpp:49-72 | a call without failure ends the loop if and only if everything read was written and end of file was seen or this call wrote at least 1048576 bytes |
| Echo.CloseBeforeEof | example/common/evhelpers-event-echo.cpp:49-72 | a concrete run ends without failure and without end of file |
| Echo.WriteErrorMayContinue | example/common/evhelpers-event-echo.cpp:54-60 | a write error ends the loop if and only if it would not read on |
| Echo.TimeoutOrReadErrorEnds | example/common/evhelpers-event-echo.cpp:32-42 | a timeout, or a read error, ends the loop at once, and nothing is read, written or dropped |
| Echo.AsksForWhatItCanUse | example/common/evhelpers-event-echo.cpp:49-66 | as long as nothing fails the loop asks to read exactly while fewer than 1048576 bytes are unwritten and end of file was not seen, and to write exactly while bytes are |
| Echo.WhatCanCome | example/common/evhelpers-event-echo.cpp:72-75 | while the loop runs the timeout can come, and so can whatever it asked for |
| Echo.WriteErrorReached | example/common/evhelpers-event-echo.cpp:49-72 | concrete runs in which the loop survives a write error and in which it ends at one |
| Sendrecv.Exchange.constructor | src/common/evhelpers.hpp:112-123 | queues the request and installs the receiving callbacks |
| Sendrecv.Exchange.Read | src/common/evhelpers.hpp:121-129 | moves all input to the output string |
| Sendrecv.Exchange.Write | src/common/evhelpers.hpp:147-155 | completes when the output buffer is drained, and not before |
| Sendrecv.Exchange.Event | src/common/evhelpers.hpp:131-171 | takes what is buffered, then completes or goes on flushing; while flushing, completes |
| Sendrecv.OutputIsWhatWasReceived | src/common/evhelpers.hpp:121-138 | when the first event arrives the output string equals all bytes received so far, and it does not change later |
| Sendrecv.SendingConserves | src/common/evhelpers.hpp:115-117 | bytes sent followed by the output buffer are what was to be sent |
| Sendrecv.CompletesAtMostOnce | src/common/evhelpers.hpp:131-171 | the completion callback runs at most once, with cleared slots; after a single event only when all of the request was written |
| Sendrecv.CompletionComes | src/common/evhelpers.hpp:131-171 | the exact events at which the completion callback runs |

## Left out

- libevent, OpenSSL, tor and http-parser are not modelled beyond the effects named under Environment.
- Socket creation, address parsing (INVALID_PROXY_ADDRESS, CANNOT_PARSE_ADDRPORT), reading the cookie
  file, timeouts of bufferevents, clocks and logging: input and output only.
- Exceptions of the wrappers (a failing `evbuffer_peek`, `bufferevent_enable` and the like) other than
  failed construction; the model assumes those calls succeed.
- `OnionPoller::disable_tor`, `signal_shutdown`, `getconf_*`: they use the modelled `sendrecv`,
  `do_void_cb` and `getconf_int` in the same way as `enable_tor` or with fewer steps.
- `setevents_client_status`: it only tokenizes the string that the modelled function passes on.
- A second `connect` on one controller (ALREADY_CONNECTED), decided by one branch.
- `sendrecv` with a null output string or in echo mode; with a null output the event callback would
  dereference it, so the model demands a string as its callers do.
- Leaks: after a steal outside its own callback the old wrapper's trampoline may never run again. The
  lifetime results are about safety; no result says that every wrapper is deleted.
- `ObjectTypeSwitch`, conversions and `for_each` of `Object`: single branches and plain loops.
- `Int` is unbounded, as only comparisons of it matter; `Double` has no NaN and no rounding.
- OnionCtrl.Connection.ReadLine: callbacks are functions of client, buffer and line rather than
  closures over shared objects; a callback that itself reads from the input buffer is not expressible.
- OnionPoller.Controller.Line: the connection's send and receive are represented by the slot and the
  list of issued commands; the bytes of a command in the output buffer are not followed.
- LifetimeSafety.NestedLoopFreesRunning: event bases are not named in the model; that the timer runs on
  the base of the filter, not on the one whose callback is running, is part of the reading of the run.
- SocksProofs.ReplyTakenIff: buffers are assumed shorter than 2^63 bytes, where `size_t` has 64 bits.
- SocksProofs.ReceivedOnSuccess: the same bound on the bytes received.
