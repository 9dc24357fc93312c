# netlink-agent: a verified model

netlink-agent relays netlink route messages between modules: the kernel, a
programmable-RPD client over gRPC, and servers and clients that speak FPM or bare
netlink over TCP. This project models its logic in Dafny and proves what the
agent is relied on for.

- `Bytes`, `Netlink`, `Event`: octets, 4-byte alignment, messages, attributes, the
  walk over a buffer, and the event that carries a message.
- `Policy`: the per-module policy on the octets of a route message, with the
  in-place removal of attributes.
- `Fpm`, `Framing`, `Streams`, `EndToEnd`: FPM frames, reassembly of a stream that
  arrives in pieces, the read callbacks, and the way of a message from one agent
  to the next.
- `Infra`, `Bringup`, `Progress`, `Dispatch`: subscriptions, bring-up order, flash
  requests, reinitialisation and dispatch, for any number of modules.
- `Pipe`: the gRPC connection manager thread and the pipe to the event loop.
- `Lifecycle`, `Contexts`, `System`, `Runs`, `EventLoop`: the handles the modules
  hold, the whole agent with all its runs, and the agent in place.
- `Events`: what each event does to the agent, in terms of what is configured,
  recorded and held.
- `Recovery`, `Completion`, `Stuck`, `Twice`: what a started module can do to come
  up, from which states the agent still gets everything up, which agents always do,
  and which can initialise a module twice.

Code that updates things in place is modelled in place (`Policy.StripAttr`,
`Streams.FpmReader`, `Infra.Modules`, `Contexts.Context`, `EventLoop.Loop`); each such
method is tied to a function, and the lemmas are about that function. The thread
protocol and the agent as a whole are state machines over their steps.

## Conventions and preconditions

- Host order is little-endian; FPM lengths are big-endian. `NLMSG_ALIGN`,
  `NLA_ALIGN` and `fpm_msg_align` round up to 4.
- A route message says its own length, has room for `rtmsg`, and is a multiple of
  4 octets long (`Policy.IsRoute`), as RFC 3549 messages padded by their sender
  are. Stripping is modelled for any message that says its own length
  (`Policy.SaysLength`); `Policy.StripExact` says exactly when it does what it should.
- Sending in an FPM frame needs the message and its header to fit 4096 octets;
  receiving bare netlink needs messages of 16 to 8192 octets.
- `release`, the Makefile's default target, defines `NDEBUG`, so assertions do nothing
  there; `debug` leaves them on. Results on FPM streams hold of both builds
  (`Streams.Build`). What an assertion would stop, apart from an FPM header that is not
  acceptable, either cannot happen or ends the release process too.
- Channel states, outcomes of library calls, the contents of an uninitialised
  receive buffer, and the way a stream is cut into chunks are arbitrary. The
  purge-time request is taken to succeed in the end. A pipe write is one step.

## Where the code and its own words differ

Theorems are about the code as written unless they say otherwise.

- `set-table` writes the protocol field (nla_policy.c:201). `Policy.Image` is as
  written, `Policy.ImageIntended` as the option says; `Policy.SetTableAsIntended` says
  exactly when they agree, and `Policy.SetTableMissesTable` gives a message for which
  they do not.
- The dispatch loop returns at the first module whose policy rejects a message,
  although the log line speaks of skipping that module (nla_main.c:364-367).
  `Dispatch.SkippingExact` says exactly when that makes no difference, and
  `Dispatch.RejectionEndsDispatch` gives a case in which it does.
- The FPM walk checks only headers and so looks at four octets it has not received
  (nla_util.c:224). `Fpm.WalksAgree`, `Streams.FpmDrainExact` and
  `Streams.FpmFeedExact` say exactly when that is harmless, and
  `Streams.StaleTailAborts` gives two well-formed frames that stop the reader.
- `memcpy` is used on overlapping ranges (nla_policy.c:115); it is modelled as a
  copy from the low end up.
- The servers' listener error callbacks start afresh without reporting DOWN
  (nla_fpm_server.c:198-204, nla_nlm_server.c:192-198). `Runs.UpImpliesLive`,
  `Runs.ListenerFailureExact` and `Runs.ListenerFailureLosesServer` say what that costs.
- A server whose listener cannot be created logs the failure and returns
  (nla_fpm_server.c:226-229, nla_nlm_server.c:220-223): unlike the failures of
  the other modules to connect, this one is not retried. `Stuck.ServerStuck` is an agent that never does
  anything again; `Completion.CompletesExact` says from which states everything can
  still come up, and `Stuck.NeverStuckExact` for which agents that is every state.
- Two interdependent modules can give each other a second init callback
  (`Twice.InitsTwiceExact`, `Runs.ServerInitedTwice`).
- Taking an attribute's padded size off the length of a message that lacks the
  padding cuts into what precedes the attribute (nla_policy.c:110-118).
  `Policy.StripExact` says exactly on which messages that happens, and
  `Policy.UnpaddedLosesNeighbour` gives one.
- The release build does not stop at an FPM header that is not acceptable but reads
  past it, for ever if its length is 0 and past its buffer if that is over 8192
  (nla_fpm_client.c:115-126): `Streams.ReleaseStopsExactly`, `Streams.BuildsAgree`.

## Model

| member | source | states |
|---|---|---|
| Bytes.CopyDown | nla_policy.c:115 | the copy moves the octets down unchanged even when the ranges overlap, and touches nothing else; its source may end behind the buffer |
| Netlink.WalkCharacterised | nla_util.c:196-211 | on every buffer, malformed or not, the callback slices are the only sequence that starts at the front, is contiguous up to padding, passes `nlmsg_ok` throughout and stops where it first fails |
| Netlink.WalkInBounds | nla_util.c:196-211 | every slice lies in the buffer, is at least a header long and starts 4-aligned |
| Netlink.WalkDisjoint | nla_util.c:196-211 | every slice ends, with its padding, before any later one starts |
| Netlink.MessagesAreSlices | nla_util.c:205-208 | what each callback is given is the octets of its slice |
| Netlink.NlmsgWalk | nla_util.c:196-211 | the loop with its signed remainder makes exactly those callbacks, and terminates |
| Netlink.MessagesInPlace | nla_util.c:229-231 | walking part of a buffer in place sees what walking a copy of that part sees |
| Netlink.MessagesOfPadded | nla_util.c:196-211 | a walk finds every one of any messages that say their own length of at least 16, a multiple of 4 or not, behind its predecessor's padding, and ends at a header whose length is under 16 or over what remains |
| Netlink.LastUnpadded | nla_util.c:196-211 | the last message's padding may be missing, in whole or in part |
| Netlink.NlaTypeOctets | nla_policy.c:105 | an attribute's type is its 14 low bits, so flagged attributes are found too |
| Netlink.DecodeIsRegion | nla_policy.c:64-91 | an attribute region decodes into whole padded attributes and a tail that starts none, losing nothing |
| Netlink.DecodeEncode | nla_policy.c:64-91 | encoding such attributes and tail and decoding again gives them back |
| Event.EventInfo.Clone | nla_util.c:238-251 | the clone has the same kind and octets in a buffer of its own |
| Policy.StripIsFilter | nla_policy.c:64-91 | stripping removes the attributes of the given types and keeps the others, in order and octet for octet, and the undecodable tail |
| Policy.StripLength | nla_policy.c:117-118 | the length falls by the padded sizes removed and stays a multiple of 4 |
| Policy.StripStrip | nla_policy.c:216-220 | two strips are one strip by both sets of types, so order and repetition do not matter |
| Policy.StripOfBuilt | nla_policy.c:64-91 | of attributes built from length, type octets, payload and padding, exactly those of the given types go |
| Policy.CutFound | nla_policy.c:105-115 | sliding the first attribute of the type over does not change what the region strips to, and if none is found it is stripped already |
| Policy.RoundMeaning | nla_policy.c:104-118 | what one round makes of any message that says its own length, padded or not: exactly the attribute goes if its padding is there; if d octets of it are lacking, d octets before it are lost too, or the length falls below the headers |
| Policy.NeighbourExact | nla_policy.c:110-118 | after such a round the attribute in front is still found exactly when its own padding is at least d; those further in front always are |
| Policy.StripRoundsMeaning | nla_policy.c:92-124 | what the whole loop makes of any message: the filtered one, or, if its last attribute is an unpadded one of the type, that cut short by the attribute's padded size |
| Policy.StripExact | nla_policy.c:92-124 | on any message, the loop gives the headers with the filtered attributes, whether or not an unpadded attribute is to count as one, if and only if the last attribute is not an unpadded one of the type |
| Policy.RoundsOfRoute | nla_policy.c:92-124 | on an aligned message it always does |
| Policy.RoundsOfBuilt | nla_policy.c:92-124 | the loop on a message with attributes so built leaves the headers followed by the others |
| Policy.UnpaddedLosesNeighbour | nla_policy.c:92-124 | an unpadded message from which stripping one attribute loses the other as well |
| Policy.SlideDown | nla_policy.c:110-117 | in the buffer, the rest of the message moves down over the attribute and the length field says the new length |
| Policy.RemoveAttr | nla_policy.c:110-118 | the loop's body in the buffer, on any message that says its own length, is one such round, whatever lies behind the buffer, and keeps both lengths equal |
| Policy.StripAttr | nla_policy.c:92-124 | the loop terminates on any message that says its own length, as the rounds above; an aligned message is turned in place into its filtered form, with both length fields right |
| Policy.StripMsgMeaning | nla_policy.c:64-91 | of a stripped message: headers unchanged but for the length, attributes filtered, tail kept, length accounted for |
| Policy.StripMsgTwice | nla_policy.c:216-220 | the same composition law for whole messages |
| Policy.RestripNothing | nla_policy.c:216-220 | stripping types that are gone changes nothing |
| Policy.StripAll | nla_policy.c:216-220 | the strip loop over the configured list is one filter by its set of types |
| Policy.MatchFilter | nla_policy.c:127-156 | true if and only if the list is empty or contains the value |
| Policy.SetAll | nla_policy.c:199-211 | the set loop leaves the last configured value, truncated to an octet, and changes no other octet |
| Policy.Evaluate | nla_policy.c:165-230 | null if and only if a filter list that is not empty lacks the family at octet 16, the table at octet 20 or the protocol at octet 21; otherwise a fresh event with the policy's image, the original untouched |
| Policy.EvaluateParts | nla_policy.c:183-193 | a policy rejects exactly when one of the three policies with one of its lists each does, and a list of one value rejects exactly when octet 16, 20 or 21 differs from it |
| Policy.ImageMeaning | nla_policy.c:195-220 | the image octet by octet: only length and protocol change in the headers, the last value set wins, attributes are filtered by the set of strip types |
| Policy.ImageOfBuilt | nla_policy.c:195-220 | an accepted message's attributes, as its sender built them, less those of the strip types |
| Policy.SetTableAsIntended | nla_policy.c:199-204 | writing set-table to the protocol gives what the option says exactly when nothing is set, or the table already has the value and the protocol is overwritten or has it too |
| Policy.SetTableMissesTable | nla_policy.c:199-204 | a message whose protocol becomes the configured table, and whose table stays |
| Fpm.MsgHdrOctets | nla_fpm.h:262-283 | octet by octet, which frame headers are accepted |
| Fpm.BuildHdrExact | nla_util.c:106-114 | the header built is accepted and says the payload's length, with no 16-bit wrap, exactly when the payload is aligned and the frame at most 4096 octets |
| Fpm.FrameCarries | nla_fpm_client.c:256-283 | a message that fits comes back out of its frame, alone |
| Fpm.AnyFrameCarries | nla_util.c:214-235 | a frame of any version and type other than 0, within the length rules, carries all its messages, of any length behind each other's padding |
| Fpm.PayloadInPlace | nla_util.c:229-231 | the inner walk on the receive buffer sees the frame's own messages |
| Fpm.WalksAgree | nla_util.c:214-235 | on every buffer the walk as written delivers what the bounded walk does and then stops cleanly, or delivers one more frame and aborts, according to whether a well-formed header stands where the bounded walk ends |
| Fpm.WalkOneFrame | nla_util.c:214-235 | after one complete frame, all of it consumed, the walk as written is right exactly when the next four octets are no well-formed header |
| Fpm.FpmMsgWalk | nla_util.c:214-235 | the loop, with the assertion of `fpm_msg_next`, is that walk |
| Framing.ChunkingIrrelevant | nla_fpm_client.c:98-132 | for any stable framing and any stream, well-formed or not, deliveries, rest and verdict do not depend on how it is cut into chunks |
| Framing.PrefixDelivery | nla_fpm_client.c:98-132 | of any prefix of a stream of frames exactly the complete ones have been delivered, in order, and the rest of the prefix is in the buffer |
| Framing.UnitsDelivered | nla_fpm_client.c:98-132 | a whole stream of frames delivers what they carry and leaves nothing |
| Streams.FpmStepStable | nla_fpm_client.c:98-126 | octets that arrive later change no decision of the FPM reader |
| Streams.ReleaseStopsExactly | nla_fpm_client.c:115-126 | exactly which headers the release reader does not get past: length 0, or longer than its buffer; the debug reader stops at any that is not acceptable |
| Streams.BuildsAgree | nla_fpm_client.c:115-126 | unless the debug reader stops both builds do the same; otherwise the release reader delivers at least as much |
| Streams.FpmDrainExact | nla_fpm_client.c:90-133 | in either build, one run of the callback as written, from any receive-buffer contents, does what the framing calls for exactly when what was in the buffer completes no header behind or within what is read; else it aborts, having delivered only what is right |
| Streams.FpmFeedExact | nla_fpm_server.c:92-135 | the same over any sequence of chunks and any buffer contents at each run |
| Streams.StaleTailAborts | nla_fpm_client.c:128-131 | two well-formed frames on which the reader as written aborts |
| Streams.FpmReader.ReadCb | nla_fpm_client.c:90-133 | the callback terminates, and is that run |
| Streams.FpmReader.Receive | nla_fpm_server.c:92-135 | a chunk arriving has the effect the chunking theorems speak of |
| Streams.NlmStepStable | nla_nlm_client.c:98-121 | octets that arrive later change no decision of the netlink reader |
| Streams.NlmStopsExactly | nla_nlm_client.c:113-121 | exactly which headers the reader does not get past: aligned length 0 after wrap-around, or longer than the buffer |
| Streams.NlmReader.ReadCb | nla_nlm_client.c:90-128 | the callback delivers what the framing calls for and stops where it does |
| Streams.NlmReader.Receive | nla_nlm_server.c:91-129 | a chunk arriving has the effect the chunking theorems speak of |
| EndToEnd.Sender.FpmNotify | nla_fpm_server.c:287-314 | a write sends one frame with the message, and anything else nothing |
| EndToEnd.Sender.NlmNotify | nla_nlm_server.c:281-306 | a write sends the message as it is, and anything else nothing |
| EndToEnd.FpmRoundTrip | nla_fpm_client.c:256-283 | FPM send, any chunking, FPM receive: the same messages, once each, in order |
| EndToEnd.ArrivingExact | nla_fpm_client.c:90-133 | of messages that fit a frame, what arrives is those whose length is a multiple of 4; in the debug build, those before the first other |
| EndToEnd.FpmRoundTripExact | nla_fpm_client.c:256-283 | of messages of any length, multiples of 4 or not, exactly those sequences arrive as they were of which every message is one and fits a frame |
| EndToEnd.NlmRoundTrip | nla_nlm_client.c:251-276 | the same for bare netlink |
| EndToEnd.AnyFramesArrive | nla_fpm_client.c:90-133 | all messages of any such frames arrive, in order, under any chunking; the release reader passes over frames its header check refuses |
| EndToEnd.DebugStopsAtRefused | nla_fpm_server.c:92-135 | the debug reader stops at the first of those, having delivered all that came before |
| EndToEnd.NlmPaddedRoundTrip | nla_nlm_client.c:90-128 | bare netlink messages of any length, each with its padding, arrive as they were, once each and in order, under any chunking |
| EndToEnd.UnpaddedExact | nla_nlm_server.c:281-306 | messages of any length, sent unpadded, arrive as they were exactly when all are multiples of 4 |
| EndToEnd.ImageHeader | nla_util.c:106-114 | after stripping, the header is right exactly when the result fits a frame, as it does if the original did |
| EndToEnd.FpmEndToEnd | nla_fpm_server.c:92-135 | policy, FPM send, any chunking, the callback as written in either build over any buffer contents without a stale header, both walks: if what is sent fits, the messages and no others arrive, once, in order, with the attributes filtered and the headers as the policy sets them |
| EndToEnd.NlmEndToEnd | nla_nlm_server.c:91-129 | the same over bare netlink |
| EndToEnd.Relay | nla_main.c:330-376 | the dispatcher, run on one event after another, and a module's notify callback hand to the socket exactly the stream of the messages the module is handed, whatever goes up and down meanwhile |
| EndToEnd.DispatchEndToEnd | nla_main.c:341-375 | and over FPM and any chunking, in either build, exactly those that reach the module arrive, once and in order, as its policy makes them |
| EndToEnd.DispatchNlmEndToEnd | nla_main.c:341-375 | the same over bare netlink |
| Infra.Modules.CheckInitModule | nla_main.c:195-242 | the init callback is made exactly when the module is enabled, not up, and every enabled subscriber that is not interdependent with it is up |
| Infra.Modules.RequestFlash | nla_main.c:107-156 | the flash callback is made exactly when the module is up and all its enabled subscribers, of which there is one, are up |
| Infra.Modules.ProcessConnectionStatusChange | nla_main.c:283-327 | an unchanged state does nothing; DOWN makes the reinitialisation due; UP makes the init callbacks, then the module's flash, then those of what it subscribes to, in module order |
| Infra.Modules.EventDispatcher | nla_main.c:330-376 | connection events are taken as above; any other event is delivered in module order, each recipient getting its policy's image, up to the first rejection |
| Infra.Modules.ReinitEvent | nla_main.c:463-473 | resets what is registered, registers what is enabled, then makes the init callbacks |
| Bringup.CountReinit | nla_main.c:463-473 | which callbacks a reinitialisation makes, and how often |
| Bringup.CountUp | nla_main.c:308-321 | which callbacks an UP change makes, and how often |
| Bringup.UpInOrder | nla_main.c:308-321 | an UP change makes its init callbacks, then asks for the module's own flash, then for those of what it subscribes to, the first and the last in module order |
| Bringup.ReinitInOrder | nla_main.c:463-473 | a reinitialisation resets, then registers, then initialises, each in module order |
| Bringup.BringUpInvariant | nla_main.c:195-242 | in every reachable state with no reinit pending, an enabled module has been started in this epoch if and only if all its enabled subscribers, save itself and interdependent ones, are up |
| Bringup.SecondInit | nla_main.c:223-228 | an UP change gives a started module another init callback exactly when the two are interdependent and it is not up |
| Bringup.InitAtMostOnce | nla_main.c:313-318 | without interdependent enabled modules, no module is given a second init callback before the first DOWN change of an epoch, self-subscription or not |
| Bringup.InitOnceExact | nla_main.c:223-228 | over any run of such an epoch, no module has been initialised twice if and only if no module came up while one interdependent with it was started and not up |
| Bringup.MutualPairInitsTwice | nla_main.c:223-228 | two interdependent modules, one of which the infrastructure initialises twice |
| Bringup.FlashExactlyOnce | nla_main.c:159-181 | in an epoch without DOWN change, a module that does not subscribe to itself has been asked for its flash once if it and all its subscribers, at least one, are up, and otherwise never |
| Bringup.FlashAtTheLastUp | nla_main.c:159-181 | the flash is asked for at the very UP event that makes it due, and at no other; twice if the module subscribes to itself and came up last |
| Progress.CycleNeverStarts | nla_main.c:212-236 | no module on a cycle of subscriptions between modules that are not interdependent is ever started or up, in any run |
| Progress.NoDeadlock | nla_main.c:212-239 | without such a cycle, a state with no reinit pending has everything up or has a started module not yet up; that the module can come up is not said |
| Progress.UpIsProgress | nla_main.c:298-318 | each UP change takes exactly that module off those waited for |
| Progress.BringUpCompletes | nla_main.c:195-242 | the infrastructure alone, supposing that started modules report UP, can get every enabled module up if and only if there is no such cycle |
| Progress.AlwaysUnderwayExact | nla_main.c:195-242 | in every run of the infrastructure, with no reinit pending, everything is up or a started module is not up, if and only if there is no such cycle |
| Dispatch.DeliveriesMeaning | nla_main.c:341-375 | deliveries go, in module order, to exactly the enabled, up, subscribed, accepting modules before the first that rejects, each with its own policy's image of the original; they are a prefix of what skipping would deliver |
| Dispatch.DeliveredExactly | nla_main.c:341-375 | in terms of what is configured and recorded: to whom a delivery is made, the sender and interdependent modules included |
| Dispatch.EverySubscriberIsDelivered | nla_main.c:347-372 | where no policy filters, exactly to the enabled, registered subscribers that are up |
| Dispatch.EchoIsHandedItsOwn | nla_main.c:347-372 | a module that subscribes to itself is handed its own message |
| Dispatch.SkippingMeaning | nla_main.c:364-366 | what the log line promises: every accepting recipient, in module order |
| Dispatch.SkippingExact | nla_main.c:364-366 | the two agree exactly when no accepting recipient follows a rejecting one |
| Dispatch.RejectionEndsDispatch | nla_main.c:364-366 | a message that reaches nobody because the first of two subscribers rejects it |
| Dispatch.HandedExact | nla_main.c:341-375 | of a message a module is handed its own policy's image, once, if it takes it and no module before it rejects it, and otherwise nothing |
| Dispatch.HandedIsTaken | nla_main.c:330-376 | over any run of events, connection changes among them, it is handed the images of exactly the messages that reach it, in order |
| Pipe.ManagerKeepsStep | nla_grpc.c:414-481 | every step of the thread, the moment before its write included, keeps recorded state plus queue free of equal neighbours and ending in the thread's state |
| Pipe.ReadKeepsStep | nla_grpc.c:397-411 | every message read is a real transition and keeps that |
| Pipe.SampleIsTold | nla_grpc.c:426-467 | the state the thread samples is, a few steps later, the last word in the pipe or on record, however much is read in between |
| Pipe.WaitsForChange | nla_grpc.c:470-478 | between samples the thread writes nothing, and goes on to the next when the channel's state changes, not before |
| Pipe.AlwaysCoordinated | nla_grpc.c:384-478 | over all interleavings with reads, inits, resets and reinitialisations: the invariant holds, every readable message is a transition, and a drained pipe means agreement |
| Pipe.ExitsSoon | nla_grpc.c:470-478 | told to exit, the thread gets closer to its end with every step and writes one more message at most |
| Pipe.RunToEndInStep | nla_grpc.c:414-481 | whatever the channel does and whenever the promise is set, the thread ends, having written nothing but real changes, the last of them the state it ends in |
| Pipe.ConnectionManager | nla_grpc.c:414-481 | the thread with both its loops writes exactly what its steps do; what it writes has no repeats and ends in its last state |
| Pipe.JoinReturns | nla_grpc.c:523-532 | so the join returns, whatever the channel does, and the reset leaves no thread and an empty pipe |
| Lifecycle.ResetBalanced | nla_util.c:263-289 | a reset frees each handle held once and leaves none |
| Lifecycle.TimerStartBalanced | nla_fpm_client.c:213-235 | starting afresh loses nothing and leaves one new timer in a free slot |
| Lifecycle.TimerFiresProper | nla_fpm_client.c:166-202 | a connect or listener timer, whatever fails, leaks and overwrites nothing, and reports UP only with a live handle |
| Lifecycle.BevEventProper | nla_fpm_client.c:136-163 | neither does a bufferevent event, and what was live stays so unless DOWN is reported |
| Lifecycle.AcceptProper | nla_fpm_server.c:160-195 | neither does accepting a connection |
| Lifecycle.ListenerErrorProper | nla_fpm_server.c:198-204 | a listener error keeps the handles balanced, but keeps UP meaning live exactly when there was no connection |
| Lifecycle.ZeroedBalanced | nla_fpm_client.c:297 | zeroing a clean context loses nothing |
| Contexts.Context.ContextCleanup | nla_util.c:263-289 | frees each of the four handles held once, and clears their slots |
| Contexts.Context.RibReset | nla_grpc.c:518-559 | frees the gRPC objects, the read event and the two descriptors of an open pipe, each once, and drops the thread |
| Contexts.Context.ResetModule | nla_knlm.c:172-181 | the kind's own reset: frees each handle held once and leaves none |
| Contexts.Context.StartTimer | nla_knlm.c:184-205 | reset, then a new timer and nothing else; the assertion that the slot is free holds, and no handle is lost |
| Contexts.Context.ClientConnect | nla_nlm_client.c:161-197 | the client's connect, with both its retries, loses and overwrites no handle |
| Contexts.Context.ServerListener | nla_nlm_server.c:201-227 | the server's listener, or neither listener nor timer; no handle lost or overwritten |
| Contexts.Context.KernelConnect | nla_knlm.c:118-169 | the kernel module's connect: UP with socket and read event, or DOWN and a retry; no handle lost or overwritten |
| Contexts.Context.RibInit | nla_grpc.c:562-586 | creates the channel, the promise and the future, then starts the manager |
| Contexts.Context.StartManager | nla_grpc.c:484-515 | the pipe's two descriptors, its read event and the thread, or an error with what had been made so far |
| Contexts.Context.PrpdConnect | nla_prpd_client.c:97-118 | RibClientInit, or a retry; no handle lost or overwritten |
| Contexts.Context.EventCb | nla_nlm_client.c:131-158 | reports UP exactly on a client's connect, DOWN exactly on end of file or error, and then starts afresh; no handle lost |
| Contexts.Context.AcceptConnection | nla_nlm_server.c:154-189 | one connection at a time, reported UP while it is held; none overwritten |
| Contexts.Context.AcceptError | nla_nlm_server.c:192-198 | a fresh start with every handle freed once, and no report |
| Contexts.Context.ReadPipe | nla_prpd_client.c:78-94 | the message read is what is reported, and the module stays in order |
| EventLoop.Loop.constructor | nla_main.c:494-504 | an agent in its initial state, with a context of its own for every module |
| EventLoop.Loop.MakeCalls | nla_main.c:184-192 | the infrastructure's callbacks, made into the contexts in order |
| EventLoop.Loop.Tell | nla_main.c:283-327 | a report is recorded and what it sets off is done |
| EventLoop.Loop.Handle | nla_main.c:636-637 | handling an event in place is the step of the agent that the runs are made of |
| System.ReinitEmpties | nla_main.c:463-473 | when the init callbacks of a reinitialisation are made every context is empty, so the zeroing in get_vec loses nothing |
| System.EventOk | nla_main.c:387-388 | an event of a module comes only from a started, enabled one, and leaves it in order |
| System.NextOk | nla_main.c:283-327 | every event of the agent keeps its invariant |
| Runs.SystemInvariant | nla_util.c:263-289 | over every run each handle ever created is freed exactly once or held in exactly one slot; only started modules hold any; every pipe is in step |
| Runs.SystemRefinesInfra | nla_main.c:392-406 | every run of the agent is a run of the infrastructure in which only started modules report |
| Runs.AgentBringsUp | nla_main.c:195-242 | hence the bring-up rule, the flash rule and the init rule hold of the agent from its start |
| Runs.AgentStartsAndFlashes | nla_main.c:107-242 | in every run of the agent, with no reinit pending, in terms of what is configured and recorded: a module has been started exactly when every enabled subscriber it is not interdependent with is up; asked for its flash exactly when it is up and so are all its enabled subscribers, at least one; and that once, unless it subscribes to itself |
| Runs.AllUpAllFlashed | nla_main.c:107-181 | once everything is up, exactly the enabled modules with an enabled subscriber have been asked for their flash |
| Runs.AgentProgress | nla_main.c:212-239 | and so do NoDeadlock, which says no more than that a started module is not up, and dormancy of the modules on a cycle |
| Runs.AgentPipe | nla_prpd_client.c:78-94 | and every message in a pipe is a transition; a drained pipe means agreement |
| Runs.UpImpliesLive | nla_main.c:357-372 | in every state of a run each module recorded as up has the handles its notify callback uses, if and only if no listener of an up server fails in the run |
| Runs.ListenerFailureExact | nla_fpm_server.c:198-204 | a listener error keeps that exactly when the server was not up |
| Runs.ListenerFailureLosesServer | nla_nlm_server.c:192-198 | a run after which a server is up with no connection |
| Runs.DeliveriesReachLive | nla_main.c:362-372 | hence every delivery is made to a live module |
| Runs.AgentSafe | nla_main.c:330-376 | both, of the agent from its start, deliveries as long as no listener of an up server has failed |
| Runs.ServerInitedTwice | nla_main.c:223-228 | a run of the kernel module and a server that want each other's events, in which the server is initialised twice |
| Events.ConnectionLost | nla_fpm_server.c:138-157 | end of file or an error on a connection: recorded as down, left with a pending timer alone, and a reinit due unless it was down already |
| Events.ClientConnected | nla_fpm_client.c:136-163 | a client whose connection is established is recorded as up |
| Events.ConnectionOther | nla_fpm_client.c:136-163 | other events of a connection change nothing |
| Events.ClientTimer | nla_fpm_client.c:166-202 | a client's timer leaves it connecting, or with a new timer if anything fails |
| Events.ServerTimer | nla_fpm_server.c:207-233 | a server's leaves it listening, or with nothing that could call it |
| Events.KernelTimer | nla_knlm.c:118-169 | the kernel module's leaves it up with socket and read event, or with a new timer |
| Events.PrpdTimer | nla_prpd_client.c:97-118 | the programmable-RPD client's leaves it with the thread as down and an empty pipe, or with a new timer |
| Events.Accepting | nla_fpm_server.c:160-195 | a first connection that can be taken puts the server up; another, or one that cannot, changes nothing |
| Events.ListenerLost | nla_fpm_server.c:198-204 | a listener error leaves a server with a new timer alone, and what is recorded as it was |
| Events.PipeRead | nla_prpd_client.c:78-94 | the pipe's first message is what is recorded, and DOWN makes a reinit due |
| Events.ManagerSteps | nla_grpc.c:414-481 | a step of the thread changes only its state and the pipe, by one message at most |
| Events.ComesUp | nla_main.c:195-242 | a module's coming up starts exactly the modules it subscribes to that are not up and that nothing else holds back; the others stay as they were |
| Events.Reinitialised | nla_main.c:463-473 | a reinitialisation records every enabled module as down, starts with a timer alone those that nothing enabled holds back, and leaves the others with nothing |
| Recovery.NextInv | nla_main.c:283-327 | every event leaves every started module with something that can still call it, a server whose listener could not be created apart |
| Recovery.DeadExact | nla_fpm_server.c:226-229 | short of a reinitialisation, such a dead server stays so unless an interdependent module comes up, and no other module's event makes a server dead |
| Recovery.Turns | nla_prpd_client.c:78-118 | a started module of any kind, if not a dead server, comes up by a run of its own events, the manager thread's steps included; and goes down again likewise, the kernel module apart |
| Recovery.OwnEventExact | nla_nlm_server.c:220-223 | in every reachable state with no reinit pending, a started module that is not up has an event of its own, and can come up by its own events, if and only if it is not a dead server |
| Completion.CompletesExact | nla_main.c:195-242 | from every reachable state of the agent some run gets every enabled module up if and only if there is no cycle, and a reinit is due, or no module is hopeless, or a module that is not can still go down; hopeless are those waiting for one another or for a dead server none of the others revives |
| Completion.AgentCompletes | nla_main.c:195-242 | from its start the agent gets everything up in some run if and only if there is no cycle |
| Completion.CompletesUnlessDead | nla_main.c:195-242 | and so it does from every reachable state in which no server is dead |
| Stuck.NeverStuckExact | nla_fpm_server.c:226-229 | it does from every reachable state if and only if there is no cycle, and the agent has no server, or has besides the kernel module one that waits for no server, directly or not |
| Stuck.ServerStuck | nla_fpm_server.c:226-229 | a run after which a server, started and not up, has no event left and nothing ever happens |
| Twice.InitsTwiceExact | nla_main.c:223-228 | some run initialises a module twice before a DOWN change if and only if two enabled modules are interdependent, neither is behind a cycle, and neither must wait for the other |
| Twice.AgentInitsTwiceExact | nla_main.c:223-228 | and so it is of the agent, whatever kinds of modules it has |

## Left out

- Streams.NlmReader.ReadCb: where the program would loop for ever on a header of aligned length 0, or run past its buffer, the model stops and marks the reader failed.
- Streams.FpmReader.ReadCb: where the process ends, loops for ever or runs past its buffer, the model leaves what arrives later unread.
- Contexts.Context.RibReset: closing the pipe when none is open, which the program does to descriptors 0 and 0 the first time and -1 later, does nothing here.
- Policy.Evaluate: takes aligned messages; of others, `Policy.StripAttr` is what is modelled.
- System.NextSys: a reset is one step here; that the join it contains returns, and to the same state whatever the thread still does, is `Pipe.JoinReturns`.
- EventLoop.Loop.MakeCalls: the callbacks are made from the recorded trace, once the infrastructure has decided on all of them, not through function pointers as it goes; none of them changes what it decides on.
- Clean-up at shutdown, option parsing, logging and message dumps.
- The kernel module's clearing of `nlmsg_flags` before it passes a message on (nla_knlm.c:82-91), and all route parsing and route installation by libnl.
- The gRPC route requests and every `.proto` file: thin wrappers over generated code.
- Reading and dumping the YAML configuration; a policy's lists may have any length here, where the program keeps at most 30 entries of each.
- Stripping of attributes nested in others, which the program does not do either (nla_policy.c:66-67).
- Memory allocation failure outside the connect paths, and messages near 2^31 octets, for which the walk's signed remainder would overflow.
- The servers' low read watermarks: called with fewer octets than a header, the read callbacks do nothing, so the model calls them on every chunk.
- Real time: the two-second retry timers may fire at any moment once armed.
