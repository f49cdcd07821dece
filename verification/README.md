# Obscura VPN client: model and proofs

This project models the hardest logic of the Obscura VPN client and proves what it
guarantees. `dafny verify dfyconfig.toml` checks everything. One module per component:

| module | component |
|---|---|
| `Cidr`, `CanonicalRoutes`, `LocalNetwork`, `RouteForm`, `NetworkConfig` | the routes handed to the operating system: CIDR subtraction in place, folded over the LAN ranges and the DNS servers, for addresses of any width |
| `Liveness`, `LivenessRuns`, `ProbeSchedule`, `PongTiming`, `ShrinkingPeriod` | the liveness checker (probes, loss counting, the deque of slow pongs, the poll scheduler), whole runs of the connection that drives it, when probes leave, and what timely pongs guarantee |
| `TunnelState`, `Maintain`, `TargetLooks` | the published tunnel state and the loop that reconciles it with the target state and the operating system's configuration |
| `RelayFraming`, `RelayWriter`, `RelayEndToEnd` | the relay protocol over TCP and TLS: framing, the shared queues and their writer task, and the composition of both |
| `Verhoeff`, `AccountNumber` | the check digit of account numbers, and parsing, generating and formatting them |
| `ExitSelection`, `ExitCounts` | exit selection with its caps |
| `RelayRace` | spawning relay handshakes, racing them, and picking the fastest |
| `AsyncMutex`, `Timeout`, `PendingTasks`, `WatchableValue` | the asynchronous mutex, timeout, task counter and watchable value of the Apple client |
| `UseAsync` | versioned asynchronous state of the user interface |
| `Wrappers` | options, results and small functions shared by the others |

Code that changes state step by step is a class or a method with loops (`Subtract`,
`LivenessChecker`, `PublishedState`, `ByteStream`, `TrafficState`, `ExitSelectionState`,
`RelayHandshakeRace`, `AsyncMutexObject`, `UseAsyncState`, ...), proved against functions
on values; the theorems are about those functions. Concurrent code is a state machine
whose events are the atomic actions, and a run is any sequence of enabled events.

The main results:

- **Routes.** Folding the subtraction over any cuts yields exactly the maximal CIDR
  blocks that meet no cut; hence the result depends only on the addresses cut, has no
  mergeable siblings, and no CIDR list with the same effect is shorter. With local access
  on, an address is routed if and only if it is outside the LAN ranges or a DNS server. Each
  route carries the first address of its block, and the routes ascend.
- **Liveness.** From any reachable state, if pongs stop, the tunnel is declared dead within
  `IDLE_PING_PERIOD + 2 * period + 3 * BUSY_PING_PERIOD` of the last probe, and within two
  seconds of a wake-up. If every probe of a run is echoed before any poll one second or
  more later, it never is. In every run a tunnel in use is probed, or found dead, within a
  second, and an idle one every 55 seconds. The deque's front is the maximum over the window, and the
  early-exit loss scan is the count over the whole queue.
- **Tunnel loop.** Target, published state and operating-system configuration agree in every
  run, and the published traffic counters are the saturated totals over all connections of
  the session, each counted once. After any refusal, failure or change the next thing the
  loop does is to read the target, and it takes at most four steps before it does.
- **Relay protocol.** The receiver stays in sync on every list of frames; in every
  interleaving acknowledgements and packets are sent exactly once and in order; and on the
  one stream that carries both, the relay decodes one acknowledgement for each operation
  delivered, in order, and the accepted packets, in order. A failed write ends the writer.
- **Account numbers.** For numbers of any length, exactly one check digit validates, and
  every single-digit error and every swap of unequal neighbours is detected.

## Where the code differs from what is said about it

The model does what the code does. These are stated as lemmas:

- `set_connect_error` calls its non-Connecting case impossible (tunnel_state.rs:134), but it
  is reached when the real configuration is refused while already Connected; the error is
  then lost. `RealConfigErrorRecordedIff` has the exact condition and
  `ErrorLostWhileConnected` a run.
- The disconnect reason is not taken when disconnecting (tunnel_state.rs:218), so a later
  session can publish the failure that ended the previous one. `PublishedReasonIff` says
  exactly when, in terms of the events of a run, and `ReasonSurvivesFromStart` has a run.
- In Connecting the published network interface is the one of the moment the state was
  entered, and may differ from the target's: `PublishedInterfaceIff` has the condition and
  `InterfaceStaysBehind` a run.
- "Any of the last SLOW_PONG_WINDOW sent pings" (liveness.rs:216): the window is measured from
  the latest accepted pong and spans 101 ids (`WindowSpans101`). `OnlyLastPingsIff` says
  exactly when the deque nevertheless holds only answers to the last 100 pings, and
  `SlowPongOutlivesLastPings` has a run in which it does not.
- A probe counts as lost by the loss period of the moment of the poll, not by the one in
  force when it was sent (liveness.rs:61-79), and the period can shrink while probes are
  under way. So pongs that are in time by the period at sending do not always keep the
  tunnel alive: `AliveIffNeverOvertaken` has the exact condition and
  `DeadThoughEchoedInTime` a run.
- `parseAccountIdInt` is documented to parse a strictly integer identifier
  (accountUtils.ts:100); unary plus reads white space as 0, so a space passes for a zero:
  `AcceptedIsStrictlyIntegerIff`, `SpaceForZeroAccepted`, `BlankedNumberAccepted`. Typed
  input does not get there: its one caller, `parseAccountIdInput` (accountUtils.ts:114-116),
  removes everything but digits first (`ParsedInputIff`).
- `everLoaded` is documented to say whether a load ever ended, successfully or otherwise
  (useAsync.ts:89); a failed load counts only if it was the newest when it failed:
  `EverLoadedIff`, `FailedButNeverLoaded`.
- `waitUntil` is documented to return the next published value that satisfies the predicate
  (WatchableValue.swift:49); a value overwritten between two looks is missed:
  `ReturnsFirstIff`, `TransientValueMissed`.

## Conventions

Times are natural numbers: nanoseconds in `Liveness`, milliseconds in `RelayRace`. The clock
does not run backwards (`NotBefore`, `Enabled`). Random bytes, random ranks, completion
orders and all results of the network and the operating system are parameters or events.
A bitwise or of bits that do not overlap (the high half of a network, the content-block
bit set) is an addition. Strings of the user interface are sequences of UTF-16 code units.

## Model

| member | source | states |
|---|---|---|
| Cidr.DisjointMeans | rustlib/src/local_network.rs:86-89 | two prefix comparisons (neither covers the other) decide whether two networks share no address at all |
| Cidr.SharedAddressNests | rustlib/src/local_network.rs:86-89 | two networks with a common address are nested, in the direction of their prefix lengths |
| Cidr.HalvesSplit | rustlib/src/local_network.rs:91-99 | the two halves have clear host bits, are adjacent, and together span exactly the network's addresses |
| Cidr.SpareBit | rustlib/src/local_network.rs:75-76 | halving happens only to a network with a shorter prefix than the cut, so the prefix length never overflows |
| Cidr.SplitStep | rustlib/src/local_network.rs:75-78 | replacing a network by its halves leaves the pieces still to come the same and lowers the weight of the unvisited suffix, which is why the loop ends |
| Cidr.Subtract | rustlib/src/local_network.rs:69-84 | the in-place loop ends with the pieces of every network in order; the result covers an address if and only if the list did and the cut does not; a sorted disjoint list stays sorted and disjoint |
| Cidr.SubtractExact | rustlib/src/local_network.rs:69-84 | the same exactness for the specification function, for every address of every list |
| Cidr.SubtractAscending | rustlib/src/local_network.rs:69-84 | address order and disjointness are kept, and nothing leaves the span of the list |
| Cidr.PieceCount | rustlib/src/local_network.rs:73-81 | a hole of prefix length q in a block of prefix length p leaves exactly q - p blocks |
| Cidr.SubtractGrowth | rustlib/src/local_network.rs:69-84 | one cut grows a pairwise disjoint list by at most the address width less one |
| CanonicalRoutes.SubtractEach | rustlib/src/local_network.rs:54-58 | the fold as a loop computes the recursive fold |
| CanonicalRoutes.FoldExact | rustlib/src/local_network.rs:54-58 | folding over cuts removes exactly the union of the cuts |
| CanonicalRoutes.FoldGrowth | rustlib/src/local_network.rs:54-58 | the number of routes is at most linear in the number of cuts |
| CanonicalRoutes.PiecesCharacterized | rustlib/src/local_network.rs:73-81 | which aligned blocks one subtraction leaves: those inside the network that miss the cut and whose parent does not |
| CanonicalRoutes.FoldIsMaximalFree | rustlib/src/local_network.rs:57-58 | a block is in the result if and only if it is aligned, meets no cut, and its parent block meets one |
| CanonicalRoutes.FoldDependsOnCoverageOnly | rustlib/src/local_network.rs:57-58 | cuts that cover the same addresses give the identical route list |
| CanonicalRoutes.FoldOrderIndependent | rustlib/src/local_network.rs:57-58 | the order of the cuts does not matter |
| CanonicalRoutes.NoMergeableSiblings | rustlib/src/local_network.rs:57-58 | the result never contains both halves of a block |
| CanonicalRoutes.FoldIsShortest | rustlib/src/local_network.rs:57-58 | every CIDR list that covers the same addresses, overlapping or not, is at least as long |
| LocalNetwork.Lan4Ranges | rustlib/src/local_network.rs:8-16 | the IPv4 LAN prefixes are exactly the ranges of section 3 of RFC 1918 and the link-local, broadcast and multicast ranges, by first and last address |
| LocalNetwork.Lan6Ranges | rustlib/src/local_network.rs:18-26 | the IPv6 LAN prefixes are exactly fe80-febf, fc00-fdff and ff01-ff05 in the first group |
| LocalNetwork.HostsByFamily | rustlib/src/local_network.rs:45-52 | the loop separates the DNS servers by family, in order, as host networks |
| LocalNetwork.TunnelRoutes | rustlib/src/local_network.rs:40-60 | an address is routed if and only if local access is off, it is no LAN address, or it is a DNS server |
| LocalNetwork.TunnelRoutesExact | rustlib/src/local_network.rs:40-60 | the same for the specification function, against the reference ranges |
| LocalNetwork.RoutesIgnoreServerOrder | rustlib/src/local_network.rs:40-60 | order and repetition of the DNS servers do not change the route list |
| LocalNetwork.RoutesShortest | rustlib/src/local_network.rs:40-60 | no route list with the same effect on every address is shorter |
| RouteForm.RoutesWellFormed | rustlib/src/local_network.rs:34-60 | every route's prefix fits its family and its address is a multiple of the block size; IPv4 routes come before IPv6 routes, and within a family each block ends before the next begins |
| RouteForm.BlockCovers | rustlib/src/local_network.rs:34-38 | such a route covers exactly the 2^(width - prefix) addresses from its own on, so it carries the smallest address it covers |
| NetworkConfig.NewTunnelNetworkConfig | rustlib/src/network_config.rs:25-40 | succeeds if and only if there is a DNS server and an address of each family; otherwise which error comes first |
| NetworkConfig.BlockServersAreDistinct | rustlib/src/network_config.rs:81-89 | different sets of blocked categories give different DNS servers, and only the empty set gives none |
| NetworkConfig.ServerByteTellsCategories | rustlib/src/network_config.rs:81-89 | each blocked category is one bit of the server's last byte |
| NetworkConfig.DnsStaysInTunnel | rustlib/src/network_config.rs:116-148 | every DNS server of the operating-system configuration is routed into the tunnel; an address bypasses it if and only if local access is on and it is a LAN address and no DNS server |
| NetworkConfig.OsDnsServers | rustlib/src/network_config.rs:116-148 | the one server that blocks exactly the chosen categories for the Mullvad provider with a category chosen, else the tunnel's servers, of which there is one; addresses, MTU and the system DNS setting are those given |
| NetworkConfig.DummyIsPrivate | rustlib/src/network_config.rs:42-49 | the placeholder's addresses and DNS server are private ones, and its DNS server is routed into the tunnel all the same |
| NetworkConfig.DummyCapturesTheSame | rustlib/src/network_config.rs:151-170 | apart from the DNS servers, the placeholder configuration captures the same addresses as the real one |
| Liveness.LivenessChecker.constructor | rustlib/src/liveness.rs:47-59 | a new checker has no history and satisfies the invariant |
| Liveness.LivenessChecker.CurrentProbeLostPeriod | rustlib/src/liveness.rs:61-67 | twice the slowest round trip among all accepted pongs of the window, clamped, although only the deque's front is read |
| Liveness.LivenessChecker.LostProbeCountAndTimeOfNextLoss | rustlib/src/liveness.rs:70-79 | the early-exit scan returns the count over the whole queue and the earliest later expiry |
| Liveness.LivenessChecker.TransmitPing | rustlib/src/liveness.rs:233-255 | the packet has the size of the MTU and the tunnel's addresses, carries the payload of the probe just queued and its id split over two 16-bit fields, and its echo matches exactly that probe |
| Liveness.LivenessChecker.OnSentTraffic | rustlib/src/liveness.rs:83-92 | an overdue probe is sent with user traffic, otherwise the traffic is only noted |
| Liveness.LivenessChecker.OnWake | rustlib/src/liveness.rs:96-106 | all history is forgotten and the first probe of the waking checker is sent |
| Liveness.LivenessChecker.OnPoll | rustlib/src/liveness.rs:108-161 | refines the specification of a poll: the answer, the time it names, the packet and the new state |
| Liveness.LivenessChecker.ProcessPotentialProbeResponse | rustlib/src/liveness.rs:164-213 | refines the specification of receiving a packet, for every packet |
| Liveness.LivenessChecker.FindPing | rustlib/src/liveness.rs:180-186 | the first outstanding probe with that id and payload |
| Liveness.LivenessChecker.PopSlowestPongs | rustlib/src/liveness.rs:220-229 | exactly the pongs that left the window go at the front, and exactly the run of no slower ones at the back |
| Liveness.LivenessChecker.UpdateSlowestPongsList | rustlib/src/liveness.rs:219-231 | the monotonic deque of the history extended by the new pong |
| Liveness.SendPingOrdered | rustlib/src/liveness.rs:233-255 | outstanding ids stay the contiguous range below the next id, and send times ascend |
| Liveness.ReceiveOrdered | rustlib/src/liveness.rs:187-202 | so they do on receiving, and accepted ids ascend below that range |
| Liveness.FrontIsSlowest | rustlib/src/liveness.rs:61-67 | the deque's front has the naive maximum round-trip time of the window |
| Liveness.DequeIsSuffixMaxima | rustlib/src/liveness.rs:215-231 | a pong is in the deque if and only if it is in the window and every later pong was faster |
| Liveness.DequePush | rustlib/src/liveness.rs:219-231 | dropping the too old and the no slower and pushing the new pong keeps the deque |
| Liveness.WindowSpans101 | rustlib/src/liveness.rs:215-226 | an example of the window's edge: pong 0 still counts, and is in the deque, when pong 100 was accepted, and not when pong 101 was; `OnlyLastPingsIff` is the general statement |
| Liveness.OnlyLastPingsIff | rustlib/src/liveness.rs:215-231 | the deque holds only answers to the last 100 sent pings if and only if every older pong still in the window was matched in slowness by a later one |
| ShrinkingPeriod.SlowPongOutlivesLastPings | rustlib/src/liveness.rs:215-231 | a run from a new connection after which the deque holds a pong that answers none of the last 100 pings |
| Liveness.CountSplit | rustlib/src/liveness.rs:70-79 | with ascending send times the lost probes are a prefix, and the first other one expires next |
| LivenessRuns.DeadIff | rustlib/src/liveness.rs:111-125 | Dead if and only if more than four probes, or one after a wake-up, were outstanding for the loss period |
| LivenessRuns.LossPeriodIs | rustlib/src/liveness.rs:61-67 | the loss period is the least time of at least one second that is at least twice every round trip of the window, or thirty seconds |
| ProbeSchedule.PollSendsIff | rustlib/src/liveness.rs:127-144 | in every run a poll that is not Dead sends a probe if and only if none has left yet, the latest left 55 seconds ago, or it left a second ago and user traffic passed since or a probe is lost |
| ProbeSchedule.TrafficSendsIff | rustlib/src/liveness.rs:83-92 | in every run user traffic sends a probe itself if and only if none has left yet or the latest left more than a second ago |
| ProbeSchedule.BusyIsProbed | rustlib/src/liveness.rs:83-161 | after user traffic that sent no probe, until the next one leaves, no poll a second past the latest probe answers AliveUntil, and a poll is due within a second of the traffic |
| ProbeSchedule.IdleIsNotProbed | rustlib/src/liveness.rs:127-161 | without user traffic and lost probes no poll sends before 55 seconds have passed since the latest probe |
| LivenessRuns.AliveUntilSound | rustlib/src/liveness.rs:142-160 | the named time is in the future and at most a second away, and no earlier poll would answer otherwise |
| LivenessRuns.AliveUntilExact | rustlib/src/liveness.rs:148-160 | a named time short of the full second is one at which a probe is lost or due |
| LivenessRuns.SendsOncePerWakeUp | rustlib/src/quicwg.rs:515-521 | within a second of sending a probe no poll sends another |
| LivenessRuns.PollUntilSettled | rustlib/src/quicwg.rs:515-521 | whatever the clock reads at each poll, if less than a second passes the driver's loop ends, sends one probe if and only if the first poll says so, and ends as specified |
| LivenessRuns.RunInv | rustlib/src/quicwg.rs:513-522 | after every run the checker is ordered and the next poll is due within a second and an idle period of the last probe |
| LivenessRuns.DetectionBound | rustlib/src/liveness.rs:108-161 | from every reachable state, a silence is detected by the idle period, twice the loss period and three seconds after the last probe |
| LivenessRuns.WakeDetectionBound | rustlib/src/liveness.rs:96-106 | after a wake-up without answer the tunnel is dead within two seconds |
| LivenessRuns.PollsAdvance | rustlib/src/quicwg.rs:513-522 | every poll moves the next one into the future, so bounded time means boundedly many polls |
| PongTiming.PromptPongsNeverDead | rustlib/src/liveness.rs:61-161 | for every run from a new connection: if each probe it sends is echoed before any poll one second or more after sending, the tunnel is never declared dead |
| PongTiming.AliveIffNeverOvertaken | rustlib/src/liveness.rs:61-161 | if each probe is echoed while the loss period in force when it left lasts, the tunnel stays alive if and only if at no poll more than the tolerated number of probes are under way and every pong of the window took at most half as long as the last tolerated one is |
| ShrinkingPeriod.DeadThoughEchoedInTime | rustlib/src/liveness.rs:61-79 | a run from a new connection in which no probe is overdue by the period at sending, and which ends with Dead |
| LivenessRuns.EchoAccepted | rustlib/src/liveness.rs:164-203 | the echo of any outstanding probe is accepted, settles it and all older ones, and is ignored when repeated |
| LivenessRuns.UnmatchedIgnored | rustlib/src/liveness.rs:176-212 | a packet is ignored, without any effect, if and only if it echoes no outstanding probe |
| TunnelState.PublishedState.CurrentStats | rustlib/src/tunnel_state.rs:74-92 | the counters are at least those carried over, at least those of the live connection, and at most their sum; the session id is kept |
| TunnelState.PublishedState.SetConnecting | rustlib/src/tunnel_state.rs:98-111 | the published statistics do not change, a new session starts at zero, and from Connecting error, reason and interface stay |
| TunnelState.PublishedState.SetConnected | rustlib/src/tunnel_state.rs:113-128 | publishing the same connection twice changes no counter; publishing another lowers none and includes all of its counters |
| TunnelState.PublishedState.SetConnectError | rustlib/src/tunnel_state.rs:130-139 | recorded exactly in Connecting, and every other field is unchanged |
| Maintain.ReconcilePublished | rustlib/src/tunnel_state.rs:203-229 | the reconcile step on the published cell; statistics published within a session survive it |
| Maintain.RunKeeps | rustlib/src/tunnel_state.rs:183-381 | every run keeps the agreement of target, state and configuration, the origin of reasons, and the traffic accounts |
| Maintain.NeverStuck | rustlib/src/tunnel_state.rs:231-380 | after every run the loop can take its next step |
| Maintain.RunsAgree | rustlib/src/tunnel_state.rs:203-380 | after the reconcile step: None target means Disconnected, no interface means Connecting, otherwise Connected exactly to the target or Connecting with its arguments; while forwarding the operating system has that connection's configuration, while connecting the placeholder, and while switched off none |
| Maintain.ForwardingWasConfigured | rustlib/src/tunnel_state.rs:323-343 | in every run that ends forwarding, the operating system accepted that connection's real configuration and the loop has forwarded with it ever since |
| TargetLooks.LooksAgain | rustlib/src/tunnel_state.rs:183-189 | in every run, after a refusal of the operating system, a failed connection, the end of forwarding or a noticed change, the loop can read the target, does so before anything else, and reads the target of that moment |
| TargetLooks.RoundIsShort | rustlib/src/tunnel_state.rs:183-381 | from wherever a run has led, the loop takes at most four steps of its own before it reads the target |
| TargetLooks.ConnectionKeptIff | rustlib/src/tunnel_state.rs:163-229 | reading the target keeps a connection if and only if nothing broke it and it has the arguments and the interface asked for |
| Maintain.UnsetOnlyWhenDisconnected | rustlib/src/tunnel_state.rs:347-364 | after every run, the configuration is unset only for a None target and a Disconnected state |
| Maintain.ErrorsRecorded | rustlib/src/tunnel_state.rs:265-287 | after every run, each reported error hits Connecting and is recorded, except that of the real configuration while Connected |
| Maintain.PublishedErrorIsLast | rustlib/src/tunnel_state.rs:98-139 | in every run the published error is the last one reported since the state entered Connecting |
| Maintain.RealConfigErrorRecordedIff | rustlib/src/tunnel_state.rs:323-329 | the error of the real configuration is recorded if and only if the state is not already Connected |
| Maintain.ErrorLostWhileConnected | rustlib/src/tunnel_state.rs:323-329 | a run in which it is lost |
| Maintain.ReasonIsEarlierFailure | rustlib/src/tunnel_state.rs:332-343 | a published disconnect reason is a receive failure that occurred earlier in the run |
| Maintain.ReasonSurvivesDisconnect | rustlib/src/tunnel_state.rs:209-228 | from every state with a pending failure, switching off and on again publishes it |
| Maintain.ReasonSurvivesFromStart | rustlib/src/tunnel_state.rs:209-228 | a run from the start in which a new session publishes the failure that ended the previous one |
| Maintain.PublishedReasonIff | rustlib/src/tunnel_state.rs:209-228 | in every run, entering Connecting publishes a failure if and only if forwarding last ended with it and Connecting was not entered since |
| Maintain.PublishedInterfaceIff | rustlib/src/tunnel_state.rs:98-111 | when the interface published in Connecting is the target's |
| Maintain.InterfaceStaysBehind | rustlib/src/tunnel_state.rs:98-111 | a run from the start in which it is not |
| Maintain.TrafficConserved | rustlib/src/tunnel_state.rs:74-128 | after every run the published counters are the saturated sums over all connections of the session, which are pairwise different |
| Maintain.StepNeverLowers | rustlib/src/tunnel_state.rs:74-128 | within a session no step lowers a counter or changes the connection id |
| Maintain.SessionNeverLowers | rustlib/src/tunnel_state.rs:74-128 | nor does any run |
| RelayFraming.ByteStream.ReadExact | rustlib/src/quicwg.rs:1041-1045 | all the bytes asked for, or an error at the end of the stream |
| RelayFraming.RecvSkip | rustlib/src/quicwg.rs:1007-1017 | consumes exactly n bytes for every n, or fails at the end of the stream |
| RelayFraming.RecvMessage | rustlib/src/quicwg.rs:1019-1039 | refines the specification of the receiver on every byte stream |
| RelayFraming.RecvFrame | rustlib/src/quicwg.rs:1019-1039 | a complete frame is delivered or skipped, and consumed exactly |
| RelayFraming.StaysInSync | rustlib/src/quicwg.rs:1019-1039 | on complete frames the first one of acceptable length and known code is returned, and the stream is left exactly at its end |
| RelayFraming.DeliverableFramesArrive | rustlib/src/quicwg.rs:1019-1039 | exactly the deliverable frames arrive, in order |
| RelayFraming.ByteSink.SendMessage | rustlib/src/quicwg.rs:997-1005 | three writes and a flush: written is the whole message, or as much of its beginning as the transport took before failing, or nothing if the length does not fit 32 bits; success means written and flushed |
| RelayFraming.PlainCodecOk | rustlib/src/quicwg.rs:997-1032 | a codec with the assumed properties exists, and decodes every known code |
| RelayFraming.SendableIff | rustlib/src/quicwg.rs:997-1000 | a message can be sent if and only if its argument has at most 4294967291 bytes, and takes twelve bytes more on the wire |
| RelayFraming.SendRecv | rustlib/src/quicwg.rs:997-1039 | receiving what was sent returns the message for arguments up to 65535 bytes; a longer one is skipped |
| RelayFraming.AckQueue.ReceiveWgMessage | rustlib/src/quicwg.rs:961-984 | refines the specification: outcome, acknowledgements queued, and bytes left |
| RelayFraming.FirstMessageDecides | rustlib/src/quicwg.rs:961-984 | what a call returns and acknowledges is decided by the first message of the stream that is not an Ok response, and the messages after it are left |
| RelayFraming.OpsAcknowledgedInOrder | rustlib/src/quicwg.rs:961-984 | over all calls every operation is queued for acknowledgement once, in order, and every packet is returned in order |
| RelayWriter.StepKeeps | rustlib/src/quicwg.rs:842-891 | every atomic action keeps the invariant of the queues |
| RelayWriter.EveryInterleaving | rustlib/src/quicwg.rs:842-891 | acknowledgements written, in hand and queued are the received operations in order; likewise the packets offered while there was room, at most 1000 queued; the writer never sleeps on work without a pending notification |
| RelayWriter.DroppedIffFull | rustlib/src/quicwg.rs:932-938 | a packet is dropped if and only if 1000 are queued |
| RelayWriter.OksBeforePackets | rustlib/src/quicwg.rs:847-857 | a packet is taken only when every received operation has been acknowledged |
| RelayWriter.FailureEndsWriter | rustlib/src/quicwg.rs:858-884 | in every run only received operations and offered packets follow a failed write, and what was sent is what had been sent before it |
| RelayWriter.WriterAdvances | rustlib/src/quicwg.rs:845-890 | until it is idle the writer has a step to take, and each lowers a measure |
| RelayWriter.QueuesDrain | rustlib/src/quicwg.rs:845-890 | left to itself the writer sends everything received and accepted, in order, and goes idle |
| RelayWriter.TrafficState.QueueOk | rustlib/src/quicwg.rs:969-969 | the receiver's action on the shared queues |
| RelayWriter.TrafficState.SendWgMessage | rustlib/src/quicwg.rs:932-938 | a sender's action |
| RelayWriter.TrafficState.TakeWork | rustlib/src/quicwg.rs:847-887 | the writer's choice of what to write, by swapping or popping the queues |
| RelayWriter.TrafficState.Written | rustlib/src/quicwg.rs:858-884 | the end of a write, successful or not |
| RelayWriter.TrafficState.Changed | rustlib/src/quicwg.rs:889-889 | the writer wakes up on a change |
| RelayEndToEnd.LogIsSent | rustlib/src/quicwg.rs:858-884 | in every run the messages written, packets and acknowledgements on one stream, are exactly those sent, each kind in order |
| RelayEndToEnd.WireDecodes | rustlib/src/quicwg.rs:997-1039 | the peer decodes exactly the written messages of acceptable length, in order, whatever part of one more message follows |
| RelayEndToEnd.RelayDecodesLog | rustlib/src/quicwg.rs:842-1039 | in every run the relay decodes the log of the writer; its Ok responses are all acknowledgements sent and its packets all acceptable packets sent |
| RelayEndToEnd.FailureEndsLog | rustlib/src/quicwg.rs:858-884 | in every run nothing is put on the wire after a failed write |
| RelayEndToEnd.OperationsAcknowledged | rustlib/src/quicwg.rs:838-1045 | at every moment of every run, on the stream that also carries packets, the Ok responses decoded acknowledge a prefix of the operations delivered, in frame order, and the packets decoded are a prefix of those accepted; when all was received and the writer is idle both are complete |
| Verhoeff.TableIsDihedral | obscura-ui/src/common/accountUtils.ts:4-15 | the multiplication table is that of the symmetries of the pentagon |
| Verhoeff.MulAssociative | obscura-ui/src/common/accountUtils.ts:4-15 | it is associative |
| Verhoeff.LeftCancel | obscura-ui/src/common/accountUtils.ts:4-28 | it cancels on the left |
| Verhoeff.RightCancel | obscura-ui/src/common/accountUtils.ts:4-28 | it cancels on the right |
| Verhoeff.RowsArePowers | obscura-ui/src/common/accountUtils.ts:17-26 | the permutation rows are the powers of row 1, cyclically |
| Verhoeff.PermInjective | obscura-ui/src/common/accountUtils.ts:17-26 | at every position the permutation is injective |
| Verhoeff.AntiSymmetric | obscura-ui/src/common/accountUtils.ts:4-26 | row 1 makes unequal neighbours not commute |
| Verhoeff.CheckDigitIff | obscura-ui/src/common/accountUtils.ts:40-46 | for numbers of any length, an appended digit validates if and only if it is the check digit |
| Verhoeff.KnownCheckDigit | obscura-ui/src/common/accountUtils.ts:30-42 | a published example of the scheme: the check digit of 236 is 3 |
| Verhoeff.SingleErrorDetected | obscura-ui/src/common/accountUtils.ts:30-46 | changing any one digit of a valid number of any length invalidates it |
| Verhoeff.TranspositionDetected | obscura-ui/src/common/accountUtils.ts:30-46 | so does swapping any two unequal neighbours |
| AccountNumber.AcceptedIsStrictlyIntegerIff | obscura-ui/src/common/accountUtils.ts:100-112 | an accepted identifier is strictly an integer if and only if it holds no white space |
| AccountNumber.SpaceForZeroAccepted | obscura-ui/src/common/accountUtils.ts:100-112 | any zero of an accepted identifier may be a space |
| AccountNumber.BlankedNumberAccepted | obscura-ui/src/common/accountUtils.ts:100-112 | a concrete accepted identifier that is not an integer |
| AccountNumber.ParsedInputIff | obscura-ui/src/common/accountUtils.ts:101-120 | typed input is accepted if and only if its digits are twenty with a valid checksum, and yields those digits; it is too short or too long if and only if they are fewer or more |
| AccountNumber.NormalizeKeepsDigits | obscura-ui/src/common/accountUtils.ts:118-120 | normalising keeps the digits, in order, and nothing else |
| AccountNumber.GeneratedShowsId | obscura-ui/src/common/accountUtils.ts:66-69 | the first nineteen of the twenty digits are the identifier in decimal |
| AccountNumber.GeneratedAccepted | obscura-ui/src/common/accountUtils.ts:66-69 | every generated number is accepted, different identifiers give different numbers, and any mistyped digit is rejected |
| AccountNumber.MistypedRejected | obscura-ui/src/common/accountUtils.ts:101-112 | an accepted number with one digit changed is rejected as mistyped |
| AccountNumber.SwappedRejected | obscura-ui/src/common/accountUtils.ts:101-112 | so is one with two unequal neighbours swapped |
| AccountNumber.FormatLosesNothing | obscura-ui/src/common/accountUtils.ts:118-128 | normalising the formatted text gives the digits of the input |
| AccountNumber.FormatIdempotent | obscura-ui/src/common/accountUtils.ts:122-128 | formatting twice is formatting once |
| AccountNumber.ParseIgnoresFormatting | obscura-ui/src/common/accountUtils.ts:114-128 | formatted text parses to what the text parses to; the formatted form of a valid number parses to it |
| AccountNumber.GroupShape | obscura-ui/src/common/accountUtils.ts:51-52 | in the grouped form, position i is a digit if and only if i mod 7 is below 4; the others are a space, a hyphen and a space |
| AccountNumber.GroupLength | obscura-ui/src/common/accountUtils.ts:127-127 | there is one separator for each block of four that more digits follow |
| AccountNumber.BranchesAgreeIff | obscura-ui/src/common/accountUtils.ts:124-127 | the fixed slices equal the grouping if and only if there are exactly twenty digits |
| AccountNumber.LongTailAppended | obscura-ui/src/common/accountUtils.ts:124-126 | digits beyond the twentieth follow the formatted first twenty without a separator |
| AccountNumber.EndsInDigit | obscura-ui/src/common/accountUtils.ts:122-128 | formatted text never ends in a separator |
| ExitSelection.MatchesIff | rustlib/src/exit_selection.rs:25-34 | the selectors that match an exit are Any, its id, its country and its city |
| ExitSelection.AllowedIff | rustlib/src/exit_selection.rs:81-86 | an exit may be selected if and only if it was not since the last reset, and fewer than 2, 4 and 6 selections were of its datacenter, city and country |
| ExitSelection.BestIffChosen | rustlib/src/exit_selection.rs:50-79 | the last exit of the highest rank is the one the relay prefers, if it prefers an eligible one; among those alike in that, one of its city, then of its country, then of the highest tier, then of the highest draw, then the last |
| ExitSelection.AtMostIsTotalOrder | rustlib/src/exit_selection.rs:74-79 | ranks are totally ordered |
| ExitSelection.SelectedWithinCaps | rustlib/src/exit_selection.rs:81-86 | between resets no exit repeats and at most 2, 4 and 6 share a datacenter, city and country |
| ExitSelection.SelectorExhausts | rustlib/src/exit_selection.rs:25-34 | a history of exits that all match a fixed exit, city or country is at most 1, 4 or 6 long |
| ExitSelection.CapsBelowSaturation | rustlib/src/exit_selection.rs:58-65 | the saturating counters never saturate |
| ExitSelection.ExitSelectionState.BestCandidate | rustlib/src/exit_selection.rs:52-56 | the exit chosen so, compared with every eligible exit on the fields themselves, or none if none is eligible |
| ExitSelection.ExitSelectionState.SelectNextExit | rustlib/src/exit_selection.rs:50-72 | selects that exit and counts it, or resets the state if and only if none is eligible |
| ExitSelection.ExitSelectionState.Count | rustlib/src/exit_selection.rs:58-65 | the set and the three maps count the history extended by the exit |
| ExitSelection.ExitSelectionState.SelectFresh | rustlib/src/exit_selection.rs:50-72 | the call after a reset succeeds if and only if some exit matches |
| ExitSelection.ExitSelectionState.SelectRepeatedly | rustlib/src/exit_selection.rs:50-72 | repeated calls never return an exit twice, succeed at most 1, 4 or 6 times for a fixed exit, city or country, and stop only when no allowed exit matches |
| ExitCounts.CountsConserved | rustlib/src/exit_selection.rs:58-65 | selected ids = sum over datacenters = sum over countries, and each country = the sum of its cities |
| RelayRace.SpawnTasks | rustlib/src/relay_selection.rs:88-119 | a relay and a port are tried if and only if the port is among the first five of one of the first hundred relays: one task each, at most 500 |
| RelayRace.RelayHandshakeRace.Next | rustlib/src/relay_selection.rs:45-71 | the first success before the deadline, when it is seen, and why there is none otherwise |
| RelayRace.RelayHandshakeRace.Abandon | rustlib/src/relay_selection.rs:17-43 | every handshake that still succeeds is abandoned, and failures and cancellations are counted |
| RelayRace.DeadlineBound | rustlib/src/client_state.rs:555-590 | the deadline is at most thirty seconds after the start, and five once there is a candidate |
| RelayRace.ClockIsLatest | rustlib/src/relay_selection.rs:45-71 | the time at which the last of some tasks, waited for in order, is seen is the latest of the start and their ends |
| RelayRace.CountIs | rustlib/src/relay_selection.rs:17-43 | the counted failures and cancellations are as many as the tasks that ended so |
| RelayRace.BestFoundAt | rustlib/src/client_state.rs:579-590 | the best is the last of the fastest, and the time to stop counts from when it was found |
| RelayRace.RaceKept | rustlib/src/client_state.rs:579-593 | the best is a fastest handshake of all yielded, and the others are exactly the rejected ones |
| RelayRace.SelectRelay | rustlib/src/client_state.rs:555-600 | returns a fastest yielded handshake, rejects all others once, takes at most one iteration for each task and one more, and stops only when five relays answered, no task is left, or the next one ends after thirty seconds, or with a best one after three times as long as finding it took but at most five seconds; it stops by then |
| RelayRace.SelectAndAbandon | rustlib/src/client_state.rs:555-608 | every handshake any task ever produced is returned or abandoned, exactly once |
| AsyncMutex.MutexSafe | apple/shared/Concurrency.swift:173-242 | in every interleaving a guard is live if and only if the mutex is locked, at most one is, guards go out in order of arrival, and no waiter is lost |
| AsyncMutex.DropsServeAll | apple/shared/Concurrency.swift:222-235 | dropping guards one after another serves every waiter and unlocks the mutex |
| AsyncMutex.AsyncMutexObject.LockFor | apple/shared/Concurrency.swift:207-220 | the guard is handed out at once if and only if the mutex was unlocked; otherwise the waiter queues last |
| AsyncMutex.AsyncMutexObject.Unlock | apple/shared/Concurrency.swift:222-235 | the first waiter gets the guard, or the mutex is unlocked |
| Timeout.ResumedExactlyOnce | apple/shared/Concurrency.swift:101-136 | whichever comes first, the end of the operation or the timer, resumes the continuation, exactly once; the operation is cancelled if and only if the timer won |
| PendingTasks.PendingTasks.Complete | apple/shared/Concurrency.swift:64-77 | all waiters are resumed exactly when the count reaches zero; completing too many counts as completing all |
| PendingTasks.PendingTasks.WaitForAll | apple/shared/Concurrency.swift:82-94 | returns at once if and only if no task runs |
| WatchableValue.WatchableValue.Update | apple/shared/WatchableValue.swift:18-27 | every waiter is resumed once, with the new value, and none twice |
| WatchableValue.WatchableValue.GetIfOrNext | apple/shared/WatchableValue.swift:37-47 | resumes at once if and only if the predicate holds of the value; otherwise waits for the next update |
| WatchableValue.ReturnsFirstIff | apple/shared/WatchableValue.swift:49-57 | only satisfying values are returned, and the first one if and only if no event of the run overwrites a satisfying value between two looks |
| WatchableValue.TransientValueMissed | apple/shared/WatchableValue.swift:49-57 | a run in which the first satisfying value is missed |
| UseAsync.EveryOrder | obscura-ui/src/common/useAsync.ts:28-67 | in every completion order: never a value and an error together, what is shown is the result of one load, every newer settled load failed while stale, and a settled newest load is shown |
| UseAsync.AcceptedIff | obscura-ui/src/common/useAsync.ts:37-63 | an error is shown if and only if it belongs to the newest load, a value if and only if nothing newer is shown |
| UseAsync.StaleIgnored | obscura-ui/src/common/useAsync.ts:131-167 | once the newest load has settled, no stale completion changes what is shown |
| UseAsync.LastSuccessfulIsLastShown | obscura-ui/src/common/useAsync.ts:37-67 | in every run the last successful value is the latest value ever shown: errors and stale loads do not touch it |
| UseAsync.ReturnedIsCurrent | obscura-ui/src/common/useAsync.ts:173-181 | in every run `loading` says exactly that the newest load has not settled, the current value is that of the newest load, and a value or an error is set exactly when `everLoaded` says so |
| UseAsync.EverLoadedIff | obscura-ui/src/common/useAsync.ts:173-181 | in every run `everLoaded` says exactly that some load settled with a value or failed while it was the newest |
| UseAsync.FailedButNeverLoaded | obscura-ui/src/common/useAsync.ts:173-181 | a run in which a load failed and `everLoaded` is false |
| UseAsync.RunKeeps | obscura-ui/src/common/useAsync.ts:131-167 | the versions never decrease and the invariant is kept |
| UseAsync.CallbacksConserved | obscura-ui/src/common/useAsync.ts:117-167 | no step loses or repeats a refresh callback |
| UseAsync.CalledWithOwnResult | obscura-ui/src/common/useAsync.ts:28-56 | a callback is called only when the load that took it settles, with that result |
| UseAsync.AllCalled | obscura-ui/src/common/useAsync.ts:117-167 | when no load is pending every registered callback was called exactly as often as registered |
| UseAsync.UseAsyncState.NewVersion | obscura-ui/src/common/useAsync.ts:139-139 | the version is fresh |
| UseAsync.UseAsyncState.SetLoaded | obscura-ui/src/common/useAsync.ts:28-47 | refines settling with a value, and reports whether it is shown |
| UseAsync.UseAsyncState.SetFailed | obscura-ui/src/common/useAsync.ts:49-67 | refines settling with an error, and reports whether it is shown |

## Left out

- Liveness.LivenessChecker.TransmitPing: requires fewer than 2^32 probes for one checker, where the source's counter overflows; the same holds for sending with traffic and for polling.
- LivenessRuns.DetectionBound: assumes that each poll runs at the time the previous one returned, and that the loop around `poll` takes no time; `PollUntilSettled` lets time pass in it.
- RelayEndToEnd.OperationsAcknowledged: the context of client-initiated messages is a parameter, because its value is defined outside the repository.
- PongTiming.PromptPongsNeverDead: "in time" is judged at the polls, the only moments at which the tunnel can be declared dead.
- Maintain.RunsAgree: the operating-system configuration is the last one the operating system accepted; the DNS, local-access and bypass settings are one token that the loop passes on.
- RelayRace.SelectRelay: handling a completed handshake takes no time, and the environment chooses when and how each task ends.
- WatchableValue.ReturnsFirstIff: one caller at a time; other callers do not influence what it sees.
- UseAsync.EveryOrder: a load that returns without a promise is a load that settles at once; rendering, `skip`, and loads that return `undefined` are not modelled, and callbacks have an identity of their own.
- Overflow of `WakeInstant` (64-bit nanoseconds) and of the counter of `PendingTasks` (64 bits).
- The debounce period, key rotation and the exit-selection resets of the `maintain` loop: time and side conditions that none of the proved properties depends on.
- The byte layout of message headers and codes, which a library outside the repository defines: the codec is a parameter that round-trips headers of 8 bytes and writes codes of 4 bytes.
- QUIC, TLS, WireGuard cryptography, packet building and fragmentation: abstract results; an echo reply is a copy of the request's id, sequence number and payload (RFC 792, Echo or Echo Reply Message).
- The retry loop that draws a random account identifier, and the one-second grace period for abandoning handshakes.
- The route list in builds other than Android, where the configuration carries no routes.
- The atomic box, ticket identities and logging of the Apple helpers; `Callbacks` appears only as the set of waiters of `PendingTasks`.
- HTTP calls, caches, configuration files, command plumbing, user interface, start-up and logging: input and output with little logic.
