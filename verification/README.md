# Veilink, modelled and proved in Dafny

Veilink is a small VPN. A server gives each configured token an IPv4 address; a client connects
over a WebSocket, gets its address, and the two ends exchange IPv4 packets in small frames. What
makes it hard is that sessions race for an address, packets pass through bounded queues from
reused buffers, and a client reconnects again and again while its routes must stay in place.

## How it is organised

| files | what they model |
|---|---|
| `Prelude.dfy` | bytes, results, counting and summing over sequences, in-order subsequences |
| `Frame.dfy`, `Ipv4.dfy` | the frame codec and the IPv4 header check |
| `HubSpec.dfy` | what the hub's critical sections do to the registry, and "the latest registration wins" |
| `Hub.dfy` | the hub, the packet loop and the write loop as classes and methods on the heap: a map field, counters, queues of byte arrays, one reused read buffer |
| `Tunnel.dfy` | one server session on the heap: Register, the read loop, the deferred Unregister and cancel |
| `ServerMachine.dfy` | the server as interleaved steps, split at the hub's lock boundaries |
| `ServerOwnership.dfy`, `ServerTraffic.dfy`, `ServerUplink.dfy`, `ServerAccounts.dfy` | what every run of those steps keeps: ownership of addresses, packets to sessions, packets from sessions, counters |
| `Prefixes.dfy`, `Topology.dfy`, `Identities.dfy` | 32-bit mask arithmetic, the topology part of the configuration check, and the identity map made from it |
| `Routes.dfy`, `RouteLookup.dfy` | the transactional client setup over an abstract table, and longest-prefix lookup before, during and after it |
| `ClientRun.dfy`, `ClientResources.dfy` | the client's run as a loop over connection attempts, and the discipline its device, setup, reader and routes obey |
| `ClientMachine.dfy`, `ClientTraffic.dfy`, `ClientDownlink.dfy`, `ClientIo.dfy` | the reader, the shared queue and the two goroutines of each session as interleaved steps; conservation and order over any number of sessions; the reader on the heap |
| `WholeRun.dfy` | the loop and the goroutines of one client run woven together |
| `ServerProgress.dfy`, `ClientProgress.dfy`, `ClientExits.dfy` | the other direction: what the server, the client's goroutines and the client's loop do step by step and turn by turn, by exact conditions, and runs that go as far as the bounds allow |
| `EndToEnd.dfy` | both ends together, session by session |
| `Negotiation.dfy`, `NegotiatedMtu.dfy` | the handshake across both ends, and the rule that packets keep to the negotiated MTU |
| `UplinkReconnects.dfy`, `ServerTurns.dfy`, `DownlinkReconnects.dfy` | both ends over whole runs with any number of reconnects |
| `Runs.dfy`, `Overtaking.dfy` | building blocks of concrete runs, and the runs in which reconnects change the order of packets |

A run of the server or of the client's plumbing is any sequence of steps from the initial state;
a step that is not enabled changes nothing. So a lemma over `steps: seq<Step>` speaks about every
interleaving. One step is what a goroutine does between two points where another one can run:
a critical section of the hub, one side effect after its unlock, one channel operation, one
connection read or write, one device read or write. A read yields a message or fails, a write
succeeds or fails, and a client's writes fail once its session is cancelled. `Exec(c, steps)` is
the state a run reaches.

The methods on the heap (`Hub.dfy`, `Tunnel.dfy`, `Routes.dfy`, `ClientIo.dfy`, `ClientRun.dfy`)
are proved against the same functions the interleaved steps and the lemmas use: `Hub.Hub.Register`
against `HubSpec.Install`, `Hub.PacketLoop` against `Hub.AfterReads`, `Tunnel.ReadLoop` against
`ServerMachine.ServerAccepts`, `Routes.Network.SetupClient` against `Routes.Apply` and
`Routes.UndoAll`, `ClientRun.Run` against `ClientRun.Behaviour`, `ClientIo.ReadTun` against
`ClientMachine.Readable`, `Frame.Encode` and `Frame.Decode` against `Frame.Encoded` and
`Frame.Decoded`.

## Where the code and its documentation differ

The model follows the code.

- `docs/ARCHITECTURE.md:46` calls the replacement of a session atomic. The old session is
  cancelled after the lock is released (`internal/core/hub.go:38-40`), so for a while two
  sessions at one address are live. `ServerOwnership.ReplacementIsAtomicExactlyWhenNoCancelIsPending`
  says exactly when the claim holds, and `ServerOwnership.ReplacementAndGaugeLag` gives a run that
  breaks it and in which the session gauge reads -1 with an empty registry. (The exported metric
  is clamped at 0, `internal/metrics/metrics.go:29`.)
- `docs/PROTOCOL.md:55` bounds packets by the negotiated MTU. From client to server only the
  server's own MTU is checked (`internal/server/server.go:234`): the rule holds for a session if
  and only if its HELLO did not ask for less than the server's MTU
  (`NegotiatedMtu.CheckEnforcesTheNegotiatedMtuExactlyWhen`, and over runs from the start
  `NegotiatedMtu.UplinkRuleBreaksExactlyForSmallerMtus`). From server to client nothing is
  checked (`internal/server/server.go:133-144`): for every handshake some run carries a packet
  over its MTU, and the client loses the session on it
  (`NegotiatedMtu.DownlinkRuleBreaksForEveryMtu`); a carried packet passes the client if and only
  if it fits (`EndToEnd.DispatchedPacketsPassExactlyWhenTheyFit`).
- No document promises order across reconnects, and there is none: a session cancelled with a
  message in hand still writes it. `UplinkReconnects.OrderHoldsExactlyWhenNoneIsOvertaken` and
  `DownlinkReconnects.OrderHoldsExactlyWhenNoneIsOvertaken` say exactly when the order holds, and
  `Overtaking.ReconnectsCanReorder` and `Overtaking.ReconnectsCanReorderDeliveries` give runs
  where it does not. No packet is ever written twice.
- `docs/ARCHITECTURE.md:43` says that shutdown removes only routes and addresses Veilink created.
  A `replace` of a key that was already there is undone by deleting it:
  `Routes.RollbackRestoresExactlyAbsentKeys` shows the table is restored if and only if none of
  the keys was there before.
- The server keeps its direct route only when its address is not also the tunnel gateway:
  `RouteLookup.DefaultTrafficIsCaptured`.

## Model

| member | source | states |
|---|---|---|
| `Frame.Encode` | internal/protocol/frame.go:41-57 | A fresh buffer holds the encoding of the payload's bytes, or the error the source's order of checks gives |
| `Frame.Decode` | internal/protocol/frame.go:59-80 | The frame read from the bytes, with its payload in a fresh copy, or the first failing check's error |
| `Frame.EncodesExactlyTheLayout` | internal/protocol/frame.go:41-57 | Encode writes, for types 1 to 4 and payloads of up to 65,535 bytes and for nothing else, the bytes "VL", version 1, the type, the flags and the length as 16-bit big-endian numbers, and the payload |
| `Frame.DecodeErrors` | internal/protocol/frame.go:59-76 | Which input gets which error, for each of the five |
| `Frame.DecodeInvertsEncode` | internal/protocol/frame.go:41-84 | Decoding an encoding gives the frame back; Encode refuses exactly an unknown type or a payload over 65,535 bytes |
| `Frame.DecodeAcceptsExactlyEncodings` | internal/protocol/frame.go:59-80 | Decode accepts exactly the image of Encode, and re-encoding what it accepted gives the same bytes |
| `Frame.FramesArePrefixFree` | internal/protocol/frame.go:60-76 | A frame cut short or followed by more bytes is refused, with a length error |
| `Ipv4.SerializedDatagramsPass` | internal/protocol/control.go:50-68 | Every valid datagram of section 3.1 of RFC 791, serialised field by field, passes and gives back its own addresses |
| `Ipv4.SerializeInvertsParse` | internal/protocol/control.go:50-68 | Every accepted packet is the serialisation of the datagram read from it |
| `Ipv4.AcceptsExactlyDatagrams` | internal/protocol/control.go:50-68 | The check accepts exactly the serialised datagrams, all of 20 to 65,535 bytes |
| `Ipv4.AcceptsExactlyDatagramsFrom` | internal/protocol/control.go:50-68 | Acceptance with a given source address is exactly the datagrams that carry it |
| `HubSpec.InstallIsRefusedExactlyWhenFull` | internal/core/hub.go:31-38 | A registration is refused exactly for a new address when the registry is full, and otherwise changes the owner of its own address only |
| `HubSpec.RegistryFollowsHistory` | internal/core/hub.go:30-55 | If the registry is what the lock-ordered history says, it still is after an install or an eviction, late evictions of displaced peers included |
| `HubSpec.InstallRespectsCapacity` | internal/core/hub.go:31-38 | Starting within the maximum the registry stays within it, and replacing an owner succeeds even at capacity |
| `Hub.Hub.Register` | internal/core/hub.go:30-46 | Succeeds if and only if the address is registered or the registry is not full; then installs the peer, cancels exactly the displaced one, and moves the gauge only for a fresh address |
| `Hub.Hub.Unregister` | internal/core/hub.go:48-55 | Removes the entry and lowers the gauge only if the entry is still this peer |
| `Hub.Hub.Dispatch` | internal/core/hub.go:57-73 | Queues a fresh copy of the buffer's bytes for the owner if there is room, otherwise counts a drop; no other queue changes |
| `Hub.Hub.CloseAll` | internal/core/hub.go:75-85 | Every registered peer ends up cancelled |
| `Hub.ReadInto` | internal/server/server.go:124-127 | Reading the next packet into the reused buffer changes no queued packet and no counter |
| `Hub.DispatchesExactlyPackets` | internal/server/server.go:133-141 | A read is dispatched as p if and only if its count is from 1 to the buffer's length and p is the serialisation of a valid datagram in exactly that many bytes |
| `Hub.PacketsForAreAll` | internal/server/server.go:126-144 | The packets for an address are, in order, all those read for it before the first failure |
| `Hub.PacketLoopOnce` | internal/server/server.go:126-144 | One iteration counts the read as invalid, or counts the packet and its bytes and queues it, byte for byte, at its destination if there is room and nowhere else, or counts it dropped; no other counter moves |
| `Hub.PacketLoop` | internal/server/server.go:123-146 | Until the device fails, all queues and all four counters of the loop become what the reads make of them, although one buffer serves every read |
| `Hub.QueueGainsItsPackets` | internal/server/server.go:123-146 | What a script of reads makes of each queue: what it had, then the packets addressed to it, in order, as many as fit |
| `Hub.ReadsAreCounted` | internal/server/server.go:123-146 | Each successful read is counted exactly once, as invalid, dropped or queued, packets are the dropped plus the queued, and the bytes are those of the packets read |
| `Hub.WriteLoop` | internal/server/server.go:249-266 | The connection gains the frames of the queued packets in order; the first failure stops it and loses exactly the packet in hand |
| `ServerOwnership.EveryRun` | internal/core/hub.go:30-55 | The inductive invariant over every interleaving: registry entries are registered sessions, what a Register call will cancel is displaced and held by it alone, every live displaced session is so held, and the gauge books balance |
| `ServerOwnership.DisplacedIsCancelledOrHeldOnce` | internal/core/hub.go:30-55 | A session that registered, has not unregistered and no longer owns its address is cancelled or about to be cancelled by exactly one Register call |
| `ServerOwnership.RegisterNeverCancelsAnOwner` | internal/core/hub.go:38-40 | What a Register call is about to cancel is another session, of the same address, that owns nothing |
| `ServerOwnership.OneLiveOwnerAtRest` | internal/core/hub.go:30-55 | With no Register call in flight an address has at most one registered uncancelled session, and it is the owner |
| `ServerOwnership.ReplacementIsAtomicExactlyWhenNoCancelIsPending` | internal/core/hub.go:37-40 | No displaced session is live if and only if no Register call is about to cancel a live one |
| `ServerOwnership.GaugeIsExactUpToFreshRegistrations` | internal/core/hub.go:31-54 | The gauge plus the fresh registrations still before their increment is the number of entries; the gauge is exact if and only if there are none |
| `ServerOwnership.AcceptedCountsRegistrations` | internal/core/hub.go:37-45 | The Accepted counter is the number of registrations so far, up to those in flight |
| `ServerOwnership.LatestRegistrationWins` | internal/core/hub.go:30-55 | After any run the owner of an address is the last session registered there, unless that very session unregistered |
| `ServerOwnership.ReplacementNeverCrossesIdentities` | internal/server/server.go:203-204 | When each digest has its own address, a session is only displaced by one of the same configured client |
| `ServerOwnership.LiveEntriesAreBounded` | internal/core/hub.go:33-37 | Live entries number at most the limit and at most the configured clients |
| `ServerOwnership.ReplacementAndGaugeLag` | internal/core/hub.go:38-42 | A concrete run with two live sessions at one address, and its continuation with the gauge at -1 and no entry |
| `ServerTraffic.DownlinkIsFaithful` | internal/server/server.go:249-266 | What a session's connection carries decodes to an in-order, byte-identical subsequence of the valid packets for its address; all that was queued is carried, in the writer's hand or lost by it, or queued, in that order |
| `ServerTraffic.QueuesAreBoundedAndAddressed` | internal/core/hub.go:57-73 | Every queue ever created holds at most 256 packets, all well-formed and for its own address, although the send follows the unlock |
| `ServerTraffic.WriterEncodeNeverFails` | internal/server/server.go:257-260 | The Encode error of the write loop is unreachable |
| `ServerTraffic.EveryRunDownlink` | internal/server/server.go:123-146 | The invariant behind the above, for every session ever created |
| `ServerProgress.HandshakesThatMakeSessions` | internal/server/server.go:149-203 | A handshake makes a session exactly when the token is configured, the HELLO has a session id of 1 to 128 characters and an MTU of 576 to 1500, and the WELCOME was written; it is that token's session with the smaller MTU |
| `ServerProgress.RegistersExactlyWhen` | internal/core/hub.go:31-38 | Under the lock a session becomes the owner of its address, holding the one it displaced, exactly when the address is registered or the registry is not full |
| `ServerProgress.RegistrationsGoOn` | internal/core/hub.go:39-55 | After the lock a registration cancels the session it displaced or counts a fresh one, and goes on to serve; on the way out a session removes exactly its own entry |
| `ServerProgress.EveryoneCanBeServed` | internal/core/hub.go:30-46 | Any configured tokens with addresses of their own, at most as many as the limit, are all served at once in some run from the start |
| `ServerProgress.SessionsServeEveryMessage` | internal/server/server.go:214-246 | For every handshake and every list of messages that pass, of any length, some run from the start has one session that received all, injected all in order, and is neither cancelled nor leaving |
| `ServerProgress.LeavesExactlyWhen` | internal/server/server.go:214-246 | A session leaves its loop exactly by a cancelled context or stopped writer when it looks, a failed read, a refused message or a failed device write |
| `ServerProgress.CancelledExactlyWhen` | internal/core/hub.go:39-41 | A session is cancelled exactly by its own end, by the end of its request or CloseAll, or by the registration that displaced it |
| `ServerProgress.FinishedMeansCancelled` | internal/server/server.go:201-202 | Over every run a handler that has returned has cancelled its context |
| `ServerProgress.SessionsCarryEveryPacket` | internal/server/server.go:249-266 | For every handshake and every list of packets for its address, of any length, some run from the start has one session that carried all in order and is live |
| `ServerProgress.QueuesFill` | internal/server/server.go:203 | Any list of up to 256 packets can wait for a session at once |
| `ServerProgress.QueueBoundIsReached` | internal/server/server.go:203 | Some run has 256 packets waiting |
| `ServerProgress.ReadsExactlyDatagrams` | internal/server/server.go:133-143 | The loop goes on with p exactly for the reads of a datagram p in exactly that many bytes, and counts every other read invalid and reads on |
| `ServerProgress.DispatchIsExact` | internal/core/hub.go:57-64 | In every run a packet goes to the session that registered last at its destination and has not unregistered, and is dropped exactly when there is none |
| `ServerProgress.SendIsExact` | internal/core/hub.go:65-72 | It is queued exactly when fewer than 256 wait and dropped otherwise, and the loop reads on |
| `ServerProgress.LoopEndsOnlyWithTheDevice` | internal/server/server.go:125-132 | The packet loop ends when the device fails and by nothing else |
| `ServerProgress.WriterStopsExactlyWhen` | internal/server/server.go:252-275 | In every run a write loop stops exactly when its context is done or a ping fails while it waits, or a write fails or meets a cancelled session |
| `ServerProgress.WritesTheNext` | internal/server/server.go:256-266 | A waiting writer takes the head of the queue, and a live session's write sends exactly its frame |
| `ServerProgress.CancelledSendsNothingMore` | internal/server/server.go:249-266 | Once cancelled, a session sends nothing more, however long the run goes on |
| `ServerUplink.AcceptsExactlyGenuine` | internal/server/server.go:228-237 | A message passes the server's checks exactly when it frames a well-formed packet from the session's address within the configured MTU |
| `ServerUplink.DeviceLogIsGenuine` | internal/server/server.go:214-246 | Every packet in the device log is well-formed, within the MTU and from the address of the session that wrote it |
| `ServerUplink.UplinkIsFaithful` | internal/server/server.go:214-246 | What a session injects is, in order and byte for byte, what it received, but for at most the last message |
| `ServerUplink.CancelledInjectsAtMostOneMore` | internal/server/server.go:215-246 | Once its Cancel has executed a session adds at most one packet to the device log, however long the run goes on |
| `ServerUplink.CancelledSessionsWindDown` | internal/server/server.go:201-246 | Every step of a cancelled handler brings it nearer its end, and until then a step is enabled |
| `ServerUplink.OnlyItsOwnStepsMoveAHandler` | internal/server/server.go:148-247 | No other goroutine moves a handler along |
| `Tunnel.ReadLoop` | internal/server/server.go:214-246 | The device log and the counters after the read loop are those of the verdicts on its messages, whatever fails |
| `Tunnel.VerdictsAreExact` | internal/server/server.go:215-243 | A round is injected exactly when it was read, frames a genuine packet and the device takes it, and refused exactly when it was read and frames none |
| `Tunnel.SessionInjectsWhatItReceives` | internal/server/server.go:214-246 | Those verdicts inject the packets of the first n messages, in order, byte for byte, all genuine and each counted once; the session is counted invalid exactly when the next message is refused by the checks |
| `Tunnel.Serve` | internal/server/server.go:201-246 | A whole session run alone: refused at capacity without a trace, or it cancels exactly the session it displaces, and leaves no entry at its address and the gauge lower by the displaced entry |
| `ServerAccounts.EveryReadIsCountedOnce` | internal/server/server.go:126-144 | At every iteration boundary each read was counted once, as invalid, dropped or enqueued; PacketsFromTun is enqueues plus drops and BytesFromTun the sum of accepted lengths |
| `ServerAccounts.EnqueuesAreConserved` | internal/core/hub.go:65-72 | All packets ever enqueued, over all sessions ever, are carried, in a hand or lost by it, or still queued |
| `ServerAccounts.DeviceWritesAreCounted` | internal/server/server.go:238-245 | PacketsToTun and BytesToTun are the device log, up to the writes being counted |
| `ServerAccounts.RefusalsAreCounted` | internal/server/server.go:149-154 | AuthRejected counts exactly the requests without a configured token, and every session has a configured identity |
| `Prefixes.OrFillsLowBits` | internal/config/config.go:309-311 | OR-ing 2^h - 1 onto a multiple of 2^h adds it, by recursion on the bits |
| `Prefixes.BroadcastFits` | internal/config/config.go:306-312 | For every length 0 to 32, with shift and subtraction wrapping at 32 bits, OR-ing the host mask gives network + 2^h - 1, an address |
| `Prefixes.ContainsIsAnInterval` | internal/config/config.go:228 | A prefix contains exactly the addresses from network to network + 2^h - 1 |
| `Prefixes.ReservedAreTheTwoEnds` | internal/config/config.go:302-314 | The reserved-address test is true exactly at the two ends of that interval |
| `Topology.Validate` | internal/config/config.go:201-241 | The accumulating loop with its three seen-sets reports exactly the problems there are, each client against those before it; the remaining checks are one abstract verdict |
| `Topology.NetworkAndGatewayAreAcceptedExactlyWhen` | internal/config/config.go:201-208 | Both are accepted exactly when the network is a block of 2^h addresses, h from 2 to 16, at a multiple of its size and private from end to end, and the gateway is one of its addresses |
| `Topology.GatewayIsAcceptedExactlyWhen` | internal/config/config.go:205-208 | The gateway alone: IPv4, and within the network's interval if the network parsed |
| `Topology.AddressIsAcceptedExactlyWhen` | internal/config/config.go:227-230 | A client's address alone, but for duplicates: IPv4, not the gateway, and strictly within the network's interval if the network parsed |
| `Topology.NothingReportedIffSound` | internal/config/config.go:201-240 | Nothing is reported if and only if the configuration is sound: the remaining checks pass, canonical private /16 to /30, gateway inside, names, addresses and digests pairwise distinct, every client a non-gateway host |
| `Topology.ClientsArePrivate` | internal/config/config.go:202-228 | Every client of a sound configuration has an address private in the sense of section 3 of RFC 1918 |
| `Topology.ClientsAreFew` | internal/config/config.go:221-240 | A sound configuration has at most 2^h - 2 clients, and at most 2^h - 3 when the gateway is a host address |
| `Identities.New` | internal/server/server.go:42-57 | A server is made if and only if the configuration is sound, and it authenticates exactly its clients, each with its own name and address |
| `Identities.EveryClientHasItsOwnIdentity` | internal/server/server.go:46-54 | Each client's token hash gives that client's own name and address, and no other hash gives anything |
| `Identities.IdentitiesAreInjective` | internal/server/server.go:46-54 | The map has one entry per client, and no two digests share a name or an address |
| `Identities.AcceptedServersKeepClientsApart` | internal/server/server.go:42-57 | In every run of a server with a sound configuration displaced sessions have their replacement's name, and live entries are at most the clients and the limit |
| `Routes.RollbackRestoresExactlyAbsentKeys` | internal/platform/client_linux.go:25-33 | Rolling back any first part of any list of steps, repeated keys included, leaves the starting table without their keys; it is the starting table if and only if none was there before |
| `Routes.UndoRemovesTheKeys` | internal/platform/client_linux.go:26-32 | Undoing a log backwards removes exactly its keys |
| `Routes.DeletesExactly` | internal/platform/client_linux.go:38-40 | An undo takes away the entry at its key if it is still on its device and via its gateway, and nothing else |
| `Routes.DefaultRoute` | internal/platform/client_linux.go:95-110 | The first listed default route with a gateway on another device, no earlier one being so, or nothing exactly when there is none |
| `Routes.Network.Rollback` | internal/platform/client_linux.go:26-32 | Walking the log backwards undoes exactly its table commands and reverts the resolver if it is logged |
| `Routes.Network.Perform` | internal/platform/client_linux.go:35-92 | Behind the default route: success exactly when no command failed and a resolver is there if asked for, with every command in effect and the log naming exactly them; otherwise the commands performed so far are rolled back, and only the link and the name servers can differ |
| `Routes.Network.SetupClient` | internal/platform/client_linux.go:20-93 | Succeeds exactly when there is a usable default route, no command failed and a resolver is there if asked for; then the assigned address, all routes and the IPv6 block are in the table and nothing else changed, and the returned cleanup undoes it; otherwise nothing is new in the table, and it is the same table if it had none of the keys |
| `Routes.StepsInstall` | internal/platform/client_linux.go:35-75 | What a setup's commands put at every key: the assigned address, the server and gateway routes, the two IPv4 halves, both IPv6 halves exactly when asked for, and nothing else |
| `RouteLookup.LookupIsLongestMatch` | internal/platform/client_linux.go:44-64 | The lookup finds an entry exactly when it is the longest match of section 5.2.4.3 of RFC 1812 |
| `RouteLookup.EveryDestinationAfterSetup` | internal/platform/client_linux.go:44-64 | Where each of the 2^32 destinations goes after a setup |
| `RouteLookup.SetupKeepsTablesCanonical` | internal/platform/client_linux.go:44-64 | A setup installs canonical prefixes only |
| `RouteLookup.EveryDestinationIsTheLongestMatch` | internal/platform/client_linux.go:44-64 | On a canonical table, exactly which entry is the longest match of each destination after a setup |
| `RouteLookup.DefaultTrafficIsCaptured` | internal/platform/client_linux.go:44-64 | Every destination that matched at most a default route goes through the tunnel; the server keeps its original route if and only if it is not the gateway |
| `RouteLookup.CleanupRestoresEveryLookup` | internal/platform/client_linux.go:26-32 | With the keys absent before, every lookup is as it was, after a cleanup or a setup that failed at any point |
| `ClientRun.FirstConnection` | internal/client/client.go:86-105 | Opening, naming and setting up in order; on a failure what must be released is exactly the opened device |
| `ClientRun.DialAndServe` | internal/client/client.go:67-110 | The first half of a turn: an exit with what is held, or the events up to the end of a session, after which the rest of the behaviour follows |
| `ClientRun.Turn` | internal/client/client.go:66-123 | One loop turn is one unfolding of the run's behaviour, with what is held behind it |
| `ClientRun.Release` | internal/client/client.go:51-64 | Cleanup then close, each if there is one, whatever the other returns; a fault is joined exactly when the failing call was made |
| `ClientRun.Run` | internal/client/client.go:41-124 | The exit and the whole trace of a run are those of its behaviour, for every script of attempts and both resolver results, and the faults of cleanup and close are joined exactly when they were called |
| `ClientExits.AgreesExactlyToAnswers` | internal/client/client.go:188 | connect agrees to exactly the WELCOMEs that echo the session id with an MTU of 576 to 1500 |
| `ClientExits.UnansweredTurn` | internal/client/client.go:67-77 | A dial without an answer, tunnel or not, is followed by the delay and the rest of the run unless the context ends |
| `ClientExits.FirstAnswer` | internal/client/client.go:78-122 | The first answer, case by case: the exit and the events of each failure, or the tunnel with the device's name, the addresses of the WELCOME, the resolved server, the smaller MTU, and the configured name servers and IPv6 block, its first session, and the rest |
| `ClientExits.EstablishedTurn` | internal/client/client.go:78-122 | A later answer, case by case: another session of the same tunnel and the rest, or the exit with the release |
| `ClientExits.FailedDialsAreRetried` | internal/client/client.go:66-77 | Behind any number of dials without an answer the run has the exit and the events of the rest, with one dial and one delay for each |
| `ClientExits.EstablishedStopsExactlyWhen` | internal/client/client.go:111-122 | An established run stops without an error exactly in the first turn that keeps the tunnel but ends with the context, or behind the whole script |
| `ClientExits.StopsExactlyWhen` | internal/client/client.go:66-123 | A run stops without an error exactly when behind some retried dials the script is over, a dial without an answer ends with the context, or the first answer brings up a tunnel and that turn or the established run ends with it |
| `ClientResources.RunsAreLegal` | internal/client/client.go:41-124 | Every run keeps the acquire-and-release discipline and ends with nothing held |
| `ClientResources.ResourcesAreBalanced` | internal/client/client.go:51-105 | Open, setup and reader at most once each; cleanup exactly once if and only if the setup succeeded, close exactly once if and only if the open did |
| `ClientResources.ReleaseComesLast` | internal/client/client.go:51-64 | Nothing follows the close, and nothing but the close follows the cleanup |
| `ClientResources.OneTunnelPerRun` | internal/client/client.go:86-110 | All that a run opens, sets up, reads, carries and cleans up has the address, gateway and MTU of the first welcome it agreed to |
| `ClientResources.ChangedParametersEndTheRun` | internal/client/client.go:106-108 | An established run ends with changed parameters if and only if, behind turns that keep it going, a welcome names another address, gateway or MTU |
| `ClientResources.ReconnectsAreUnlimited` | internal/client/client.go:66-123 | With a server that keeps its parameters, every welcome becomes a session and the run stops only with its context |
| `ClientResources.TunnelStaysInForce` | internal/client/client.go:51-123 | From setup to cleanup, through every session, failed dial and delay, destinations that matched at most a default route leave by the tunnel, the server apart |
| `ClientResources.RunsRestoreTheTable` | internal/client/client.go:51-64 | However a run ended, the table has lost exactly the keys of its setup, so it is as before if and only if it had none of them |
| `WholeRun.SessionsMatch` | internal/client/client.go:110 | Woven with its goroutines, a run has one plumbing session for every time the loop called runSession, and while one runs the loop does nothing else |
| `WholeRun.EveryRunIsWoven` | internal/client/client.go:66-123 | Every run of the loop has such a weaving, with one address and MTU for all its sessions |
| `WholeRun.LossesAreBoundedByTheRun` | internal/client/client.go:66-292 | At any moment of a run every packet put is written, queued, held or lost, and those held or lost are at most the calls of runSession so far |
| `WholeRun.RoutesHoldWhileASessionRuns` | internal/client/client.go:101-110 | Whenever a session is running the setup for its own address and MTU is in force, and destinations that had matched at most a default route leave by the tunnel, the server apart |
| `ClientTraffic.EveryPacketHasOneFate` | internal/client/client.go:201-292 | The n-th packet ever put is exactly once in exactly one place: queued, in a writer's hand, written or lost |
| `ClientTraffic.AtMostOneLossPerSession` | internal/client/client.go:224-292 | Packets put are written, queued, held or lost, and those held or lost are at most the number of sessions |
| `ClientTraffic.LossBoundIsReached` | internal/client/client.go:236-248 | For every k some run of k sessions loses k packets, so the bound is tight |
| `ClientTraffic.WireIsInOrder` | internal/client/client.go:224-259 | What all sessions together wrote decodes to an in-order, byte-identical subsequence of the packets put, none twice |
| `ClientTraffic.QueueIsBoundedAndConforming` | internal/client/client.go:208-217 | The queue is the untaken rest of what was put, at most 512, and all that was put is well-formed, from the assigned address and within the MTU |
| `ClientTraffic.WriterEncodeNeverFails` | internal/client/client.go:237-241 | The Encode error of the session writer is unreachable |
| `ClientTraffic.SessionsDoNotOverlap` | internal/client/client.go:110-123 | At most one session is not cancelled, and it is the last |
| `ClientProgress.ReadsExactly` | internal/client/client.go:204-215 | A device read is put exactly when it is a datagram in exactly that many bytes from the assigned address and within the MTU; any other read is followed by the next |
| `ClientProgress.PutsExactlyWhen` | internal/client/client.go:216-220 | A packet goes onto the queue exactly when fewer than 512 wait, and is given up only when the context is done |
| `ClientProgress.ReaderReturnsExactlyWhen` | internal/client/client.go:203-221 | The reader returns exactly when the device fails, or the context is done while it waits to put |
| `ClientProgress.QueueFills` | internal/client/client.go:50 | Any list of up to 512 packets the client forwards can wait at once |
| `ClientProgress.QueueBoundIsReached` | internal/client/client.go:50 | Some run has 512 packets waiting |
| `ClientProgress.SessionsStartAndEndExactlyWhen` | internal/client/client.go:224-291 | A session starts exactly when none is running, and ends exactly when one of its goroutines has exited |
| `ClientProgress.DoneExactlyWhen` | internal/client/client.go:203-225 | The context is done from the step that ends it on, and not before |
| `ClientProgress.SessionsWriteEverything` | internal/client/client.go:228-259 | For every list of packets the client forwards, of any length, some run from the start puts all and has one live session that wrote all in order |
| `ClientProgress.SessionsDeliverEverything` | internal/client/client.go:260-288 | For every list of messages the client accepts, of any length, some run from the start has one live session that received all and delivered all in order |
| `ClientProgress.WriterExitsExactlyWhen` | internal/client/client.go:231-258 | In every run a writer exits exactly when its context is done or a ping fails while it waits, or a write fails or its session is over, and only then loses the packet in its hand |
| `ClientProgress.ReceiverLeavesExactlyWhen` | internal/client/client.go:261-287 | A receiver leaves exactly when a read fails or its session is over, a message does not pass, or a device write fails |
| `ClientProgress.OnlyItsOwnSteps` | internal/client/client.go:224-291 | A goroutine is moved by its own steps only, and a session is cancelled only by ending |
| `ClientProgress.CancelledSendsNothingMore` | internal/client/client.go:224-291 | Once cancelled, a session sends nothing more, however long the run goes on |
| `ClientDownlink.ClientAcceptsExactlyDeliverable` | internal/client/client.go:269-282 | A message passes the client's checks exactly when it frames a well-formed packet for its address within the MTU |
| `ClientDownlink.DeviceLogIsDeliverable` | internal/client/client.go:274-286 | Every packet written to the client's device is well-formed, for its address and within the MTU |
| `ClientDownlink.DeliveryIsFaithful` | internal/client/client.go:260-288 | What a session writes to the device is, in order and byte for byte, what it received, but for at most the last message |
| `ClientDownlink.SessionSendsInOrder` | internal/client/client.go:228-259 | What one session sent is an in-order subsequence of the packets put, each frame around a conforming packet |
| `ClientIo.ReadTun` | internal/client/client.go:201-222 | With one buffer for every read, and writers that take any number of packets before each put: all that is ever put grows by the conforming packets read, in order and byte for byte, by all of them unless the context ends at a full queue, and the queue holds exactly what was put and not taken |
| `ClientIo.PutsExactlyWhatItForwards` | internal/client/client.go:208-214 | A read is put if and only if it is a datagram in exactly the bytes read, from the assigned address and within the MTU |
| `ClientIo.PutsAreAll` | internal/client/client.go:203-221 | What is put is, in order and unchanged, all that is read and forwarded before the first failure |
| `Negotiation.TermsLast` | internal/server/server.go:201-247 | A session never goes away, and its identity and MTU never change, over every run |
| `Negotiation.EverySessionWasNegotiated` | internal/server/server.go:149-203 | Every session has the identity of an authenticated token and the smaller of the server's MTU and its HELLO's |
| `Negotiation.BothEndsAgree` | internal/server/server.go:180-184 | In every server run an accepted handshake leaves a session for good, and the valid client that reads its WELCOME accepts it and holds the session's address and MTU, the smaller of the two, in 576 to 1500 |
| `Negotiation.OneServerNeverEndsTheRun` | internal/client/client.go:78-108 | Against one run of one server and with one token a run of the client ends only by its context or its own device, never by a malformed or changed parameter |
| `NegotiatedMtu.CheckEnforcesTheNegotiatedMtuExactlyWhen` | internal/server/server.go:234 | The server's check enforces the negotiated MTU if and only if the HELLO did not ask for less than the server's |
| `NegotiatedMtu.OverlongWritesComeFromSmallerMtus` | internal/server/server.go:184-246 | Over every run a device write is longer than its session's MTU only if that session's HELLO asked for less than the server's, and never longer than the server's |
| `NegotiatedMtu.UplinkRuleBreaksExactlyForSmallerMtus` | internal/server/server.go:234 | A run from the start that breaks the rule for a handshake exists if and only if it asked for less than the server's MTU |
| `NegotiatedMtu.AnyLengthIsCarried` | internal/server/server.go:133-144 | For every handshake and every valid packet for its address some run from the start carries it, and the client delivers it if it fits and loses the session otherwise |
| `NegotiatedMtu.DownlinkRuleBreaksForEveryMtu` | internal/server/server.go:133-144 | For every handshake some run carries a packet over the negotiated MTU and the client session ends on it |
| `EndToEnd.ConformingPacketsPass` | internal/server/server.go:228-237 | A packet readTun lets through passes every server check once framed, for any client MTU not above the server's |
| `EndToEnd.ConformingClientsAreNeverRejected` | internal/server/server.go:228-237 | Over every run, a session that receives frames of conforming packets never meets an Invalid branch |
| `EndToEnd.UplinkArrivesInOrder` | internal/server/server.go:214-246 | Over every pair of runs, when a server session received some first part of what a client session sent, with the parameters they agreed on, it rejects nothing and injects an in-order, byte-identical subsequence of the packets the client accepted |
| `EndToEnd.DispatchedPacketsPassExactlyWhenTheyFit` | internal/client/client.go:274-282 | A dispatched packet passes every client check if and only if it is no longer than the negotiated MTU |
| `EndToEnd.DownlinkArrivesInOrder` | internal/client/client.go:260-288 | Over every pair of runs, when a client session received some first part of what a server session sent it, it writes to its device an in-order, byte-identical subsequence of the valid packets for it read from the server's device, and refuses exactly those over the MTU |
| `UplinkReconnects.EachPacketIsInjectedAtMostOnce` | internal/server/server.go:214-246 | Over any runs with any number of reconnects, what a client's sessions inject are packets it accepted, byte for byte, and no accepted packet is injected twice |
| `UplinkReconnects.OrderHoldsExactlyWhenNoneIsOvertaken` | internal/server/server.go:214-246 | Across reconnects the injections are in the order of acceptance if and only if no session injects once a later session of the same client has |
| `Overtaking.ReconnectsCanReorder` | internal/server/server.go:214-246 | For every handshake and any two conforming packets, runs from the start in which both are injected and the second comes first |
| `ServerTurns.EveryRunKeepsTurns` | internal/core/hub.go:30-73 | Over every interleaving packets for an address are queued for its sessions in the order in which those registered |
| `DownlinkReconnects.EachPacketIsDeliveredAtMostOnce` | internal/client/client.go:260-288 | Over any runs with any number of reconnects, what a client's sessions deliver are packets the server read and queued for them, byte for byte, and none is delivered twice |
| `DownlinkReconnects.OrderHoldsExactlyWhenNoneIsOvertaken` | internal/client/client.go:260-288 | Across reconnects the deliveries are in the order the server read them if and only if no session delivers once another has whose server session registered later |
| `Overtaking.ReconnectsCanReorderDeliveries` | internal/client/client.go:260-291 | For every handshake and any two packets that fit, runs from the start in which both are delivered and the second comes first |

## Left out

- WebSocket, HTTP, TLS, name resolution and dialing: a connection is a source of messages or errors and a sink that accepts or refuses a frame; a resolved server address is an input.
- Timers, keepalive pings and timeouts: steps that fail or do nothing at any point; nothing is claimed about real time.
- JSON, address text and hash text: HELLO, WELCOME, addresses, prefixes and digests are typed values, with a value of their own for text that does not parse; the 4096-byte limit on control messages is not modelled.
- SHA-256 and token generation: a request carries the digest of its token; nothing is claimed about collisions.
- YAML loading, defaults, URL, listener, path, interface-name and timeout checks, logging, metrics text: library wrappers or one-branch facts; the configuration carries one flag for whether those checks pass.
- Device and command execution: a device is a script of reads and a log of writes, a command takes effect or fails; undo commands never fail, since the source ignores their errors.
- Route metrics and route scope: the table holds one route per prefix, so a `replace` of an existing route with another metric is not told apart.
- Cancellation of the context during setup commands: it is one of the ways a command fails.
- Windows setup, server setup, nftables, systemd, health and decoy handlers, listener shutdown.
- Hub.Hub.Register: the method runs without interference; the interleavings at its unlock are in the step model, which splits it there.
- Hub.Hub.CloseAll: in the step model its cancels are the ContextEnds steps, which may hit any session at any time.
- Tunnel.Serve: the session runs alone and its handshake is done; the step model interleaves sessions.
- Tunnel.ReadLoop: the context and the end of the write loop are a scripted flag of each round; the step model interleaves them.
- Hub.WriteLoop: on the heap the queue is not filled while the loop runs and no ping is sent; the step model interleaves both.
- ServerAccounts.EveryReadIsCountedOnce: a counter's increment is one step with the operation before it, except the gauge and the acceptance and to-device counters, whose lag is modelled.
- ClientRun.Run: errors from closing a connection, which the source joins to the exit, are not modelled; those of the cleanup and of closing the device are.
