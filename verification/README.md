# NovaMP: a verified model

NovaMP is a multiplayer system for a driving game: a native game server, a
native client, game-side Lua scripts, and a compatibility client for the BeamMP
protocol. This project models the parts that decide what a player sees, and
proves what they promise over all inputs and all runs.

| module | what it models |
|---|---|
| `Bytes`, `Framing` | little-endian numbers; a stream of length-prefixed frames and its one reading |
| `Packet` | the 10-byte header and the 66-byte vehicle state, as packed records |
| `LuaClient` | the game-side client's receive buffer and its framing of what it sends |
| `TcpSession` | the native two-state reader (length, then payload), the same in server and client |
| `StreamTheorems` | senders, stream and both readers together |
| `BeamMP` | BeamMP frames, split packets and the handshake |
| `Decimal`, `Transform` | decimal text and the BeamMP transform text in its 512-byte buffer |
| `VehicleSync`, `VehicleTrace` | the vehicle table as a vector, as a map, and along whole runs |
| `UdpServer`, `TcpServer`, `GameServer` | the server's objects and handlers |
| `Authentication`, `Messages` | who is admitted and why others are not; what each step tells whom |
| `Lifecycle`, `ShortRuns`, `PlayerLimit` | whole runs of the server, each handler one step |
| `JoinLeave`, `Lifetimes` | what is told about a player from acceptance to leave; what it owes to the run since |
| `ServerSync`, `Delivery` | the vehicle table inside the server; who is sent what |
| `Identifiers`, `Connections` | wrapping counters; which connection holds an id, and for whom it acts |
| `PlayerVehicles`, `ServerVehicles` | one player's vehicle ids, as a list and inside the server |
| `Admission`, `AdmissionLimit` | the player limit when check and insertion interleave between threads |
| `Capacity`, `AdmissionCounters` | the counters these runs stand for |
| `AiAuthority` | the ids 200 to 254 given to traffic vehicles |
| `RoadGraph`, `RoadMap` | the waypoint graph built from the map's roads, by labels and by road and node |

Each object of the source is a class whose methods are proved equal to a function
from old state to new state; the theorems are lemmas about runs of those functions.

Where code and documentation or comments disagree, the model follows the code:

- docs/protocol.md calls sequence numbers monotonic per sender; the server numbers
  the packets of each vehicle separately, starting at 1 (`VehicleTrace.SequenceNumbers`).
- docs/protocol.md reserves vehicle ids 200 to 254 for AI; the id of a player's
  vehicle is the number of vehicles held so far and is bounded only by the configured limit.
- docs/ai_traffic.md gives AI packets the sender 0xFFFF; a relayed packet keeps
  the header its sender wrote.
- The 50 MB guard of the BeamMP reader cannot fire, since a size has 24 bits.
- `sendAll` leaves out 0xFFFF by default, so a session of that id gets no broadcast.
- Lines 47 and 90 of the road exporter use `obj:method and ...`, which is not
  valid Lua; the model takes the evident meaning, the count or 0.

Properties that turn out false of the code are stated with their exact condition:
`Packet.StringPacketKeepsTextIff`, `BeamMP.FrameSizeIff`, `Transform.RoundTripIff`,
`GameServer.DecodedAloneIff`, `GameServer.StateAloneIff`, `Lifecycle.AuthKeepsInvIff`,
`Lifecycle.VetoKeepsInvIff`, `Lifecycle.CloseIsIdleIff`, `Connections.LateCloseIff`,
`Connections.ActsForItselfIff`, `Delivery.SentLatestIff`,
`UdpServer.MapPlayerKeepsInverseIff`, `PlayerVehicles.DropKeepsCountingIff`,
`ServerVehicles.PlayerUniqueIff`, `AiAuthority.OneTickServesIff`,
`AdmissionLimit.SharedLimitIff` and `Capacity.LimitKeptIff`.

The runs of `Lifecycle.Legal` assume what the code does not check. An authentication
that is accepted comes on a session without a player, while the id handed out is not
in use, and before the session closed, unless a plugin vetoes it; and a live player is
mapped to an endpoint while neither is mapped to something else. Nothing is assumed of
requests that are refused, nor of any other packet on a session already closed: a read
that was completed before a kick may still be handled after it.
`Lifecycle.AuthKeepsInvIff`, `Lifecycle.VetoKeepsInvIff` and
`UdpServer.MapPlayerKeepsInverseIff` give the exact conditions of each step. They admit
one case that legal runs leave out: an acceptance that hands a session the very id it
has keeps the invariant, but begins a second lifetime of the id inside the first
(`JoinLeave.SecondAcceptanceBreaksTrace`).
`ShortRuns` shows that ids are fresh by themselves until 65534 were handed out.

## Model

| member | source | states |
|---|---|---|
| Framing.FramesSound | servers/src/network/tcp_server.cpp:20-28 | every stream is its complete frames followed by bytes that hold no complete frame |
| Framing.FramesUnique | servers/src/network/tcp_server.cpp:20-28 | no other list of packets and left-over bytes spells out the same stream |
| Framing.FramesAppend | client/Resources/Client/main.lua:163-169 | keeping the left-over bytes and reading on gives the packets of the whole stream |
| Framing.FrameLayout | servers/src/network/tcp_server.cpp:20-28 | a frame is four length bytes, lowest first, and the packet |
| Packet.Build | servers/src/network/packet.hpp:77-87 | the buffer holds the header fields and the payload, nothing else |
| Packet.PacketRoundTrip | servers/src/network/packet.hpp:77-113 | a built packet parses to the same header fields and payload, for every payload up to 65535 bytes |
| Packet.StringPacketKeepsTextIff | servers/src/network/packet.hpp:89-94 | a text survives the 16-bit cast of its size if and only if it is shorter than 65536 bytes |
| Packet.StateRoundTrip | servers/src/network/packet.hpp:115-120 | a vehicle state is read back from its 66 bytes, whatever follows them |
| Packet.StateReadsEveryByte | servers/src/network/packet.hpp:57-70 | encoding what was parsed gives back the 66 bytes: no bit of the layout is lost or shared |
| Packet.VehicleUpdateRoundTrip | servers/src/network/packet.hpp:96-102 | a vehicle update parses to its sender, sequence number and state |
| Packet.HeaderLayout | servers/src/network/packet.hpp:48-55 | which byte of the header holds which byte of which field |
| Packet.StateLayout | servers/src/network/packet.hpp:57-70 | the same for all 66 bytes of a vehicle state |
| LuaClient.Extension.PollTCP | client/Resources/Client/main.lua:159-177 | one poll appends the chunk, hands out every complete frame in order and keeps the rest; without a socket or data it changes nothing |
| LuaClient.Extension.TcpSend | client/Resources/Client/main.lua:34-42 | writes the very frame the native side would write, or fails exactly when a field does not fit, after counting |
| LuaClient.PollingIsOnePass | client/Resources/Client/main.lua:159-177 | chunking independence: any series of polls equals one pass over all bytes received and leaves no complete frame |
| LuaClient.HandleIsPayload | client/Resources/Client/main.lua:170-175 | the type and payload handed out are those the packet's header describes |
| TcpSession.Session.OnBytes | servers/src/network/tcp_server.cpp:52-75 | completing length and payload reads as bytes come in, closing on a length of 0 or above 4 MiB |
| TcpSession.ReceivingIsOnePass | servers/src/network/tcp_server.cpp:52-75 | however the stream is cut, the reader ends where the frames of the whole stream say: delivered packets, phase, held bytes, closed or not |
| TcpSession.StandingAppend | client/src/network/client.cpp:80-98 | an open reader goes on from its left-over bytes as a fresh one would; a closed one never changes |
| TcpSession.FirstLengthIff | servers/src/network/tcp_server.cpp:52-63 | a length, with no more than its payload behind it, closes the connection if and only if it is 0 or above 4194304 |
| StreamTheorems.RoundTrip | servers/src/network/tcp_server.cpp:20-75 | messages built, framed and cut arbitrarily reach both readers in order and unchanged, also while bytes are missing, and never close the native one |
| StreamTheorems.DeframersAgree | client/Resources/Client/main.lua:165-176 | on any stream the native reader closes exactly when a refused length has arrived, and until then both readers agree on packets and held bytes |
| StreamTheorems.DatagramDelivers | client/Resources/Client/main.lua:180-188 | a vehicle update sent as one datagram reaches the handler as its state |
| BeamMP.BuildPacket | client/src/compat/beammp_protocol.hpp:48-57 | the bytes are code, three size bytes, data |
| BeamMP.FrameSizeIff | client/src/compat/beammp_protocol.hpp:65-68 | a frame announces its own size if and only if the data is shorter than 2^24 bytes |
| BeamMP.FrameLayout | client/src/compat/beammp_protocol.hpp:48-57 | a frame byte for byte, for data of any length |
| BeamMP.CodeLetters | client/src/compat/beammp_protocol.hpp:23-43 | the code bytes |
| BeamMP.BeamMPClient.Run | client/src/compat/beammp_client.cpp:60-110 | the read loop over a whole stream, with its buffer, its break conditions and its final notification |
| BeamMP.HandleChanges | client/src/compat/beammp_client.cpp:113-151 | the map name changes only with a map packet, the player id only with an accepted answer, the key never; the connection ends exactly with a kick or a failing reply |
| BeamMP.HandleReplies | client/src/compat/beammp_client.cpp:117-146 | a packet is answered by at most one packet, whose code the request decides, and the key is sent in answer to a map name only |
| BeamMP.HandleNotifies | client/src/compat/beammp_client.cpp:113-221 | a packet causes one notification or none, and which; the notification carries what the packet says: message, transform, ids and model |
| BeamMP.RepliesInOrder | client/src/compat/beammp_client.cpp:113-221 | over any packets but kicks, while writes succeed, the codes sent are those of the requests answered, each once and in order |
| BeamMP.BeamMPClient.Open | client/src/compat/beammp_client.cpp:19-57 | a connection still open is given up, its read loop's report before the requested one; the new one starts with an empty split buffer, no id and no map name whatever the last one left |
| BeamMP.ConnectStores | client/src/compat/beammp_client.cpp:19-45 | the client is connected if and only if the server is reachable, holds the key handed over, and has forgotten id, map name and split buffer |
| BeamMP.ConnectReports | client/src/compat/beammp_client.cpp:19-57 | exactly which events opening adds: those of the connection given up, if one was open, and the error, if the server is not reached |
| BeamMP.KeyIsSent | client/src/compat/beammp_client.cpp:19-124 | from opening to the wire: the first map packet of a new connection is answered with the key handed over, whatever connections came before |
| BeamMP.LoopEnds | client/src/compat/beammp_client.cpp:60-110 | after any stream the client is disconnected and has reported so last |
| BeamMP.StreamRoundTrip | client/src/compat/beammp_client.cpp:62-86 | a stream of built frames is read as exactly those frames; the size guard never fires |
| BeamMP.SplitIsTransparent | client/src/compat/beammp_client.cpp:87-106 | for any cut of a message and any interleaved frames, kicks and failing replies included, the session ends as after the interleaved frames and then the message once; nothing stays buffered if the connection lasts |
| BeamMP.InSplitIff | client/src/compat/beammp_client.cpp:87-106 | while the connection lasts a split packet counts as begun if and only if a piece came whose end did not |
| BeamMP.SplitOverTheWire | client/src/compat/beammp_client.cpp:60-110 | the same from the bytes on the wire to the handler |
| BeamMP.ConnectStartsHandshake | client/src/compat/beammp_client.cpp:19-45 | whatever came before, a connection starts with no ready sent since, no success reported since, and no player id |
| BeamMP.HandshakeHolds | client/src/compat/beammp_client.cpp:117-141 | for every connection and every byte stream after it: since it began, ready is sent only if success was reported; success without ready means all the writes the socket took were used up before; and before success the player id is 0 |
| BeamMP.ReadyMayFail | client/src/compat/beammp_client.cpp:127-137 | a socket that takes one write: success is reported and ready is lost |
| Decimal.StofPrint | client/src/compat/beammp_protocol.cpp:46-53 | a number printed with six places reads back as its sign, its millionths and six places |
| Decimal.PrintedText | client/src/compat/beammp_protocol.cpp:46-53 | minus 1.05 is printed as nine given characters |
| Decimal.StoiReads | client/src/compat/beammp_protocol.cpp:22-23 | white space, a sign, digits and whatever follows are read as that number, or as none if 32 bits do not hold it |
| Decimal.StoiRejects | client/src/compat/beammp_protocol.cpp:22-38 | without a digit behind white space and sign nothing is read |
| Decimal.StofReads | client/src/compat/beammp_protocol.cpp:24-37 | white space, a sign, digits, a point and digits, at least one in all, are read as that decimal |
| Transform.Tokens | client/src/compat/beammp_protocol.cpp:11-15 | the loop yields the pieces between colons, without an empty one at the end |
| Transform.SplitJoin | client/src/compat/beammp_protocol.cpp:11-15 | splitting undoes joining for parts without colons, the last one not empty |
| Transform.IdsRoundTrip | client/src/compat/beammp_protocol.cpp:18-23 | the first '-' separates the two ids, for all player and vehicle ids |
| Transform.TextParts | client/src/compat/beammp_protocol.cpp:45-54 | the text is, between colons, the two ids, the thirteen numbers in order, and 0, cut to 511 characters |
| Transform.ReadsParts | client/src/compat/beammp_protocol.cpp:11-37 | any text of at least 14 parts, all readable, is read with the ids cast to their widths, part k as number k, and part 14 as time if it is there |
| Transform.RejectsParts | client/src/compat/beammp_protocol.cpp:11-39 | any other text is rejected |
| Transform.Parse | client/src/compat/beammp_protocol.cpp:10-40 | the parser is the one the theorems are about |
| Transform.RoundTripIff | client/src/compat/beammp_protocol.cpp:10-55 | compared as decimals, ids and all thirteen values come back if and only if the text has at most 513 characters, or what it has beyond that are at most seven characters of the last number that are zeros after the point, or all of them and the point |
| Transform.OverlongFails | client/src/compat/beammp_protocol.cpp:46-54 | twelve times 2^110 and 0.25 make 518 characters, and 0.25 does not come back |
| Transform.OverlongMayRecover | client/src/compat/beammp_protocol.cpp:46-54 | with 0 for 0.25 the text is as long and everything comes back |
| Transform.BufferSuffices | client/src/compat/beammp_protocol.cpp:46-54 | numbers below 10^29 give at most 505 characters, never truncated, in exactly 15 parts |
| VehicleSync.VehicleSync.FindOrCreate | servers/src/sync/vehicle_sync.cpp:11-20 | the first entry of the key, or a new clean one at the end |
| VehicleSync.VehicleSync.OnVehicleUpdate | servers/src/sync/vehicle_sync.cpp:22-26 | overwrites the key's state and marks it |
| VehicleSync.VehicleSync.BroadcastAll | servers/src/sync/vehicle_sync.cpp:28-35 | sends one packet per marked entry, in order, with the next sequence number, and clears the marks |
| VehicleSync.VehicleSync.OnPlayerDisconnect | servers/src/sync/vehicle_sync.cpp:37-42 | erases the owner's entries and keeps the others in order |
| VehicleSync.VehicleSync.OnVehicleDelete | servers/src/sync/vehicle_sync.cpp:44-55 | erases the key's entry and keeps the others in order |
| VehicleSync.UpdateRefines | servers/src/sync/vehicle_sync.cpp:22-26 | keys stay distinct, and the update is one assignment in the map from keys to state, sequence and mark |
| VehicleSync.BroadcastRefines | servers/src/sync/vehicle_sync.cpp:28-35 | no key comes or goes; marked cells get the next number and lose the mark |
| VehicleSync.DisconnectRefines | servers/src/sync/vehicle_sync.cpp:37-42 | exactly the owner's keys leave the map |
| VehicleSync.DeleteRefines | servers/src/sync/vehicle_sync.cpp:48-55 | exactly the one key leaves the map |
| VehicleSync.EmissionsAbout | servers/src/sync/vehicle_sync.cpp:28-35 | what a broadcast sends about a key depends on the map alone: one packet if marked, else none |
| VehicleTrace.KeysStayDistinct | servers/src/sync/vehicle_sync.cpp:11-55 | after any run keys are distinct, and a key is there exactly if it was updated since its last removal |
| VehicleTrace.SequenceNumbers | servers/src/sync/vehicle_sync.cpp:28-35 | a vehicle's packets since its creation are numbered 1, 2, 3, … modulo 2^32, leave out the owner, and never outnumber its updates |
| VehicleTrace.LatestStateDelivered | servers/src/sync/vehicle_sync.cpp:22-35 | after any run and a broadcast the last packet about every live vehicle decodes to its latest update, and a second broadcast sends nothing |
| UdpServer.MapPlayerKeepsInverseIff | servers/src/network/udp_server.cpp:49-53 | the two maps stay inverse if and only if neither side was mapped to something else |
| UdpServer.UnmapPlayerForgets | servers/src/network/udp_server.cpp:55-62 | the player is in neither map afterwards, everyone else is untouched |
| UdpServer.UDPServer.SendAllSync | servers/src/network/udp_server.cpp:39-47 | each packet goes to the mapped players except its owner |
| TcpServer.TCPServer.AcceptSession | servers/src/network/tcp_server.cpp:90-107 | the new session gets the counter's value, and the counter wraps after 65535 |
| TcpServer.TCPServer.SendToAll | servers/src/network/tcp_server.cpp:115-119 | every open session but 0xFFFF is sent to |
| GameServer.GameServer.Authenticate | servers/src/game_server.cpp:216-326 | the whole new state for every outcome: malformed, bridge, refusals, full, vetoed, accepted and told how many players there are |
| Authentication.AdmittedIff | servers/src/game_server.cpp:216-300 | an id is handed out, and the counter moves, if and only if the request is a bridge's with authority and token, or has a name, the password if there is one, and room |
| Authentication.AdmissionResult | servers/src/game_server.cpp:231-326 | what an admission changes and says: the player under its id on its session, its name, role and phase, its id told, the number of players told to all but a bridge |
| Authentication.RefusalResult | servers/src/game_server.cpp:219-284 | what a refusal does: the reason is told, the session is closed unless the text was malformed or the name missing, and no player, session entry or id is gained |
| Authentication.VetoedResult | servers/src/game_server.cpp:302-316 | what a veto does to a request that earned its admission, whatever state the server is in |
| Authentication.OneReason | servers/src/game_server.cpp:219-284 | a request that earns no admission has exactly one reason against it |
| Messages.ReadyIsAnnounced | servers/src/game_server.cpp:328-332 | a ready packet makes its player ready, changes nothing else, and announces the join once |
| Messages.SpawnIsAnnounced | servers/src/game_server.cpp:338-361 | a spawn appends one vehicle, and the id announced is that vehicle's |
| Messages.SpawnIsRefused | servers/src/game_server.cpp:338-347 | a malformed spawn, and one at the limit, changes nothing and says nothing |
| Messages.RemoveIsAnnounced | servers/src/game_server.cpp:363-378 | a delete takes out exactly the vehicles and states of the id, and announces that id |
| Messages.KickIsAnnounced | servers/src/game_server.cpp:526-532 | the kicked session is told so and closed, the others are told of the leave |
| Messages.StepSays | servers/src/game_server.cpp:185-378 | every message a step sends, in order, with its receivers |
| Messages.EveryMessageAddressed | servers/src/network/tcp_server.cpp:109-119 | along every legal run joins, leaves and vehicle messages go to all sessions open then but 0xFFFF, answers to the one that asked, kick notices to the one kicked |
| GameServer.GameServer.PlayerLeft | servers/src/game_server.cpp:185-213 | session entry, vehicle entries, endpoint and player are removed and the leave is broadcast |
| GameServer.GameServer.OnTCPPacket | servers/src/game_server.cpp:159-183 | dispatch by the session's player, ignoring packets of unknown sessions |
| GameServer.GameServer.OnUDPPacket | servers/src/game_server.cpp:127-156 | pings are answered, AI updates of the authority relayed, other updates of known players put in the table, whatever payload they announce |
| GameServer.GameServer.KickPlayer | servers/src/game_server.cpp:526-532 | one session of the player is notified and closed, or nothing happens |
| GameServer.UpdateIsDecoded | servers/src/game_server.cpp:130-154 | an update packed by a client reaches the handler with state and AI mark intact |
| GameServer.PingIsAnswered | servers/src/game_server.cpp:133-138 | a ping of anyone is answered with its own sequence number and changes nothing else |
| GameServer.UpdateIsHandled | servers/src/game_server.cpp:140-158 | a vehicle update of an unknown sender does nothing; AI traffic of the authority is relayed byte for byte to all others mapped; any other becomes the state of the sender's own vehicle if it holds 66 bytes, and else does nothing |
| GameServer.DecodedAloneIff | servers/src/network/udp_server.cpp:20-33 | what is read of a datagram depends on it alone, and not on what lies behind it in the buffer, if and only if it is no vehicle update or as long as it announces |
| GameServer.StateAloneIff | servers/src/game_server.cpp:380-386 | the state it yields depends on it alone if and only if it is no vehicle update, announces less than 66 bytes, or has at least 76 bytes |
| Lifecycle.RunKeepsInv | servers/src/game_server.cpp:185-378 | after every legal run, refused requests on any session and packets of closed sessions included, sessions and players correspond one to one over open sessions, and endpoints and vehicle entries belong to live players |
| Lifecycle.CloseKeepsInv | servers/src/game_server.cpp:185-213 | closing keeps the invariant and leaves the player in none of the five tables |
| Lifecycle.KickKeepsInv | servers/src/game_server.cpp:526-532 | so does a kick |
| Lifecycle.KickClosesTheSession | servers/src/game_server.cpp:526-532 | the session a kick picks among those of the player is the one it has, so the order of the walk is of no matter |
| Lifecycle.CloseIsIdleIff | servers/src/network/tcp_server.cpp:133-136 | after any legal run a close changes nothing if and only if the session is not open |
| Lifecycle.CloseAgain | servers/src/network/tcp_server.cpp:30-34 | once a session is gone, by a close, a kick or a refusal, and whatever legal steps follow, closing it again changes nothing and broadcasts nothing, unless a new connection got its id |
| Lifecycle.AuthKeepsInvIff | servers/src/game_server.cpp:286-300 | an accepted authentication keeps the invariant if and only if its session is still open, and session and id are unused or belong to each other |
| Lifecycle.VetoKeepsInvIff | servers/src/game_server.cpp:302-316 | the same for a vetoed one, where in the second case the player must have no endpoint and no vehicle |
| Lifecycle.VetoLeavesNoTrace | servers/src/game_server.cpp:302-316 | a veto leaves all tables as they were, but for a used-up id, and the refusal sent and the session closed if it was open |
| Lifecycle.ControlKeepsInv | servers/src/game_server.cpp:328-378 | ready, spawn, delete and refused authentications keep the invariant on any session, with every vehicle list and id below a limit of at most 256 |
| ShortRuns.ShortRunsAreLegal | servers/src/game_server.cpp:541-544 | until 65534 ids were handed out none is handed out twice, so the invariant needs no assumption on ids, however many steps the run has |
| JoinLeave.RunTraced | servers/src/game_server.cpp:302-336 | the messages about an id form lifetimes from acceptance to one leave, nothing about it outside them; it is in exactly if live, and its join was announced exactly if it is ready |
| JoinLeave.SecondAcceptanceBreaksTrace | servers/src/game_server.cpp:286-300 | an acceptance that hands a session the id it has breaks that id's lifetimes |
| JoinLeave.LeavesBalanceEntries | servers/src/game_server.cpp:185-213 | acceptances of an id equal its leaves, plus one if it is still live |
| Lifetimes.LivePlayer | servers/src/game_server.cpp:216-332 | after any legal run every live player came in by a request that earned admission at that moment and has its name and role; it is ready if and only if it is a bridge or a ready packet was handled on its session since |
| Lifetimes.JoinPerReady | servers/src/game_server.cpp:328-332 | since its last acceptance a player's join was announced once for each ready packet of its session, no more and no less |
| PlayerLimit.RunKeepsLimit | servers/src/game_server.cpp:278-284 | with atomic handlers the limit is never passed, bridges aside, on any run |
| ServerSync.RunProjects | servers/src/game_server.cpp:380-386 | the vehicle table's part of any legal run of the server is a run of the table on its own, packet for packet |
| Delivery.EveryPacketAddressed | servers/src/network/udp_server.cpp:39-47 | every vehicle packet ever sent was sent by a tick of the run, to exactly the players mapped at that tick other than its owner, at their endpoints then |
| Delivery.SentLatestIff | servers/src/game_server.cpp:444-453 | after any legal run a player was sent the latest state of a vehicle if and only if it is not the owner and was mapped when the first tick after the latest update ran; it was sent once |
| Delivery.ParkedStaysUnseen | servers/src/sync/vehicle_sync.cpp:28-35 | whoever was not mapped at that tick is not sent the state by any later legal steps, mappings and ticks among them, until the vehicle is updated again |
| Delivery.LateMappingMisses | servers/src/sync/vehicle_sync.cpp:28-35 | a run of two players in which this happens to the one mapped after the tick |
| Delivery.EndToEnd | servers/src/game_server.cpp:444-453 | after any legal run and a tick the last packet about each live vehicle decodes to its latest update and went to those mapped at the first tick since, at this one if it is the first; its owner is a live player, and a second tick sends nothing |
| Identifiers.PlayerIds | servers/src/game_server.cpp:541-544 | the k-th id is 1 + k mod 65534, never 0 or 0xFFFF, and any 65534 in a row differ |
| Identifiers.SessionIds | servers/src/network/tcp_server.cpp:94 | the k-th session id is (1 + k) mod 65536, and any 65536 in a row differ |
| Identifiers.LateCloseIsHarmless | servers/src/network/tcp_server.cpp:133-136 | after any legal run that closed connection i and accepted fewer than 65536 connections since it, closing connection i again leaves the whole state as it is |
| Connections.LateCloseIff | servers/src/network/tcp_server.cpp:133-136 | a late close of connection i has an effect if and only if its id is open again, and then the id is held by a connection accepted a multiple of 65536 later |
| Identifiers.LateCloseAfterWrap | servers/src/network/tcp_server.cpp:133-136 | with 65536 accepts in between it removes the player who holds the id now |
| Identifiers.LateCloseHarms | servers/src/network/tcp_server.cpp:133-136 | a legal run in which this happens, on every server that admits anyone |
| Connections.ActsForItselfIff | servers/src/network/tcp_server.cpp:90-107 | after any legal run a session acts for the player of its last acceptance, and the connection that holds the id is the one that asked for it if and only if fewer than 65536 connections were accepted after that one |
| Connections.LaterConnectionTakesOver | servers/src/network/tcp_server.cpp:90-107 | a legal run in which a later connection acts for a player without authenticating |
| PlayerVehicles.DropKeepsCountingIff | servers/src/game_server.cpp:371-374 | ids 0 to n - 1 stay in order if and only if the deleted id is the highest or absent |
| ServerVehicles.VehiclesProject | servers/src/game_server.cpp:338-378 | after any legal run the vehicles of a live player are what its own spawns and deletes since its acceptance make of the empty list |
| ServerVehicles.DisciplinedPlayerCounts | servers/src/game_server.cpp:345-354 | a player of the server that deletes its highest id, if any, has the ids 0 to n - 1, below the limit |
| PlayerVehicles.SpawnKeepsUniqueIff | servers/src/game_server.cpp:348-354 | a spawn keeps the ids different if and only if no vehicle has the number of vehicles modulo 256 for its id |
| ServerVehicles.PlayerUniqueIff | servers/src/game_server.cpp:345-374 | on the server a player's ids stay different since its acceptance if and only if every spawn let through finds the number of vehicles modulo 256 free |
| ServerVehicles.ServerIdsCanRepeat | servers/src/game_server.cpp:348-354 | a legal run of the server after which two vehicles of a player share an id |
| Admission.AloneIsAtomic | servers/src/game_server.cpp:278-326 | check, insertion and answer of one thread, with nothing in between, are the handler taken as one step |
| Admission.AtomicRunsAreRuns | servers/src/game_server.cpp:278-326 | every run of the handlers taken as one step is a run of the threads, with the same tables |
| Admission.SharedBound | servers/src/game_server.cpp:278-300 | with N threads, over the server's tables and on any interleaving of checks, insertions, answers and all other steps, players and waiting requests never exceed the limit plus N - 1, bridges aside |
| AdmissionLimit.BoundIsMet | servers/src/game_server.cpp:278-300 | orderly runs reach every number of players up to that bound, as far as there are ids |
| AdmissionLimit.SharedLimitIff | servers/src/game_server.cpp:278-300 | the limit is kept on all runs if and only if N = 1, or it admits no one, or it is at least 65534, the number of player ids |
| AdmissionLimit.ServerPassesLimit | servers/src/game_server.cpp:107-109 | the server starts at least two threads, so some run passes any limit from 1 to 65533 |
| AdmissionCounters.RunCounts | servers/src/game_server.cpp:278-300 | every orderly run counts players and waiting requests like a run of the counters |
| Capacity.CapacityBound | servers/src/game_server.cpp:278-300 | the counters never exceed the limit plus N - 1, whatever bridges do |
| Capacity.LimitKeptIff | servers/src/game_server.cpp:278-300 | the counters, which know no ids, keep a positive limit on all runs if and only if N = 1, and meet the bound |
| Capacity.ShippedServerExceeds | servers/src/game_server.cpp:107-109 | with the threads the server starts the counters exceed any positive limit |
| AiAuthority.Authority.AllocSVID | client/Resources/Client/ai_authority.lua:37-49 | the id held, or the least free one from 200 to 254, or none |
| AiAuthority.Authority.OnUpdate | client/Resources/Client/ai_authority.lua:137-169 | timer, allocation over the scene, states sent, and stale entries removed |
| AiAuthority.RunKeepsSound | client/Resources/Client/ai_authority.lua:88-169 | over all runs ids differ, lie in 200 to 254, are at most 55, and are held only while active |
| AiAuthority.AllocationFailsIff | client/Resources/Client/ai_authority.lua:37-49 | allocation fails if and only if the vehicle has no id and 55 others do |
| AiAuthority.IdIsKept | client/Resources/Client/ai_authority.lua:163-168 | a vehicle that stays in the scene keeps its id through any run without deactivation |
| AiAuthority.SendingsAreDistinct | client/Resources/Client/ai_authority.lua:146-161 | within a tick no two vehicles are sent under one id |
| AiAuthority.SendingsMatch | client/Resources/Client/ai_authority.lua:146-161 | a tick sends vehicles of the scene under the ids they hold, and no player's vehicle |
| AiAuthority.EveryHolderIsSent | client/Resources/Client/ai_authority.lua:146-161 | a tick sends every traffic vehicle that has an id at its end, once for each time the scene lists it |
| AiAuthority.EveryVehicleIsSent | client/Resources/Client/ai_authority.lua:137-169 | from the second sending on, every update of a scene of at most 55 vehicles that sends, sends every traffic vehicle under its id, after any run |
| AiAuthority.SendsIffDue | client/Resources/Client/ai_authority.lua:137-142 | after steps none of which sent, an update sends if and only if the time passed has reached what was to be waited for, and then the interval is to be waited for |
| AiAuthority.WaitsFor | client/Resources/Client/ai_authority.lua:88-142 | an activation waits for nothing and an update that sends for the interval; an inactive client does nothing |
| AiAuthority.IntervalOfRate | client/Resources/Client/ai_authority.lua:92-93 | rate times interval is one, and the interval one second for rates below 1 |
| AiAuthority.PlayersAreKnown | client/Resources/Client/ai_authority.lua:152-153 | the vehicles left out are those added as players' and not removed since |
| AiAuthority.TwoSendingsServe | client/Resources/Client/ai_authority.lua:137-169 | with at most 55 vehicles in the scene, any updates of it, of which at least two send, serve every traffic vehicle and leave no stale entry, after any run |
| AiAuthority.OneTickServesIff | client/Resources/Client/ai_authority.lua:163-168 | one sending serves every traffic vehicle if and only if those who hold an id, stale ones among them, and those who want one are at most 55 |
| AiAuthority.OneSendingMayNotServe | client/Resources/Client/ai_authority.lua:163-168 | a run after which the entries of 55 vanished vehicles block the only one there is |
| RoadGraph.Export | servers/Resources/Server/tools/export_roads.lua:83-127 | the nested loops build the graph told by road and gap labels, over all nodes in order |
| RoadMap.MapExported | servers/Resources/Server/tools/export_roads.lua:87-121 | there are as many waypoints as nodes of the roads that are there, and each stands for one of them, at its position |
| RoadMap.NodeExported | servers/Resources/Server/tools/export_roads.lua:87-121 | every node that is there is exported, under the number of nodes before it and at its position |
| RoadMap.MapLinksIff | servers/Resources/Server/tools/export_roads.lua:101-124 | two waypoints are linked if and only if they are neighbours on one road, or the first is the last of its road, the second the next one made, on a later road, with no road without nodes between them |
| RoadMap.MapReachesIff | servers/Resources/Server/tools/export_roads.lua:87-126 | a waypoint of road i reaches one of road j along the links returned if and only if it is the same road, or a later one with no road without nodes between them |
| RoadMap.NameTells | servers/Resources/Server/tools/export_roads.lua:99 | a name is wp_ and the number in decimal |
| RoadGraph.ExportedLinksAreSound | servers/Resources/Server/tools/export_roads.lua:101-124 | the links of the exported waypoints name waypoints, are symmetric on a road, and lead from road to road by one link forward |
| RoadGraph.ReachesIff | servers/Resources/Server/tools/export_roads.lua:87-126 | in the labelled graph a waypoint reaches exactly its own road and the later waypoints with no empty road in between |
| RoadGraph.ExportedReachesIff | servers/Resources/Server/tools/export_roads.lua:87-126 | the same along the links of the waypoints that are returned |
| RoadGraph.LinkCount | servers/Resources/Server/tools/export_roads.lua:101-124 | the number of links is two per neighbouring pair on a road plus one per bridge |
| RoadGraph.NamesDiffer | servers/Resources/Server/tools/export_roads.lua:99 | different waypoints are exported under different names |

## Left out

- Sockets, asynchronous scheduling, TLS, HTTP and token files: received bytes, cuts, closes and failing writes are inputs.
- Mutexes: `disconnect` calls `close` while holding the lock that `onSessionClose` takes again; the model closes after the handler's own changes. Handlers are taken as atomic, except in `Admission` and `Capacity`; the unlocked accesses to the vehicle table and to the id counter are atomic everywhere.
- JSON, TOML and the plugin interpreter: decoded requests and the veto are inputs of a step; so is whether a sender is the AI authority.
- Exceptions that no handler catches: a control packet shorter than a header raises one, and so does a body that is JSON but no object in `handleAuth` and `handleVehicleSpawn`; the readers here deliver such bytes, and what a body decodes to is an input.
- LuaClient.Extension.PollTCP: does not model an error raised by a packet handler, such as a missing name, which leaves the loop with complete frames still in the buffer.
- GameServer.GameServer.Authenticate: does not model that the AI authority is told of a bridge, nor what else than the number of players is in the server information.
- GameServer.GameServer.OnTCPPacket: does not model chat lines, the welcome line after ready among them, and authority claims; the packet arrives decoded.
- GameServer.GameServer.OnUDPPacket: does not model AI updates of the authority that announce more than the receive buffer holds, because their relay reads past its end.
- UdpServer.MapPlayer: no file calls it, so runs take it as a step of its own.
- Transform.Parse: does not read exponents, hexadecimal, infinities, nan and numbers out of a float's range, because the format prints none of them; `Decimal.Stof` is where this shows.
- Transform.RoundTripIff: does not model rounding to floats, because numbers are taken as the millionths that are printed and values are compared as decimals; a negative zero is kept.
- Packet.VehicleState: floats are opaque 32-bit words.
- The game-side packing of vehicle states, which has 75 bytes and so is not the 66-byte layout.
- Capacity.Server: counts players and does not model their ids, so its limits can be passed where the ids would run out; `AdmissionLimit` has the ids.
- Admission.Next: takes the handing out of an id and its insertion as one step, and a bridge's request and a refused one as one step.
- AiAuthority.Sendings: the payload of a state is not modelled, only the vehicle and its id; switching the game's own traffic on and off is left out.
- RoadGraph.Waypoint: speed and width are not modelled; waypoints are kept by number, and the branch for maps that have AI waypoints is left out.
- BeamMP.Session: all callbacks are taken as set, and server information is only logged in the source.
- Chat, authority grants, RCON, console, launchers, HUD, server browser and heartbeat.
- Iteration over hash tables: one broadcast is recorded with its set of receivers, without their order.
- The route planning and speed control of the built-in traffic: those files are not part of this model.
