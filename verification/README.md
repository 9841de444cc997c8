# A verified model of the VPN core

This Dafny project models the protocol core of the VPN: the user-space TCP bridge behind the TUN
device, the Hidekey UDP transport and its session table, the framed encrypted stream (nonces, RTP
disguise, padding, HTTP/2 disguise, multiplexed sending), the TLS 1.3 client pieces and the DNS cache.
`dafny verify dfyconfig.toml` checks all of it.

Code that updates state is modelled by classes and methods with loops, each proved against a
specification function; what the code is for is then proved about those functions, over all inputs or
all runs. Concurrency is modelled by step systems: a run is a sequence of events, each of which is one
lock-held section, one pass between two awaits, or one move of the environment.

## How the parts are modelled

**TCP bridge** (`SmolSocket`, `TcpControl`, `TcpConn`, `TcpBridge`, `TcpSyns`, `TcpProgress`). A connection is the control block
shared by the stream and the worker, the smoltcp socket as an environment, and four byte histories:
accepted by writes, handed to the socket, taken from the socket, returned by reads. `TcpBridge` has any
number of connections, the packet handler, the worker loop with its phases, and one stored notify
permit; handler and worker interleave only where the original awaits, stream calls anywhere. A poll of
the stack goes frame by frame, until the device has no frame to give: a listening socket takes an
opening SYN for its destination and ignores everything else, a segment may deliver bytes or change the
state of one other socket, a timer may close it, and the device may lose a frame to a full egress
queue. `may_recv` stays true while bytes are unread, a reset carries no data, and Closed is final.
`recv` and `send` may fail at any point of a visit. The delay after which the worker looks again is the
stack's answer and arbitrary; it rests only if that is not zero.

**Hidekey UDP** (`ReplayWindow`, `UdpCodec`, `Handshake`, `UdpServer`, `UdpRelay`). The 64-bit replay
window is a number below 2^64 and its shifts and ors are written in arithmetic; bit `d` is proved to
mean "`highest - d` was accepted". The session table runs with arbitrary datagrams, secrets and relay
schedules.

**Framed stream** (`Stego`, `HideCipher`, `H2Frames`, `H2Handshake`, `MuxSend`, `FlowControl`).
Jitter, padding and capacity grants are arbitrary. The two-party HTTP/2 opening runs over two byte
channels with partial writes.

**TLS and DNS** (`TlsRecords`, `ClientHello`, `KeyShare`, `DnsCache`). The hello is read back by a
parser written from the TLS grammar, independently of the builder.

**Packets** (`StackSink`, `VirtualDevice`). The one-item slot in front of the protocol channels and
the device queues of the user-space stack.

Ciphers, MACs, key derivation and Diffie-Hellman are function values. What a theorem needs of them is
its hypothesis: `Correct` (a sealed message opens, the tag adds 16 bytes), `BindsNonce` (it opens under
no other nonce), `Ideal` (both), `DhCommutes`. `Aead.PlainIsIdeal` shows the hypotheses can be met.

## Where the code is not what its text suggests

- The UDP encoder takes its nonce from the packet id, the decoder from the first ciphertext bytes.
  Decoding undoes encoding exactly when the two agree (`UdpCodec.DecodeUndoesEncodeExactly`), and they
  need not (`UdpCodec.DecodeCanRefuseOwnDatagram`).
- The relay cuts reads into chunks of 1358 bytes, the encoder takes at most 862 and a rejected chunk is
  skipped: a read reaches the client whole exactly when it has at most 862 bytes
  (`UdpRelay.WholeReadDeliveredExactly`); full chunks never arrive (`UdpRelay.OnlyShortTailsSurvive`).
- The relay is started before its session becomes Established, so an Established session may have no
  relay: exactly if it was inserted after its relay was gone (`UdpServer.OrphanExactly` for a step,
  `UdpServer.OrphanedExactly` for runs, `UdpServer.EstablishedWithoutRelay` for a concrete run). It is
  then permanent (`UdpServer.OrphanIsPermanent`).
- The replay check of a pending session never rejects (`UdpServer.PendingNeverSeesReplay`).
- A stream that shuts down with data buffered may leave its FIN to the worker's timer: the visit that
  hands over the last byte has passed the close check, and nobody asks for another
  (`TcpConn.FinPendingExactly`, `TcpBridge.FinCanBePendingWhileParked`). The worker rests in that state
  only if the stack has nothing to send at once, as with a zero peer window or a held small segment;
  otherwise the delay is zero and it looks again immediately. The FIN is never out of reach
  (`TcpProgress.FinGoesOut`).
- A parked worker may also owe the reaping of a socket that its last visit aborted or closed while it
  was listening (`TcpConn.ReapOwedExactly`).
- A socket found Closed is removed unread, and one whose `recv` fails is aborted unread: end-of-file
  then hides bytes (`TcpConn.EndHidesExactly`, `TcpBridge.EofIsHonest`, and
  `TcpBridge.ReapedEofCanHideBytes` for a run).
- An opening SYN can lose its listening socket: if its stream shuts down or is dropped with nothing
  accepted from it while the SYN waits behind other frames, the worker closes and reaps the socket
  (`TcpBridge.SynFindsItsSocket` says exactly when it is there, `TcpBridge.SynCanLoseItsSocket` is a run).
  Another socket of the destination may still take it (`TcpSyns.SynFindsSomeSocket`).
- Frames that stood behind one lost to a full egress queue wait with the availability flag down until
  something else wakes the worker (`TcpBridge.FramesWaitExactly`, `TcpBridge.LostFrameStrandsTheNext`).
- The device takes a frame off its queue before it asks for a reply slot: a frame is lost exactly when
  one is polled with the egress queue full (`VirtualDevice.LossExactly`,
  `VirtualDevice.FullEgressLosesFrame`).
- `length_prefix` truncates to 16 bits: the nested codec inverts exactly up to 65523 payload bytes
  (`Stego.NestInvertsExactly`), which for `seal` with its 16-byte tag means 65507 of plaintext.
- The record length of the ClientHello wraps too: the hello is readable exactly for names up to 65324
  bytes (`ClientHello.HelloParsesExactly`).
- `recv_data` is documented for stream 1, but the stream id is not checked: exactly the payloads of
  stream 1 are received iff no other stream carries DATA (`H2Frames.StreamOneExactly`,
  `H2Frames.ForeignDataIsReceived`). An end of the stream is reported as clean exactly if it lies between
  frames or inside a frame header (`H2Frames.CutStreamExactly`, `H2Frames.CutHeaderLooksClean`).
- The loop that cuts the header off a server's reply removes one piece, from the first payload long
  enough to hold a header by its own bytes. That piece is the reply's header exactly if the first
  non-empty payload holds all of it (`TlsRecords.HeaderIsCutExactly`); what reaches the client is the
  reply exactly if the piece has the header's length and the bytes in front of it happen to be those the
  reply starts with (`TlsRecords.ReplyIsIntactExactly`). A header split over two records can reach the
  client (`TlsRecords.SplitHeaderReachesClient`).
- `extract_server_key_share` indexes position 34 of a 34-byte body. A longer one panics exactly if whole
  extensions without a usable share are followed by a key-share header that claims at least four bytes
  where fewer are left (`KeyShare.OutcomeExactly`, `KeyShare.CutShareMakesItPanic`).
- A `start_send` without a preceding `poll_ready` can overwrite the slot: `StackSink.OverwriteExactly`,
  `StackSink.SecondSubmissionOverwrites`.

## Model

| member | source | states |
|---|---|---|
| TcpControl.TcpSocketControl.Read | netstack-smoltcp/src/tcp.rs:464-499 | a read returns buffered bytes first, then EOF if closed, else waits; the displaced waker and the notification are as specified |
| TcpControl.TcpSocketControl.Write | netstack-smoltcp/src/tcp.rs:501-533 | a write is refused once the send half left Normal, waits on a full buffer, else takes what fits and notifies |
| TcpControl.TcpSocketControl.Shutdown | netstack-smoltcp/src/tcp.rs:539-560 | shutdown is done when closed, otherwise requests the close and waits |
| TcpControl.TcpSocketControl.Drop | netstack-smoltcp/src/tcp.rs:438-452 | dropping requests the close of a Normal half and always notifies |
| TcpControl.ReadAnswers | netstack-smoltcp/src/tcp.rs:464-499 | with bytes buffered a read returns the first of them, as many as fit, keeps the rest and notifies iff it had room; without, EOF iff closed, else it registers |
| TcpControl.WriteAnswers | netstack-smoltcp/src/tcp.rs:501-533 | refused iff the half is not Normal, waiting iff the buffer is full, else as many bytes accepted as fit, notifying iff there were any |
| TcpControl.ShutdownAnswers | netstack-smoltcp/src/tcp.rs:539-560 | done iff closed, else the close is requested, the task registered and the worker notified |
| TcpControl.DropAnswers | netstack-smoltcp/src/tcp.rs:438-452 | both Normal halves are given up and the worker notified |
| TcpControl.TcpSocketControl.DrainSocket | netstack-smoltcp/src/tcp.rs:249-274 | the receive loop moves bytes in order until the buffer is full, the socket is empty or a fault aborts it |
| TcpControl.TcpSocketControl.DrainSendBuffer | netstack-smoltcp/src/tcp.rs:302-333 | the send loop hands over bytes in order until the buffer or the socket's room is used up, or a fault aborts |
| TcpControl.TcpSocketControl.Visit | netstack-smoltcp/src/tcp.rs:213-340 | one visit of the worker equals the specified scan, in control block, socket, moved bytes, woken tasks, FIN and removal |
| TcpControl.ScanFacts | netstack-smoltcp/src/tcp.rs:213-340 | what any visit amounts to: a prefix of the unread bytes and a prefix of the send buffer moved, and the exact new states |
| TcpControl.FaultFreeVisit | netstack-smoltcp/src/tcp.rs:236-327 | the FIN goes out iff a close was requested and nothing is buffered, each direction moves all that fits, and reading ends iff nothing is unread in a state in which the peer sends no more |
| SmolSocket.CloseEndsSending | netstack-smoltcp/src/tcp.rs:236-247 | the contract of close: sending ends, an open connection goes on receiving, an unopened one is over |
| TcpConn.CallKeeps | netstack-smoltcp/src/tcp.rs:438-561 | every stream call keeps conservation, close order and waker soundness of a connection |
| TcpConn.VisitKeeps | netstack-smoltcp/src/tcp.rs:213-354 | so does every visit of the worker, faults included |
| TcpConn.ChangeNotifies | netstack-smoltcp/src/tcp.rs:438-561 | a call that changes more than a waker leaves a notify permit |
| TcpConn.CallMovesForward | netstack-smoltcp/src/tcp.rs:438-561 | no call moves a send or receive state back |
| TcpConn.VisitMovesForward | netstack-smoltcp/src/tcp.rs:213-340 | no visit moves a send or receive state back |
| TcpConn.SettledMeansIdle | netstack-smoltcp/src/tcp.rs:213-340 | a visit of a settled connection changes nothing at all |
| TcpConn.VisitQuiets | netstack-smoltcp/src/tcp.rs:213-340 | after any visit a connection is settled, owes a FIN, or has a Closed socket |
| TcpConn.ReapOwedExactly | netstack-smoltcp/src/tcp.rs:213-340 | a visit of an open socket leaves it Closed iff recv or send failed, or it closed a socket that nobody had opened |
| TcpConn.EndHidesExactly | netstack-smoltcp/src/tcp.rs:219-300 | the visit that ends reading hides bytes from the reader iff it found the socket Closed with bytes unread, or recv failed |
| TcpConn.FinPendingExactly | netstack-smoltcp/src/tcp.rs:236-327 | a fault-free visit leaves a FIN behind iff the stream was closing with data that all fitted into the socket |
| TcpBridge.StepKeeps | netstack-smoltcp/src/tcp.rs:81-354 | every step of handler, worker, streams and stack keeps the invariant of the whole bridge |
| TcpBridge.ParkedWorkerHasSeenEverything | netstack-smoltcp/src/tcp.rs:213-352 | no lost wake-up, worker side: parked without a permit it has seen every change, and owes a connection at most a FIN or the reaping of a Closed socket |
| TcpBridge.WaitingTasksHaveNothing | netstack-smoltcp/src/tcp.rs:464-561 | no lost wake-up, task side: whoever was told to wait is registered, what it waits for is nowhere, a waiting reader's peer can still send, and nobody waits on a connection that has been reaped |
| TcpBridge.FramesWaitExactly | netstack-smoltcp/src/device.rs:45-57 | with the worker parked, unnotified and the handler idle, frames are queued iff they stood behind one lost to a full egress queue |
| TcpBridge.SendConservation | netstack-smoltcp/src/tcp.rs:302-327 | accepted bytes are the handed bytes followed by the buffer; a FIN is sent only for a stream that was shut down or dropped, with all handed over, and writes are refused after it |
| TcpBridge.EofIsHonest | netstack-smoltcp/src/tcp.rs:219-300 | received bytes are conserved in order; an empty answer to a read with room means everything taken was returned, and everything sent iff reading ended by half-close or by reaping a socket found empty |
| TcpBridge.RunsExtend | netstack-smoltcp/src/tcp.rs:81-354 | along any run histories only grow, states only move forward, nothing is accepted after the FIN, nothing arrives or is taken after reading ended |
| TcpBridge.SynFindsItsSocket | netstack-smoltcp/src/tcp.rs:136-202 | while the stack polls, a queued opening SYN's socket has been added and is in the socket set iff not reaped; unless it took other SYNs for its destination it is there listening iff the worker has not closed it for a stream that ended with nothing accepted |
| TcpBridge.SynCanLoseItsSocket | netstack-smoltcp/src/tcp.rs:136-247 | a run in which the SYN at the head of the queue no longer has a socket |
| TcpSyns.SocketsCoverSyns | netstack-smoltcp/src/tcp.rs:136-202 | while the stack polls, each destination has at least as many sockets that took no SYN as opening SYNs in the queue, and they are in the socket set and listening except those the worker closed |
| TcpSyns.SynFindsSomeSocket | netstack-smoltcp/src/tcp.rs:136-202 | a queued SYN finds a listening socket of its destination, whatever SYNs came before, unless as many streams to it as SYNs are queued were given up unopened |
| TcpBridge.LostFrameStrandsTheNext | netstack-smoltcp/src/device.rs:45-57 | a run that parks the worker behind a lost frame with another one queued |
| TcpProgress.FinGoesOut | netstack-smoltcp/src/tcp.rs:194-352 | from every reachable state with a stream shut down over a socket that still sends, some steps without a stream call, at most linear in the sockets and queued frames, hand over everything accepted and send the FIN |
| TcpProgress.VisitOfFinishing | netstack-smoltcp/src/tcp.rs:236-327 | a fault-free visit of such a connection hands over what fits, or sends the FIN if nothing is left |
| TcpBridge.FinCanBePendingWhileParked | netstack-smoltcp/src/tcp.rs:236-352 | a run after which the worker sleeps without permit while a FIN is due, the stack's delay not being zero |
| TcpBridge.ReapedEofCanHideBytes | netstack-smoltcp/src/tcp.rs:219-234 | a run with handshake, data and a reset behind it after which the reader gets EOF though a delivered byte was never returned |
| ReplayWindow.AcceptRefinesSet | src/hidekey/udp_obfs.rs:340-366 | one step of the bitmask is one step of a plain set: accept iff above the highest, or within 64 and new |
| ReplayWindow.WindowRepresentsHistory | src/hidekey/udp_obfs.rs:340-366 | for every sequence of ids bit d is set iff highest - d was accepted |
| ReplayWindow.AcceptedExactly | src/hidekey/udp_obfs.rs:340-366 | after any history an id is accepted iff it exceeds the highest, or lies within 64 of it and never was accepted |
| ReplayWindow.NoIdAcceptedTwice | src/hidekey/udp_obfs.rs:340-366 | no id is accepted at two positions of any sequence |
| ReplayWindow.UdpSessionCounter.AcceptRx | src/hidekey/udp_obfs.rs:340-366 | the method with its shifts and masks is that step |
| ReplayWindow.UdpSessionCounter.NextTxId | src/hidekey/udp_obfs.rs:329-333 | ids are handed out consecutively and wrap at 2^32 |
| Bytes.XorZero | src/hidekey/udp_obfs.rs:163-166 | masking changes nothing exactly where the mask is zero, and equal bytes alone mask each other out |
| Bytes.BigEndian | src/hidekey/udp_obfs.rs:97-103 | integers are written most significant byte first |
| UdpCodec.EncodePacket | src/hidekey/udp_obfs.rs:123-200 | the buffer holds exactly the specified datagram and is otherwise untouched; an error leaves it alone |
| UdpCodec.EncodesExactlyUpTo862 | src/hidekey/udp_obfs.rs:131-199 | encoding succeeds iff the payload has at most 862 bytes, for every padding draw, within 1400 bytes |
| UdpCodec.DecodePacket | src/hidekey/udp_obfs.rs:228-306 | each check fails with its own error, in the code's order |
| UdpCodec.DecodesExactly | src/hidekey/udp_obfs.rs:228-306 | a datagram decodes, and to what, told from its bytes: masked magic, version and length, the ciphertext opened under the hinted nonce with the header bound, the counted payload |
| UdpCodec.RefusedExactly | src/hidekey/udp_obfs.rs:234-275 | which datagrams are refused for which check of the framing |
| UdpCodec.RefusedInside | src/hidekey/udp_obfs.rs:276-305 | which framed ciphertexts are refused as unauthentic, too short or overrunning |
| UdpCodec.EncodedReads | src/hidekey/udp_obfs.rs:131-199 | an encoded datagram read byte by byte: header, bound ciphertext, packet id, length, payload, padding |
| UdpCodec.NonceFields | src/hidekey/udp_obfs.rs:97-103 | packet id, direction and the first key bytes stand in the nonce |
| UdpCodec.DirectionsNeverShareNonces | src/hidekey/udp_obfs.rs:97-103 | the client's packets are tagged 1, the server's 2, and no packet ids make nonces of the two directions coincide |
| UdpCodec.UnframeInverts | src/hidekey/udp_obfs.rs:234-275 | unmasking and slicing recover the exact ciphertext whatever padding follows |
| UdpCodec.ParseInverts | src/hidekey/udp_obfs.rs:286-305 | the inner parse recovers packet id and payload |
| UdpCodec.DecodeUndoesEncodeExactly | src/hidekey/udp_obfs.rs:170-305 | decoding an encoded packet gives it back iff the id read from the ciphertext equals the packet id |
| UdpCodec.DecodeCanRefuseOwnDatagram | src/hidekey/udp_obfs.rs:276-283 | a concrete datagram the decoder refuses under an ideal cipher |
| UdpRelay.ChunksPartition | src/outbound_udp.rs:325-341 | the chunk walk partitions every read |
| UdpRelay.IdsAreConsecutive | src/outbound_udp.rs:342-356 | encoded chunks get consecutive ids modulo 2^32; rejected ones use none up |
| UdpRelay.RelayRead | src/outbound_udp.rs:337-356 | the loop sends exactly the encodings of the accepted chunks, in order |
| UdpRelay.SentReachesClient | src/outbound_udp.rs:337-356 | each datagram opens, under a nonce with its id and the server's tag 2, to its id and chunk |
| UdpRelay.OnlyShortTailsSurvive | src/outbound_udp.rs:325-356 | of a read only a last partial chunk of at most 862 bytes is sent |
| UdpRelay.WholeReadDeliveredExactly | src/outbound_udp.rs:325-356 | a read is delivered whole iff it has at most 862 bytes |
| UdpRelay.ReadOf863IsLost | src/outbound_udp.rs:325-356 | a read of 863 bytes of which nothing is sent |
| UdpServer.ParseTargetExactly | src/outbound_udp.rs:267-286 | a payload parses to a target iff it is that target's encoding followed by anything |
| UdpServer.TargetBytes | src/outbound_udp.rs:260-286 | the bytes of a target: command 1, port, address kind, address |
| UdpServer.PendingExactly | src/outbound_udp.rs:125-160 | for a pending session of a reachable state: nothing changes iff the datagram does not decode under its key, the connection starts iff it decodes and names a target, its id then being the one the replay window holds, the session is removed iff it decodes to anything else |
| UdpServer.UnknownExactly | src/outbound_udp.rs:199-253 | for an unknown address a session appears iff the datagram decodes to 76 bytes whose last 32 are the MAC of the first 44, with keys from the shared secret |
| UdpServer.TableElsewhereExactly | src/outbound_udp.rs:160-194 | what every other event does to the table |
| UdpServer.StepKeeps | src/outbound_udp.rs:105-255 | every step of receive loop and relays keeps the table invariant |
| UdpServer.OneLiveRelay | src/outbound_udp.rs:181-194 | at most one relay per client address in every run, and its session is in the table |
| UdpServer.EstablishedIsProven | src/outbound_udp.rs:125-253 | an Established session's key is what process_challenge agreed on for the last verified datagram of its address, which carried a challenge MACed under the master key, and a later packet decoded under that key named a target |
| UdpServer.PendingNeverSeesReplay | src/outbound_udp.rs:125-150 | the replay check of a pending session accepts every id |
| UdpServer.OrphanExactly | src/outbound_udp.rs:181-194 | a step leaves an Established entry without a relay iff it was so, or the entry is inserted after its relay is gone |
| UdpServer.OrphanedExactly | src/outbound_udp.rs:181-194 | after any run an Established entry lacks its relay iff at some point it was inserted too late |
| UdpServer.RelayCanEndBeforeEntry | src/outbound_udp.rs:181-194 | every run about to connect can end in an Established entry without a relay |
| UdpServer.EstablishedWithoutRelay | src/outbound_udp.rs:125-253 | a concrete run, from challenge to first packet, that ends there |
| UdpServer.OrphanIsPermanent | src/outbound_udp.rs:105-255 | such an entry stays, unchanged, in every continuation |
| Handshake.MessageRoundTrip | src/hidekey/handshake.rs:23-73 | from_bytes undoes to_bytes for challenge and response |
| Handshake.MessageLayout | src/hidekey/handshake.rs:23-73 | nonce, public key and MAC at their offsets |
| Handshake.ProcessChallengeExactly | src/hidekey/handshake.rs:159-201 | a challenge is answered iff its last 32 bytes are the MAC of its first 44; the answer is MACed likewise and the keys are derived from the shared secret, each under its own label |
| Handshake.ProcessResponseExactly | src/hidekey/handshake.rs:123-143 | a response is accepted iff its MAC covers it, with the keys in the other order |
| Handshake.AnswerChallenge | src/hidekey/handshake.rs:159-201 | process_challenge with the constant-time check |
| Handshake.AcceptResponse | src/hidekey/handshake.rs:123-143 | process_response with the constant-time check |
| Handshake.KeysMirror | src/hidekey/handshake.rs:106-201 | a genuine exchange succeeds on both sides and each side's sending key is the other's receiving key |
| Handshake.VerifyMac | src/hidekey/crypto.rs:17-24 | the XOR-accumulate loop accepts iff the MACs are equal |
| Stego.HeaderRoundTripExactly | src/hidekey/stego.rs:92-150 | deserialize undoes serialize iff every field fits its bits |
| Stego.BufferRoundTrip | src/hidekey/stego.rs:92-150 | serialize undoes deserialize on every 12-byte buffer |
| Stego.FlagNumbers | src/hidekey/stego.rs:92-108 | the two flag bytes as sums of their fields at their places |
| Stego.PacketReads | src/hidekey/stego.rs:92-190 | the i-th packet as an RTP receiver reads it: version 2, payload type 111, sequence number + i, timestamp + 960 i, the same source, the payload |
| Stego.UnpackUndoesPack | src/hidekey/stego.rs:175-212 | unpacking a packed payload gives it back |
| Stego.UnpackPacket | src/hidekey/stego.rs:196-212 | unpacking fails iff the packet is shorter than a header or not version 2 |
| Stego.RtpSessionState.PackPayload | src/hidekey/stego.rs:175-190 | sequence number and timestamp advance modulo 2^16 and 2^32 |
| Stego.AmneziaPad | src/hidekey/stego.rs:28-50 | the data stays a prefix and the total is the smallest bucket that holds data and jitter, or exactly their sum past the largest bucket |
| Stego.NestInvertsExactly | src/hidekey/framing.rs:14-20 | unpacking the prefixed slice of the padded frame returns the payload iff the packet length fits 16 bits |
| Stego.FramesRoundTrip | src/hidekey/framing.rs:24-40 | reading frames from a stream of prefixed packets returns them in order |
| Stego.ReadFrameExactly | src/hidekey/framing.rs:24-40 | a frame is read iff its length and as many bytes are there and the length is not zero; which error otherwise |
| HideCipher.HideCipher.Seal | src/outbound.rs:207-215 | one seal uses the counter and RTP sequence for its nonce and advances both |
| HideCipher.HideCipher.OpenPacket | src/outbound.rs:218-225 | the counter advances iff the packet opened |
| HideCipher.OpenMovesExactly | src/outbound.rs:218-225 | which packets open at all, to what, and that the count moves on exactly then and nothing else changes |
| HideCipher.NonceReuseExactly | src/outbound.rs:197-215 | two seals share a nonce iff their indices agree modulo 2^32 |
| HideCipher.NonceFields | src/outbound.rs:197-204 | direction, counter, sequence number and key bytes stand in the nonce |
| HideCipher.DirectionsNeverShareNonces | src/outbound.rs:197-204 | nonces of two directions differ, however far the counters have come |
| HideCipher.OtherDirectionNeverOpens | src/outbound.rs:197-225 | a packet sealed in one direction opens in the other under no header and no counter |
| HideCipher.OpensExactly | src/outbound.rs:218-225 | a delivery opens iff its header names the sealed sequence number in version 2 and the counters agree |
| HideCipher.AcceptsPrefix | src/outbound.rs:197-225 | under any loss, duplication, reordering and header change of fewer than 2^32 packets the accepted plaintexts are a prefix and the counter is its length |
| HideCipher.InOrderDeliveryIsComplete | src/outbound.rs:197-225 | packets delivered in order with those header fields intact are all accepted |
| HideCipher.GenuineIsUntouched | src/outbound.rs:207-215 | a packet as sealed has those fields intact |
| H2Frames.SendData | src/hidekey/h2_obfs.rs:258-302 | fast and slow path write exactly the specified DATA frames |
| H2Frames.FrameReadsBack | src/hidekey/h2_obfs.rs:74-90 | a frame's length, type, flags, stream id and payload are read back by a reader of the RFC layout |
| H2Frames.ReservedBitIsClear | src/hidekey/h2_obfs.rs:74-90 | the reserved bit is sent clear for every stream id |
| H2Frames.SentReadsAsData | src/hidekey/h2_obfs.rs:258-302 | what is sent reads as DATA frames without flags on stream 1 with the chunks as payloads |
| H2Frames.ChunksAreTheData | src/hidekey/h2_obfs.rs:258-302 | the frames carry the data, ceil(len / 1048576) of them, in the precomputed number of bytes |
| H2Frames.Reader.RecvData | src/hidekey/h2_obfs.rs:315-361 | the next DATA payload, skipping others; clean end and broken end distinguished as the code does |
| H2Frames.RecvAllReadsFrames | src/hidekey/h2_obfs.rs:315-361 | from any well-formed frames exactly the DATA payloads come out, in order |
| H2Frames.DataRoundTrip | src/hidekey/h2_obfs.rs:258-361 | sent data is received whole whatever frames are interleaved |
| H2Frames.SentFramesQualify | src/hidekey/h2_obfs.rs:258-302 | what send_data writes meets that theorem's conditions |
| H2Frames.CutStreamExactly | src/hidekey/h2_obfs.rs:315-361 | a stream cut anywhere yields exactly the payloads of the whole frames, and a clean end iff fewer than nine bytes follow them |
| H2Frames.CutStreamYieldsPrefix | src/hidekey/h2_obfs.rs:315-361 | in particular a prefix of the payloads sent |
| H2Frames.CutHeaderLooksClean | src/hidekey/h2_obfs.rs:315-361 | a stream cut inside a frame header that is reported as clean |
| H2Frames.StreamOneExactly | src/hidekey/h2_obfs.rs:315-361 | exactly the payloads of stream 1 are received iff no other stream carries DATA |
| H2Frames.ForeignDataIsReceived | src/hidekey/h2_obfs.rs:315-361 | a DATA frame of stream 3 that is received |
| H2Frames.Reader.ReadFrameType | src/hidekey/h2_obfs.rs:366-406 | the payload of the first frame of the wanted type, or an error at any end of the stream |
| H2Frames.FindsFirstOfType | src/hidekey/h2_obfs.rs:366-406 | looking for a frame consumes everything through it and nothing behind it |
| H2Frames.FindsNoneExactly | src/hidekey/h2_obfs.rs:366-381 | on a stream cut anywhere the search fails iff no whole frame of the type is there |
| H2Handshake.HidekeyIsProper | src/hidekey/h2_obfs.rs:93-183 | the concrete settings and headers are well-formed frames of the expected types |
| H2Handshake.OpeningReads | src/hidekey/h2_obfs.rs:190-245 | both outputs read back as preface and frames |
| H2Handshake.HidekeyReads | src/hidekey/h2_obfs.rs:190-245 | in particular the concrete frames |
| H2Handshake.SettingsSaid | src/hidekey/h2_obfs.rs:93-107 | a settings frame reads back as its settings, without flags on stream 0 |
| H2Handshake.HeadersSaid | src/hidekey/h2_obfs.rs:113-151 | a headers frame reads back as its names and values, complete on stream 1 |
| H2Handshake.HidekeyHeaderFrames | src/hidekey/h2_obfs.rs:113-151 | the concrete headers are such frames |
| H2Handshake.HidekeySaysSettings | src/hidekey/h2_obfs.rs:166-183 | the concrete settings and the acknowledgement |
| H2Handshake.PrefaceBytes | src/hidekey/h2_obfs.rs:190-245 | the 24 bytes of the preface |
| H2Handshake.WrongPrefaceIsRejected | src/hidekey/h2_obfs.rs:214-245 | the server rejects, silently, exactly a client that does not start with the preface |
| H2Handshake.ReaderFindsFirst | src/hidekey/h2_obfs.rs:366-406 | the frame reader of the step system reads like read_frame_type |
| H2Handshake.StepKeeps | src/hidekey/h2_obfs.rs:190-245 | in every interleaving the bytes under way are exactly what the reader still expects |
| H2Handshake.SomeStepIsEnabled | src/hidekey/h2_obfs.rs:190-245 | no deadlock before both sides have finished |
| H2Handshake.OpeningCompletes | src/hidekey/h2_obfs.rs:190-245 | every run is bounded, and one that cannot go on has both sides finished and both channels empty |
| MuxSend.SendStream.SendChunk | src/hidekey/mux.rs:21-54 | the offset loop emits the specified pieces for every sequence of grants |
| MuxSend.SendStream.SendBytes | src/hidekey/mux.rs:58-89 | the splitting loop emits the same pieces with the same outcome |
| MuxSend.PiecesConcatenate | src/hidekey/mux.rs:21-89 | the pieces concatenate to the input iff the send completes, to a prefix otherwise |
| MuxSend.PiecesFitTheirGrants | src/hidekey/mux.rs:21-89 | piece i is non-empty and at most the i-th non-zero grant |
| MuxSend.CompletesExactly | src/hidekey/mux.rs:21-89 | a send completes iff the credit before the first failure covers it |
| MuxSend.FailsExactly | src/hidekey/mux.rs:21-89 | an incomplete send fails iff some grant fails, and still waits iff none does |
| FlowControl.WindowIsConserved | src/hidekey/mux.rs:701-724 | credit, in flight, unreleased and returning bytes add up to the window; sent-but-unwritten bytes never exceed it |
| FlowControl.WindowComesBack | src/inbound.rs:1329-1357 | no permanent stall: from every state with a live relay a bounded number of steps without sending brings back the whole window and writes everything sent |
| FlowControl.QuiescentMeansWholeWindow | src/inbound.rs:1329-1357 | with nothing under way the window is whole already |
| StackSink.Stack.PollSend | netstack-smoltcp/src/stack.rs:171-199 | the slot is sent, kept on a full channel, or dropped with a reason; nothing else changes |
| StackSink.Stack.PollReady | netstack-smoltcp/src/stack.rs:219-228 | a taken slot is sent first, and the answer is yes exactly with an empty slot |
| StackSink.Stack.StartSend | netstack-smoltcp/src/stack.rs:230-259 | in any state a packet is classified and buffered, replacing one still in the slot, or dropped with a reason |
| StackSink.EveryPacketAccountedFor | netstack-smoltcp/src/stack.rs:171-259 | for all call sequences every packet has one fate, channels keep submission order, at most one is in the slot and only drops came after it |
| StackSink.FatesExplained | netstack-smoltcp/src/stack.rs:171-259 | in every run each packet's fate tells its kind: what was delivered, and every reason for a drop |
| StackSink.ChannelsCarryTheirProtocols | netstack-smoltcp/src/stack.rs:178-199 | the UDP channel got only allowed UDP packets, the TCP channel only allowed TCP and ICMP ones, each with its protocol on; dropped as disabled means it is off |
| StackSink.SendingExactly | netstack-smoltcp/src/stack.rs:171-199 | the packet in the slot is dropped iff its protocol is off, kept iff the channel is full, else delivered to its channel or lost with it |
| StackSink.SubmittingExactly | netstack-smoltcp/src/stack.rs:230-259 | an error iff the bytes are no packet; the slot is taken iff the packet is worth keeping |
| StackSink.ReadyExactly | netstack-smoltcp/src/stack.rs:219-228 | ready iff the slot is empty after at most one send |
| StackSink.OverwriteExactly | netstack-smoltcp/src/stack.rs:219-259 | a run overwrites a packet iff some packet was submitted, and kept, over a taken slot |
| StackSink.ContractPreventsOverwriting | netstack-smoltcp/src/stack.rs:219-259 | a run that submits only after poll_ready said yes overwrites none |
| StackSink.SecondSubmissionOverwrites | netstack-smoltcp/src/stack.rs:230-259 | two submissions in a row, of which the first is lost |
| VirtualDevice.Device.Push | netstack-smoltcp/src/tcp.rs:176-181 | a frame joins the end of the ingress queue and the availability flag goes up |
| VirtualDevice.Device.Poll | netstack-smoltcp/src/device.rs:45-57 | the next frame, unless the queue is empty or egress is full, and the availability flag |
| VirtualDevice.EveryFrameAccountedFor | netstack-smoltcp/src/device.rs:45-64 | every frame is consumed, discarded or queued, once and in order; egress keeps its bound |
| VirtualDevice.Device.Send | netstack-smoltcp/src/device.rs:59-64 | a packet joins the egress queue iff a slot is free |
| VirtualDevice.LossExactly | netstack-smoltcp/src/device.rs:45-57 | a run loses a frame iff it polls one while egress is full |
| VirtualDevice.FullEgressLosesFrame | netstack-smoltcp/src/device.rs:45-57 | a device without egress slots that loses a frame |
| TlsRecords.Encrypter.EncryptInPlace | src/tls13.rs:173-219 | the buffer holds the sealed record in place; a short buffer is refused and left alone |
| TlsRecords.Decrypter.DecryptInPlace | src/tls13.rs:233-264 | the plaintext stands behind the header and the sequence advances iff the record opened |
| TlsRecords.RecordOpensExactly | src/tls13.rs:173-264 | a record opens at its own sequence number and no other |
| TlsRecords.RecordReads | src/tls13.rs:173-219 | a record read byte by byte: type 0x17, version, length, and the rest opening with those five bytes bound |
| TlsRecords.RecordNonceReads | src/tls13.rs:185-200 | the nonce is the IV with the sequence number in network byte order folded into its last eight bytes |
| TlsRecords.StripContentType | src/inbound.rs:1107-1116 | the backward scan finds the last non-zero byte as the type |
| TlsRecords.StripRecoversMessage | src/inbound.rs:1107-1116 | content ending in zeros, with any padding, is recovered exactly |
| TlsRecords.StreamRoundTrip | src/inbound.rs:1088-1138 | the client gets exactly what any sequence of sealed messages says: application data in order, other types skipped, nothing after an alert |
| TlsRecords.SpokenMeans | src/inbound.rs:1117-1136 | what is said is the application data in front of the first alert, with at most the header cut |
| TlsRecords.OversizedEndsStream | src/inbound.rs:1096-1100 | a record claiming more than 18000 bytes ends the stream |
| TlsRecords.HeaderIsCutOnce | src/inbound.rs:1117-1130 | the first payload long enough to hold a reply header is cut, all others go through whole |
| TlsRecords.CutIsOnePiece | src/inbound.rs:1117-1130 | at most one piece is cut out of the payloads, where `Cut` says, and every other byte goes through in order |
| TlsRecords.HeaderIsCutExactly | src/inbound.rs:1117-1130 | the piece cut out is exactly the header in front of the reply iff the first non-empty payload holds all of it; else that payload reaches the client whole |
| TlsRecords.ReplyIsIntactExactly | src/inbound.rs:1117-1130 | the client reads exactly the reply behind its header iff the piece cut out has the header's length and the bytes before it equal those the reply starts with |
| TlsRecords.SplitHeaderReachesClient | src/inbound.rs:1117-1130 | a header split over two records that the client gets along with the reply |
| TlsRecords.SplitHeaderCanGoUnnoticed | src/inbound.rs:1117-1130 | a split header where other bytes are cut out and the client still reads the reply |
| TlsRecords.OutOfTurnRecordEndsStream | src/inbound.rs:1088-1136 | a record out of turn ends the stream with nothing of it forwarded |
| TlsRecords.Upload | src/inbound.rs:1068-1085 | the sending loop writes one record per read, sealed in place in one reused buffer, under consecutive sequence numbers |
| TlsRecords.UploadIsHeard | src/inbound.rs:1068-1085 | a peer opening those records in order hears exactly the concatenated reads |
| ClientHello.BuildTlsClientHello | src/inbound.rs:255-473 | the appends, the sealing and the splice give the specified record |
| ClientHello.SessionReads | src/inbound.rs:262-283 | the session plaintext holds its markers, the time and up to eight bytes of the short id |
| ClientHello.HelloParsesExactly | src/inbound.rs:304-473 | a parser of the TLS grammar reads back random, session id, suites and extensions iff the name has at most 65324 bytes |
| ClientHello.ExtensionsSayWhatIsMeant | src/inbound.rs:310-404 | inside the extensions name, groups, schemes, versions, protocols and key are read back |
| ClientHello.SpliceChangesOnlySid | src/inbound.rs:440-460 | the session id occupies bytes 44 to 75 and splicing changes nothing else |
| ClientHello.ServerRecoversSession | src/inbound.rs:440-460 | blanking the session id in the received record gives the associated data, so the server opens it |
| ClientHello.SendFragments | src/inbound.rs:733-786 | the fragments concatenate to the hello, or to a prefix on failure, each as long as drawn except the last |
| KeyShare.ExtractServerKeyShare | src/tls13.rs:267-315 | for every body: too short ones and overrunning lengths are invalid, 34 bytes panic, the rest is the walk of the next row |
| KeyShare.OutcomeExactly | src/tls13.rs:291-312 | for every body the walk panics iff whole extensions without a usable share are followed by a cut-off share, and finds a key iff they are followed by a usable one; the bytes passed over are those extensions' wire form |
| KeyShare.CutShareMakesItPanic | src/tls13.rs:291-305 | a body whose last extension is a bare key-share header that claims four bytes |
| KeyShare.ExtractFromHello | src/tls13.rs:267-315 | for a well-formed body the first usable X25519 share and the suite are found, or reported missing |
| DnsCache.Cache.Lookup | src/tun_device.rs:379-394 | a hit is the specified answer, given the saves so far |
| DnsCache.Cache.Complete | src/tun_device.rs:464-475 | a save happens iff question and response have two bytes; the answer passes unchanged |
| DnsCache.HitsExactly | src/tun_device.rs:379-475 | over any interleaving a query is answered from the cache iff the newest answer to the identical question is under 60 seconds old, with its body and the query's id |

## Left out

- Sockets, TUN devices, routing, the C and Java interfaces, statistics, logging, user interface, database: I/O or plumbing without logic to prove.
- `Config` parsing and display, and the text form of targets: mostly library calls; a target is its address bytes and port.
- smoltcp, h2, tokio channels and DashMap: contracts only (bounded queue, credit counter, atomic map step).
- Cryptographic internals: hypotheses, as described above; an AEAD failure while encrypting is not modelled.
- Sequence numbers of the TLS record layer at 2^64: the methods require that they have not been used up.
- The bridge's runner ending on a closed channel, and keep-alive, timeout and MTU settings of sockets: no part of the properties.
- The wall-clock side of timers: the worker's timer may fire at any time, and the DNS clock moves by arbitrary amounts.
- `UdpServer` data path of an Established session: its `try_send` to the writer task changes no session; the writer task only forwards.
- Receive errors of the UDP server's socket: the loop continues, nothing changes.
- Relay loops of the plain framed mode and opening of multiplexed streams: they compose the codecs proved here with library streams.
- `reserve_capacity` calls of the senders: only what the stream grants matters, and grants are arbitrary.
- Overflow checks of debug builds in the ClientHello lengths: sums wrap, as in a release build.
- ReplayWindow: the 64-bit mask is a number and its operators are arithmetic on it; the fixed width is explicit.
- Stego: buffers in `serialize` are filled in place, all other packets are byte sequences; aliasing of buffers is not modelled.
