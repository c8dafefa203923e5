# A verified model of the audio meeting server

The server mixes telephone audio. Each participant is a TCP connection that carries G.711 A-law frames in
RTP packets behind a two-byte length prefix. A bridge thread hands every participant a mixed frame each
20 ms and takes one from it. This project models one participant's whole audio path and its threads, the
port pool, and the meetings above them, and proves what they guarantee over every run.

How the parts fit together:

- `Basics`, `G711`, `Rtp`, `Framing`, `Sockets`: the byte formats and the loops over sockets.
- `DropOldest`: the bounded queue that drops its oldest element, with its history. The send queue
  (25 packets) and the jitter buffer (50 frames) are both instances.
- `TxPath`, `RxPath`: each locked or thread-local section of the participant's code as a function on the
  state it touches.
- `ParticipantClass`: the same sections as methods on a class with the source's fields, proved to compute
  those functions.
- `Protocol`: the state machine. The owner (start, stop), the accept, rx and tx threads and the put
  callback take turns in any order. A section under `queue_mutex_` is one step; each read or write of a
  flag outside the lock, each socket call and each join is another. The steps on the transmit state are
  the `TxPath` functions.
- `Startup`: that the threads a participant needs are spawned and stay.
- `Shutdown`, `Transmit`: invariants of every run, and the theorems about stop, wakeups, the gate, the RTP
  clock, the send queue and the wire.
- `EndToEnd`: the composition, from frames offered at one participant to frames pushed at another.
- `Delivery`: the same in terms of the calls of `on_put_frame`, and that every session can be had.
- `Ports`, `Meetings`, `Server`, `Manager`: the allocator, the full mesh, port ownership over runs of API
  handlers, and the classes that carry them out.

What the model found:

- `encodeSample` sets bit 0x80 for negative samples and `decodeSample` reads it as positive, so every hop
  flips the sign of the signal. The magnitude bound holds for every sample but -32768, whose 16-bit
  negation wraps.
- `serialize` writes the padding and extension flags but not the bytes they announce; `RoundTripExactly`
  says which packets survive.
- One `stop` can return while a just accepted socket is still open (`LateAccept`). It closes every socket in
  every run exactly if, when it is called, the accept thread was never started, has stored its socket, or is
  over (`StopClosesAll`). The field keeps the open one and the destructor's second `stop` closes it
  (`SocketsClosed`).
- The books of the port pool balance over every run exactly when the configured range lies within 1 to
  65535, which start-up does not check (`ConservationNeedsRange`), and creating a meeting under a colliding
  id loses the old meeting's ports (`CreateConserves`, `CollisionHappens`).

Assumptions: after `shutdown` or `close` a call on that socket fails and its number is not reused; memory is
sequentially consistent; the bridge gives out free slots, accepts connects and drops a slot's connections on
removal; API handlers run one at a time. Outcomes of the outside world are parameters: what each recv or send
returns, which ports can be bound, whether a participant starts, which slot the bridge picks, the SSRC and
the meeting id.

## Model

| member | source | states |
|---|---|---|
| `G711.Encode` | src/g711.h:30-58 | the encoder with its table search computes the loop-free segment and mantissa definition |
| `G711.QuantisationBound` | src/g711.h:9-58 | decode after encode keeps the magnitude within half a quantisation step and flips the sign, for a sample if and only if it is not -32768 |
| `G711.SampleCode` | src/g711.h:9-58 | every sample but -32768: its byte holds the sign, segment and interval that contain its clipped magnitude, even bits toggled, and a hop gives the middle of the interval with the opposite sign |
| `G711.SmallestCode` | src/g711.h:30-58 | -32768 is coded as 0xD5 and comes back as 8 |
| `G711.HopHeard` | src/g711.h:9-58 | a hop flips the sign and changes the magnitude by at most 8 or a thirty-second part |
| `G711.XorBits` | src/g711.h:12 | the exclusive or of the model acts on each bit by itself |
| `G711.EncodeDecode` | src/g711.h:9-58 | encoding any decoded byte gives the byte with its sign bit toggled |
| `G711.NoGenerationalLoss` | src/g711.h:9-58 | n hops, for every n from 1, equal the first hop up to the sign (-1)^(n-1) |
| `G711.DecodeBuffer` | src/g711.h:61-67 | exactly the first `count` cells become the decoded samples, the rest stays |
| `G711.EncodeBuffer` | src/g711.h:69-75 | exactly the first `count` cells become the encoded samples, the rest stays |
| `G711.BufferHop` | src/g711.h:61-75 | a buffer of any length hops sample by sample, each within the bound unless it is -32768 |
| `Rtp.ParserExact` | src/rtp_packet.cpp:38-80 | a byte string parses to a packet if and only if the RTP layout grammar generates that string for that packet |
| `Rtp.ParserComplete` | src/rtp_packet.cpp:38-80 | header, any CSRC list, any extension block, payload and counted padding put together parse back to the packet |
| `Rtp.ParserSound` | src/rtp_packet.cpp:38-80 | every accepted string is such a composition, with the layout read off it |
| `Rtp.PayloadIsSlice` | src/rtp_packet.cpp:60-79 | the accepted payload is data[h..len-pad] with 12 <= h <= len-pad <= len |
| `Rtp.RoundTripExactly` | src/rtp_packet.cpp:3-80 | parse(serialize(p)) gives p if and only if version 2, type below 128, no extension flag, and with the padding flag an empty payload or a last byte of 0 |
| `Rtp.Normalisation` | src/rtp_packet.cpp:3-80 | any accepted packet with the two flags cleared survives serialize and parse |
| `Rtp.WireLayout` | src/rtp_packet.cpp:3-36 | each of the twelve header bytes in terms of the fields, and the payload behind them |
| `Rtp.ParserReads` | src/rtp_packet.cpp:38-80 | exactly when a byte string is accepted, in terms of its bytes, and the value of every field then |
| `Rtp.RtpPacket.SerializePacket` | src/rtp_packet.cpp:3-36 | pushing the bytes one by one builds the header and payload |
| `Rtp.RtpPacket.ParseBytes` | src/rtp_packet.cpp:38-80 | true exactly on accepted strings, storing the parsed packet; on failure the stored fields are given and the payload is untouched |
| `Framing.FramingRoundTrip` | src/participant.cpp:470-478 | deframing the framed stream of a list gives it back if and only if every packet has 1 to 65535 bytes |
| `Framing.DeframeStream` | src/participant.cpp:360-371 | zero-length packets are skipped and nothing else is lost |
| `Framing.PrefixBytes` | src/participant.cpp:470-478 | the frame of a packet is its length, high byte first, and the packet |
| `Framing.DeframeHead` | src/participant.cpp:360-375 | the first two bytes, high byte first, say how long the first packet is |
| `Framing.CutStream` | src/participant.cpp:358-373 | a stream cut at any byte gives exactly the packets that end before the cut |
| `Sockets.ReadExact` | src/participant.cpp:487-498 | for every pattern of short reads: all n bytes of the stream in order, or false with fewer consumed; every call made succeeded but the last, which failed or met the end exactly if it returns false |
| `Sockets.WriteExact` | src/participant.cpp:500-514 | for every pattern of short writes: all bytes in order, or false after a proper prefix; every call made succeeded but the last, which failed exactly if it returns false |
| `Sockets.SendFramed` | src/participant.cpp:470-478 | a packet goes out as its frame, or after an error a proper prefix of it does |
| `RxPath.RecutRefinesChunks` | src/participant.cpp:381-432 | the frames from any list of payloads are the 160-byte pieces of their concatenation, and the carry-over is the remainder |
| `RxPath.FrameAt` | src/participant.cpp:402-408 | the i-th frame is the decoded i-th piece |
| `RxPath.FrameSamples` | src/participant.cpp:402-408 | sample j of frame i is byte 160i + j, decoded |
| `RxPath.AcceptedExactly` | src/participant.cpp:377-379 | of any list of packets exactly those that parse are played, with their payloads, in order |
| `RxPath.OnePacket` | src/participant.cpp:377-432 | a packet that parses plays the pieces of carry-over plus payload; one that does not changes nothing |
| `RxPath.AllPacketsPlay` | src/participant.cpp:377-432 | if all packets parse, the frames are the pieces of all payloads strung together |
| `RxPath.FramesFit` | src/participant.cpp:381-408 | a packet that parses completes, with the carry-over, fewer frames than its bytes and one frame more hold: the bound the protocol's rx steps use |
| `RxPath.PushAllNewest` | src/participant.cpp:404-416 | pushes with no pull between them leave the newest 50 of the frames queued before and pushed since |
| `RxPath.JitterRuns` | src/participant.cpp:225-252 | over every interleaving of pushes and pulls: the buffer is the window of the newest frames, at most 50; each frame is delivered once, dropped once or queued; deliveries are in order and among the newest 50; a frame is dropped only when 50 newer ones follow; 160 zeros are played exactly when the buffer is empty |
| `TxPath.PutEffects` | src/participant.cpp:255-324 | what one put call does in each of its cases: the clock, the half batch with the codes of its samples, and the parsed packet queued, the oldest of 25 dropped |
| `ParticipantClass.Participant.OnGetFrame` | src/participant.cpp:225-252 | pops and outputs the oldest frame, or zeros if there is none; moves the frame's 64-bit timestamp on by 160 and sets its size and type |
| `ParticipantClass.Participant.PushFrame` | src/participant.cpp:410-415 | stores one frame, dropping the oldest at 50 |
| `ParticipantClass.Participant.AcceptPayload` | src/participant.cpp:381-432 | the in-place path and the append path both push the pieces of carry-over plus payload and keep the rest |
| `ParticipantClass.Participant.AcceptPacket` | src/participant.cpp:377-432 | one packet extends the pushed frames, the carry-over and the jitter buffer; one that does not parse changes no audio state |
| `ParticipantClass.Participant.ReadPacket` | src/participant.cpp:360-375 | the two reads of one round take exactly the next packet of the stream |
| `ParticipantClass.Participant.RxThread` | src/participant.cpp:356-434 | for every chunking the packets handled, with their frames, carry-over and effect on the jitter buffer, are exactly the whole ones among the bytes received; it goes on until a poll reads true, a call fails or the stream ends |
| `ParticipantClass.Participant.EncodeFrame` | src/participant.cpp:274-310 | appends the encoded frame or encoded silence, keeps both clocks, and builds the packet of a full batch |
| `ParticipantClass.Participant.EnqueuePacket` | src/participant.cpp:315-322 | queues behind an open gate, dropping the oldest at 25, and does nothing behind a closed one |
| `ParticipantClass.Participant.OnPutFrame` | src/participant.cpp:255-324 | the whole callback run alone, that it signals exactly when it queues a packet, and that it leaves the receive side alone |
| `ParticipantClass.Participant.TakePacket` | src/participant.cpp:457-464 | quits on the flag, blocks on an empty queue, else pops the front |
| `ParticipantClass.Participant.SendRound` | src/participant.cpp:455-478 | one round of the tx thread: the popped packet goes out framed, or after an error a proper prefix of it does |
| `ParticipantClass.Participant.ActivateTx` | src/participant.cpp:436-443 | opens the gate unless stop has begun |
| `Protocol.PutRunsAlone` | src/participant.cpp:255-324 | without interference the steps of a put call add up to `on_put_frame` |
| `Startup.StartOpens` | src/participant.cpp:51-164 | a start that succeeds owns a listening socket unless passive and a connected one unless active |
| `Startup.FailedStartCloses` | src/participant.cpp:51-164 | a start that fails leaves no socket open and spawns no thread |
| `Startup.ThreadsSpawned` | src/participant.cpp:79-164 | every thread a successful start calls for is there: accept, rx and tx, mode by mode, also those the accept thread spawns |
| `Startup.ThreadsStay` | src/participant.cpp:356-478 | before the stop flag is up, no thread is over unless a call on its socket failed |
| `Shutdown.ThreadInvAlways` | src/participant.cpp:166-203 | who has spawned, joined, opened and shut what, and the gate, in every state of every run |
| `Shutdown.StopCompletes` | src/participant.cpp:166-203 | from any reachable state with the flag up, in every interleaving and mode, the owner and the threads take at most Rank more steps, and where they cannot go on by themselves stop has returned and no thread is left |
| `Shutdown.NeverStuck` | src/participant.cpp:197-202 | inside stop some step that needs no peer is always possible |
| `Shutdown.NothingBlocks` | src/participant.cpp:178-195 | past the fd stage a thread that waits does so on a socket that was shut down, or has been signalled |
| `Shutdown.NoThreadAfterStop` | src/participant.cpp:197-202 | after a completed stop no thread is live, then or later |
| `Shutdown.NoLostWakeup` | src/participant.cpp:455-463 | a tx thread asleep with no signal pending has an empty queue, and the flag is down or stop's locked section is still to run |
| `Shutdown.QuietAfterShutdown` | src/participant.cpp:168-176 | inactive means an empty queue; after stop's locked section or the tx thread's cleanup the queue stays empty for ever |
| `Shutdown.StopClosesAll` | src/participant.cpp:166-203 | a call of stop closes every socket in every run if and only if, as it begins, the accept thread neither waits in accept nor holds a socket not yet stored; in any mode, for a first or later call |
| `Shutdown.CallClosesAll` | src/participant.cpp:166-203 | the same condition, judged on the state before the call |
| `Shutdown.SocketsClosed` | src/participant.cpp:178-195 | after stop only an accepted socket still held by a field can be open, and none after a second stop |
| `Shutdown.LateAccept` | src/participant.cpp:333-354 | in active and in split mode, a reachable state in which one stop has returned and an accepted socket is still open |
| `Transmit.GoodAlways` | src/participant.cpp:255-324 | clock, log, window and wire invariants in every state of every run |
| `Transmit.RtpClock` | src/participant.cpp:295-322 | the k-th packet ever queued parses to sequence k mod 2^16 and timestamp 160*n0+320*k mod 2^32, n0 counting the put calls before activation |
| `Transmit.PacketContent` | src/participant.cpp:274-313 | every field of the k-th packet queued, and its 320 payload bytes as the codes of the samples of offers 2k and 2k + 1 |
| `Transmit.TimestampGap` | src/participant.cpp:295-322 | between any two queued packets the timestamp moves 320 per sequence step, whatever was dropped |
| `Transmit.SendQueueWindow` | src/participant.cpp:315-322 | the queue is the block of the last packets queued, at most 25; each earlier one was popped or dropped, once, in increasing order |
| `Delivery.DropsOnlyWhenFull` | src/participant.cpp:315-322 | while the gate is open a packet was dropped only if 25 newer ones were queued behind it, so among up to 25 packets none |
| `Delivery.NothingQueuedAfterFlag` | src/participant.cpp:315-322 | once the stop flag is up no packet is queued, whatever put call is under way |
| `Delivery.OffersAreCalls` | src/participant.cpp:255-324 | in every interleaving the frames encoded are those of all put calls since the tx thread was started, and n0 counts the calls before |
| `Delivery.CallsAreHeard` | src/participant.cpp:255-478 | end to end in terms of calls and samples: after a lossless session the i-th frame received is what is heard of the i-th put call |
| `Delivery.SessionHappens` | src/participant.cpp:53-478 | in every mode, for every list of frames and any number of earlier calls, a run offers exactly these, drops none and is heard in full |
| `EndToEnd.EndToEnd` | src/participant.cpp:255-478 | in every reachable state, whatever was dropped, a receiver of any `cut` bytes of the wire has pushed exactly the quantised frame pairs of the first cut/334 packets popped, 334 being the bytes of one framed packet |
| `EndToEnd.EndToEndLossless` | src/participant.cpp:255-478 | with nothing dropped and the queue drained: exactly the quantised first 2*floor(n/2) of the n frames offered, in order, non-audio ones as zeros |
| `EndToEnd.PcmEndToEnd` | src/participant.cpp:255-478 | the same in samples: each frame received is its offer with signs flipped and magnitudes off by at most 8 or a thirty-second part, or 160 times -8 if it was no full audio frame |
| `EndToEnd.PcmLossless` | src/participant.cpp:255-478 | the lossless case in samples: the i-th frame received is what is heard of the i-th offer |
| `EndToEnd.BridgeHears` | src/participant.cpp:225-478 | for every cut of the wire and every timing of the far bridge's pulls: it gets zeros or the samples of frames offered at this end, as heard, in the order offered, none twice |
| `EndToEnd.BridgeHearsAll` | src/participant.cpp:225-478 | after a lossless session, with no frame dropped and all pulled, the far bridge has heard exactly the quantised first 2*floor(n/2) of the n frames offered |
| `EndToEnd.Deliver` | src/participant.cpp:356-434 | the receiving code, run on the wire in any pieces, pushes those frames and is left with the newest 50 of them in its buffer |
| `Ports.NextFit` | src/port_allocator.cpp:29-43 | allocate gives the free bindable port nearest in cyclic order, -1 exactly when there is none, and keeps `next_` in range |
| `Ports.PortGiven` | src/port_allocator.cpp:29-43 | in terms of the fields: the port given was unused and bindable, exactly its mark is set, the next scan starts behind it; none is given exactly when there is none |
| `Ports.Fairness` | src/port_allocator.cpp:29-51 | while a free and bindable port is not given out, fewer than `count_` allocate calls fit, whatever else is called |
| `Ports.AllocateCloser` | src/port_allocator.cpp:29-43 | an allocate that picks another port strictly shortens the cyclic distance to a waiting one |
| `Ports.PortAllocator.AllocatePort` | src/port_allocator.cpp:29-43 | the scan loop computes the next-fit allocation |
| `Ports.PortAllocator.ReleasePort` | src/port_allocator.cpp:45-51 | clears the port's mark, and ignores ports outside the range |
| `Meetings.MeshAlways` | src/meeting.cpp:74-300 | after every sequence of adds, failed adds, removes and stops: distinct slots, connections exactly all ordered pairs of distinct participant slots, at most 31 participants, and none after a stop |
| `Meetings.AddKeepsMesh` | src/meeting.cpp:74-114 | an add, successful or not, keeps the mesh |
| `Meetings.RemoveKeepsMesh` | src/meeting.cpp:249-271 | so does a remove |
| `Meetings.Meeting.AddParticipant` | src/meeting.cpp:74-197 | the add with its connect loop, and which adds fail unchanged |
| `Meetings.Meeting.RemoveParticipant` | src/meeting.cpp:249-271 | the participant, its slot and its connections go; its port or -1 comes back |
| `Meetings.Meeting.ParticipantPorts` | src/meeting.cpp:218-227 | lists exactly the nonzero ports held |
| `Meetings.Meeting.Stop` | src/meeting.cpp:273-300 | leaves no participant, no bridge entry and no bridge |
| `Server.AddEffect` | src/server.cpp:99-117 | adding with a port succeeds exactly if the meeting is there, a port is unused and bindable, and the room takes the participant; what then changes, and that otherwise nothing does |
| `Server.AddPassiveEffect` | src/meeting_manager.cpp:83-94 | adding without a port, on the same terms |
| `Server.DeleteEffect` | src/server.cpp:268-287 | exactly the participant, its slot and connections go and exactly its port is freed |
| `Server.DestroyEffect` | src/server.cpp:142-152 | exactly the meeting goes and exactly its nonzero ports are freed |
| `Server.CreateEffect` | src/meeting_manager.cpp:24-40 | a live empty meeting, and nothing else changes |
| `Server.PortsConserved` | src/server.cpp:99-237 | over every run of handlers, failures included, the ports in use are exactly the nonzero ports of live participants, each held once, and every meeting has its bridge and is a full mesh |
| `Server.ConservationNeedsRange` | src/main.cpp:43-50 | conservation holds over every run if and only if the range is empty or within 1 to 65535 |
| `Server.InsaneRangeLoses` | src/server.cpp:99-117 | for any other range, two requests after which a used port is held by nobody |
| `Server.CollisionHappens` | src/meeting_manager.cpp:24-40 | in every range with a port, two requests from start-up reach a site where a colliding create loses that port |
| `Server.CreateConserves` | src/meeting_manager.cpp:24-40 | creating a meeting keeps the books if and only if the id is new or its old meeting held no port |
| `Manager.HandleAdd` | src/server.cpp:90-126 | allocate, add, release on failure: the new state and the response code |
| `Manager.HandleDelete` | src/server.cpp:268-287 | the deleted participant's port returns to the pool, with the response codes |
| `Manager.HandleDestroy` | src/server.cpp:142-152 | all ports of the meeting return to the pool |
| `Manager.MeetingManager.DestroyMeeting` | src/meeting_manager.cpp:61-81 | erases the meeting and releases every port it held |
| `Manager.MeetingManager.DeleteParticipant` | src/meeting_manager.cpp:96-109 | removes the participant and releases a nonzero port |
| `Manager.MeetingManager.AddPassiveParticipant` | src/meeting_manager.cpp:83-94 | adds a participant that holds no port |
| `Manager.MeetingManager.CreateMeeting` | src/meeting_manager.cpp:24-40 | registers an empty meeting, replacing one of the same id |

## Left out

- `start`, `startPassive`, `startSplit`, `accept_thread_func` and `stop` exist only as steps of `Protocol`, on values: threads, joins, the mutex and file descriptors have no counterpart as Dafny objects, so aliasing of the fields they write is not modelled.
- In `Protocol` the rx thread's bytes are only counted; what they contain is the subject of `RxPath`, `ParticipantClass` and `EndToEnd`.
- Real sockets and `is_port_available`: their results are parameters.
- PJMEDIA mixing, levels, clock and pools, and mute, which is one library call; a meeting whose bridge could not be created.
- Meetings.Meeting.AddParticipant: does not model an add that starts a participant on a stopped meeting, which the source would put on a null bridge; no handler makes one, as `MeetingManager` keeps only live meetings.
- HTTP routing, JSON bodies, parameter checks, and the split handler's choice between codes 2 and 5.
- Two API handlers interleaving on one meeting: the source does not keep port conservation there.
- Weak-memory effects of the relaxed flag read and of the plain fd fields.
- Random generation of the SSRC and of meeting ids.
- Logging, option parsing, library set-up, tests and scripts.
