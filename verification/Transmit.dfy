/** What is sent: the RTP clock, the send queue as a window, and the bytes on the wire, in every
    interleaving of put calls, the tx thread, start and stop. */
module Transmit {
  import opened Basics
  import opened TxPath
  import opened Protocol
  import DropOldest
  import Framing
  import Rtp
  import Shutdown

  /** The k-th packet of a session: its sequence number and timestamp depend on k and on the put
      calls before activation alone, its payload on the 2k-th and the next offer. */
  function SessionPacket(ssrc: uint32, n0: nat, offers: seq<Offer>, k: nat): Rtp.Packet
    requires 2 * k + 1 < |offers|
  {
    Rtp.Packet(2, false, false, false, 8, ToU16(k), ToU32(FRAME_SAMPLES * n0 + BATCH_SAMPLES * k), ssrc,
               Encoded(offers[2 * k]) + Encoded(offers[2 * k + 1]))
  }

  function PacketBytes(ssrc: uint32, n0: nat, offers: seq<Offer>, k: nat): seq<byte>
    requires 2 * k + 1 < |offers|
  {
    Rtp.Serialize(SessionPacket(ssrc, n0, offers, k))
  }

  /** The packets with the given numbers. */
  function Pick(all: seq<seq<byte>>, ids: seq<nat>): seq<seq<byte>>
    requires forall i :: 0 <= i < |ids| ==> ids[i] < |all|
  {
    seq(|ids|, i requires 0 <= i < |ids| => all[ids[i]])
  }

  /** No packet can be queued any more. */
  predicate Closed(x: Tx, snd: TxPc) {
    x.stopFlag || (snd != NoTx && !x.txActive)
  }

  /** One more if a finished packet is on its way to the queue. */
  function Pending(put: PutPc): nat {
    if put.Locking? then 1 else 0
  }

  /** The accumulator and the two clocks, until a late put call resets them. */
  ghost predicate ClockInv(x: Tx, h: History) {
    var n := |h.offers|;
    && x.sequence == ToU16(n / 2)
    && (!h.late ==> x.timestamp == ToU32(FRAME_SAMPLES * (h.n0 + n)))
    && (!h.late && n % 2 == 0 ==> x.acc == [])
    && (!h.late && n % 2 == 1 ==>
          x.acc == Encoded(h.offers[n - 1]) && x.batchTs == ToU32(FRAME_SAMPLES * (h.n0 + n - 1)))
  }

  /** A put call is past its fast path only if the gate was open when it began, and the gate never
      reopens: so once a call came late nothing is encoded or queued any more. */
  ghost predicate LateInv(x: Tx, snd: TxPc, put: PutPc, h: History) {
    && (put != Idle ==> snd != NoTx)
    && (h.late ==> Closed(x, snd) && snd != NoTx && !put.Encoding? && !put.Locking?)
    && (h.late && put.CheckStop? ==> x.stopFlag)
    && (snd == NoTx ==> h.offers == [])
  }

  /** The log holds the session's packets in order, and none is missing while the gate is open. */
  ghost predicate LogInv(x: Tx, snd: TxPc, put: PutPc, h: History) {
    var n, b := |h.offers|, |h.log.all|;
    && b + Pending(put) <= n / 2
    && (!Closed(x, snd) ==> b + Pending(put) == n / 2)
    && (put.Locking? ==> n % 2 == 0 && put.pkt == PacketBytes(x.ssrc, h.n0, h.offers, n / 2 - 1))
    && (forall k :: 0 <= k < b ==> h.log.all[k] == PacketBytes(x.ssrc, h.n0, h.offers, k))
  }

  ghost predicate WindowInv(x: Tx, h: History) {
    DropOldest.Window(h.log, x.queue, MAX_SEND_QUEUE_PACKETS)
  }

  /** The wire carries the popped packets, framed, in order, up to the one being written. */
  ghost predicate WireInv(snd: TxPc, h: History) {
    var popped := h.log.popped;
    && (forall i :: 0 <= i < |popped| ==> popped[i] < |h.log.all|)
    && (match snd
        case TxSend(pkt, sent) =>
          && popped != [] && pkt == h.log.all[popped[|popped| - 1]]
          && sent < |Framing.FrameBytes(pkt)|
          && h.wire == Framing.Stream(Pick(h.log.all, popped[..|popped| - 1])) + Framing.FrameBytes(pkt)[..sent]
        case NoTx => h.wire == [] && popped == []
        case TxCleanup => h.wire <= Framing.Stream(Pick(h.log.all, popped))
        case TxDone => h.wire <= Framing.Stream(Pick(h.log.all, popped))
        case _ => h.wire == Framing.Stream(Pick(h.log.all, popped)))
  }

  ghost predicate DataInv(x: Tx, snd: TxPc, put: PutPc, h: History) {
    ClockInv(x, h) && LateInv(x, snd, put, h) && LogInv(x, snd, put, h) && WindowInv(x, h) && WireInv(snd, h)
  }

  ghost predicate Good(s: State) {
    DataInv(s.tx, s.snd, s.put, s.h)
  }

  lemma GoodInit(s: State)
    requires Init(s)
    ensures Good(s)
  {
    EmptyGood(s.tx, s.h);
  }

  lemma EmptyGood(x: Tx, h: History)
    requires x.sequence == 0 && x.timestamp == 0 && x.acc == [] && x.queue == []
    requires h.log.all == [] && h.log.ids == [] && h.log.popped == [] && h.log.dropped == []
    requires h.offers == [] && h.n0 == 0 && !h.late && h.wire == []
    ensures DataInv(x, NoTx, Idle, h)
  {
  }

  /** What the log says depends on the gate, the pending packet and the offers alone. */
  lemma LogFrame(x: Tx, snd: TxPc, put: PutPc, h: History, x': Tx, snd': TxPc, h': History)
    requires LogInv(x, snd, put, h)
    requires x'.ssrc == x.ssrc && h'.offers == h.offers && h'.n0 == h.n0 && h'.log.all == h.log.all
    requires Closed(x, snd) ==> Closed(x', snd')
    ensures LogInv(x', snd', put, h')
  {
  }

  lemma LateFrame(x: Tx, snd: TxPc, put: PutPc, h: History, x': Tx, snd': TxPc, h': History)
    requires LateInv(x, snd, put, h)
    requires snd == NoTx <==> snd' == NoTx
    requires h'.offers == h.offers && h'.late == h.late
    requires x.stopFlag ==> x'.stopFlag
    requires Closed(x, snd) ==> Closed(x', snd')
    ensures LateInv(x', snd', put, h')
  {
  }

  lemma ClockFrame(x: Tx, h: History, x': Tx, h': History)
    requires ClockInv(x, h)
    requires x' == x.(stopFlag := x'.stopFlag, txActive := x'.txActive, queue := x'.queue)
    requires h'.offers == h.offers && h'.late == h.late && h'.n0 == h.n0
    ensures ClockInv(x', h')
  {
  }

  /** A step of the tx thread or of stop: flags, queue, log and wire may move, the clock may not. */
  lemma SenderFrame(s: State, t: State)
    requires ClockInv(s.tx, s.h) && LateInv(s.tx, s.snd, s.put, s.h) && LogInv(s.tx, s.snd, s.put, s.h)
    requires t.tx == s.tx.(stopFlag := t.tx.stopFlag, txActive := t.tx.txActive, queue := t.tx.queue)
    requires t.put == s.put && t.h == s.h.(log := t.h.log, wire := t.h.wire) && t.h.log.all == s.h.log.all
    requires s.snd == NoTx <==> t.snd == NoTx
    requires s.tx.stopFlag ==> t.tx.stopFlag
    requires Closed(s.tx, s.snd) ==> Closed(t.tx, t.snd)
    ensures ClockInv(t.tx, t.h) && LateInv(t.tx, t.snd, t.put, t.h) && LogInv(t.tx, t.snd, t.put, t.h)
  {
    ClockFrame(s.tx, s.h, t.tx, t.h);
    LateFrame(s.tx, s.snd, s.put, s.h, t.tx, t.snd, t.h);
    LogFrame(s.tx, s.snd, s.put, s.h, t.tx, t.snd, t.h);
  }

  // ---------------------------------------------------------------- the put callback

  lemma PutCallClock(s: State, f: Offer)
    requires ClockInv(s.tx, s.h) && LateInv(s.tx, s.snd, s.put, s.h) && s.put == Idle
    requires s.tx.txActive ==> s.snd != NoTx
    ensures var t := PutCallStep(s, f); ClockInv(t.tx, t.h)
  {
    hide Closed;
    TickCounts(s.h.n0 + |s.h.offers|);
  }

  lemma PutCallLate(s: State, f: Offer)
    requires LateInv(s.tx, s.snd, s.put, s.h) && s.put == Idle && (s.tx.txActive ==> s.snd != NoTx)
    ensures var t := PutCallStep(s, f); LateInv(t.tx, t.snd, t.put, t.h)
  {
    hide Tick;
  }

  lemma PutCallGood(s: State, f: Offer)
    requires Good(s) && s.put == Idle && (s.tx.txActive ==> s.snd != NoTx)
    ensures Good(PutCallStep(s, f))
  {
    hide ClockInv, LogInv, WindowInv, WireInv, Tick;
    PutCallClock(s, f);
    PutCallLate(s, f);
    SameLog(s, PutCallStep(s, f));
  }

  /** Only the clock and the call moved: the log and the wire are as before. */
  lemma SameLog(s: State, t: State)
    requires LogInv(s.tx, s.snd, s.put, s.h) && WireInv(s.snd, s.h) && WindowInv(s.tx, s.h)
    requires t.snd == s.snd && t.h.log == s.h.log && t.h.wire == s.h.wire && t.h.offers == s.h.offers
    requires s.snd == NoTx ==> s.h.offers == []
    requires s.snd != NoTx ==> t.h.n0 == s.h.n0
    requires !s.put.Locking? && !t.put.Locking?
    requires t.tx.stopFlag == s.tx.stopFlag && t.tx.txActive == s.tx.txActive
    requires t.tx.queue == s.tx.queue && t.tx.ssrc == s.tx.ssrc
    ensures LogInv(t.tx, t.snd, t.put, t.h) && WireInv(t.snd, t.h) && WindowInv(t.tx, t.h)
  {
  }

  lemma CheckStopGood(s: State, t: State)
    requires Good(s) && s.put.CheckStop? && NextPut(s) == Some(t)
    ensures Good(t)
  {
    SameLog(s, t);
  }

  lemma TickCounts(c: nat)
    ensures Tick(ToU32(FRAME_SAMPLES * c)) == ToU32(FRAME_SAMPLES * (c + 1))
  {
  }

  lemma EncodeFirst(x: Tx, h: History, f: Offer)
    requires ClockInv(x, h) && !h.late && |h.offers| % 2 == 0
    ensures ClockInv(Encode(x, f), h.(offers := h.offers + [f]))
  {
    TickCounts(h.n0 + |h.offers|);
    assert !BatchFull(Accumulate(x, f));
  }

  lemma EncodeSecond(x: Tx, h: History, f: Offer)
    requires ClockInv(x, h) && !h.late && |h.offers| % 2 == 1
    ensures ClockInv(Encode(x, f), h.(offers := h.offers + [f]))
  {
    hide Encoded;
    var n := |h.offers|;
    EncodedLength(h.offers, f);
    SecondFrame(x, f);
    TickCounts(h.n0 + n);
    SequenceCounts(n);
    EvenClock(Encode(x, f), h.(offers := h.offers + [f]));
  }

  /** A batch that holds one frame is full with the next. */
  lemma SecondFrame(x: Tx, f: Offer)
    requires |x.acc| == FRAME_SAMPLES
    ensures var y := Encode(x, f);
            y.acc == [] && y.sequence == ToU16(x.sequence + 1) && y.timestamp == Tick(x.timestamp)
  {
    hide Encoded;
    assert BatchFull(Accumulate(x, f));
  }

  lemma SequenceCounts(n: nat)
    requires n % 2 == 1
    ensures ToU16(ToU16(n / 2) + 1) == ToU16((n + 1) / 2)
  {
    assert (n + 1) / 2 == n / 2 + 1;
  }

  lemma EvenClock(x: Tx, h: History)
    requires |h.offers| % 2 == 0 && x.acc == []
    requires x.sequence == ToU16(|h.offers| / 2) && x.timestamp == ToU32(FRAME_SAMPLES * (h.n0 + |h.offers|))
    ensures ClockInv(x, h)
  {
  }

  lemma EncodedLength(offers: seq<Offer>, f: Offer)
    ensures |Encoded(f)| == FRAME_SAMPLES
    ensures offers != [] ==> |Encoded(offers[|offers| - 1])| == FRAME_SAMPLES
  {
  }

  lemma EncodeBuilds(x: Tx, h: History, f: Offer)
    requires ClockInv(x, h) && !h.late
    ensures var n := |h.offers| + 1;
            Built(x, f) == if n % 2 == 1 then None
                           else Some(PacketBytes(x.ssrc, h.n0, h.offers + [f], n / 2 - 1))
  {
    hide Rtp.Serialize, Encoded;
    var n := |h.offers|;
    EncodedLength(h.offers, f);
    if n % 2 == 1 {
      var k := n / 2;
      assert FRAME_SAMPLES * (h.n0 + n - 1) == FRAME_SAMPLES * h.n0 + BATCH_SAMPLES * k;
      assert BatchPacket(Accumulate(x, f)) == SessionPacket(x.ssrc, h.n0, h.offers + [f], k);
    }
  }

  /** A packet once determined does not depend on later offers. */
  lemma PacketStable(ssrc: uint32, n0: nat, offers: seq<Offer>, f: Offer, k: nat)
    requires 2 * k + 1 < |offers|
    ensures PacketBytes(ssrc, n0, offers + [f], k) == PacketBytes(ssrc, n0, offers, k)
  {
  }

  lemma EncodeLog(s: State, t: State)
    requires ClockInv(s.tx, s.h) && !s.h.late && s.put.Encoding? && NextPut(s) == Some(t)
    requires LogInv(s.tx, s.snd, s.put, s.h)
    ensures LogInv(t.tx, t.snd, t.put, t.h)
  {
    var f := s.put.f;
    EncodeBuilds(s.tx, s.h, f);
    Shutdown.EncodeKeepsGate(s.tx, f);
    forall k | 0 <= k < |t.h.log.all|
      ensures t.h.log.all[k] == PacketBytes(t.tx.ssrc, t.h.n0, t.h.offers, k)
    {
      PacketStable(s.tx.ssrc, s.h.n0, s.h.offers, f, k);
    }
  }

  lemma EncodingGood(s: State, t: State)
    requires Good(s) && s.put.Encoding? && NextPut(s) == Some(t)
    ensures Good(t)
  {
    var f := s.put.f;
    if |s.h.offers| % 2 == 0 { EncodeFirst(s.tx, s.h, f); } else { EncodeSecond(s.tx, s.h, f); }
    Shutdown.EncodeKeepsGate(s.tx, f);
    EncodeLog(s, t);
    WireGrowsNot(s.snd, s.h, t.h);
  }

  lemma WireGrowsNot(snd: TxPc, h: History, h': History)
    requires WireInv(snd, h) && h'.log == h.log && h'.wire == h.wire
    ensures WireInv(snd, h')
  {
  }

  lemma LockingGood(s: State, t: State)
    requires Good(s) && s.put.Locking? && NextPut(s) == Some(t)
    ensures Good(t)
  {
    hide LogInv, WindowInv, WireInv;
    LockingClock(s, t);
    if GateOpen(s.tx) {
      LockingWindow(s, t);
      WireGrows(s.snd, s.h, t.h);
      EnqueueLog(s, t);
    } else {
      LockingShut(s, t);
    }
  }

  lemma LockingClock(s: State, t: State)
    requires ClockInv(s.tx, s.h) && LateInv(s.tx, s.snd, s.put, s.h) && s.put.Locking? && NextPut(s) == Some(t)
    ensures ClockInv(t.tx, t.h) && LateInv(t.tx, t.snd, t.put, t.h)
  {
    ClockFrame(s.tx, s.h, t.tx, t.h);
  }

  lemma LockingWindow(s: State, t: State)
    requires WindowInv(s.tx, s.h) && s.put.Locking? && GateOpen(s.tx) && NextPut(s) == Some(t)
    ensures WindowInv(t.tx, t.h)
    ensures s.h.log.all <= t.h.log.all && t.h.log.popped == s.h.log.popped && t.h.wire == s.h.wire
    ensures t.snd == Notify(s.snd)
  {
    DropOldest.PushKeeps(s.h.log, s.tx.queue, s.put.pkt, MAX_SEND_QUEUE_PACKETS);
  }

  /** Behind a shut gate the packet is lost; the log must be complete only while the gate is open. */
  lemma LockingShut(s: State, t: State)
    requires Good(s) && s.put.Locking? && !GateOpen(s.tx) && NextPut(s) == Some(t)
    ensures t == s.(put := Idle)
    ensures LogInv(t.tx, t.snd, t.put, t.h) && WindowInv(t.tx, t.h) && WireInv(t.snd, t.h)
  {
  }

  lemma WireGrows(snd: TxPc, h: History, h': History)
    requires WireInv(snd, h) && h.log.all <= h'.log.all && h'.log.popped == h.log.popped && h'.wire == h.wire
    ensures WireInv(Notify(snd), h')
  {
    assert Pick(h'.log.all, h.log.popped) == Pick(h.log.all, h.log.popped);
    if snd.TxSend? {
      var front := h.log.popped[..|h.log.popped| - 1];
      assert Pick(h'.log.all, front) == Pick(h.log.all, front);
    }
  }

  lemma EnqueueLog(s: State, t: State)
    requires LogInv(s.tx, s.snd, s.put, s.h) && s.snd != NoTx
    requires s.put.Locking? && GateOpen(s.tx) && NextPut(s) == Some(t)
    ensures LogInv(t.tx, t.snd, t.put, t.h)
  {
    assert t.h.log.all == s.h.log.all + [s.put.pkt] && t.h.offers == s.h.offers && t.h.n0 == s.h.n0;
    LogExtends(s.tx, s.snd, s.put, s.h, t.tx, t.snd, t.h);
  }

  lemma LogExtends(x: Tx, snd: TxPc, put: PutPc, h: History, x': Tx, snd': TxPc, h': History)
    requires LogInv(x, snd, put, h) && put.Locking? && !Closed(x, snd)
    requires h'.log.all == h.log.all + [put.pkt] && h'.offers == h.offers && h'.n0 == h.n0 && x'.ssrc == x.ssrc
    ensures LogInv(x', snd', Idle, h')
  {
    hide PacketBytes;
    var n, b := |h.offers|, |h.log.all|;
    assert b == n / 2 - 1;
    assert forall k :: 0 <= k < b ==> h'.log.all[k] == h.log.all[k];
  }

  // ---------------------------------------------------------------- the tx thread

  lemma TakeWire(h: History, snd: TxPc, pkt: seq<byte>)
    requires WireInv(snd, h) && (snd == TxLock || snd.TxWait?)
    requires h.log.ids != [] && h.log.ids[0] < |h.log.all| && pkt == h.log.all[h.log.ids[0]]
    ensures WireInv(TxSend(pkt, 0), h.(log := DropOldest.LogPop(h.log)))
  {
    var popped := DropOldest.LogPop(h.log).popped;
    assert popped[..|popped| - 1] == h.log.popped;
  }

  lemma TakeNothing(h: History, snd: TxPc)
    requires WireInv(snd, h) && (snd == TxLock || snd.TxWait?)
    ensures WireInv(TxCleanup, h) && WireInv(TxWait(false), h)
  {
  }

  lemma TakeShape(s: State)
    requires s.snd == TxLock || s.snd.TxWait?
    ensures var t := TakeStep(s);
            && (s.snd == NoTx <==> t.snd == NoTx) && (Closed(s.tx, s.snd) ==> Closed(t.tx, t.snd))
            && t.tx == s.tx.(queue := t.tx.queue)
  {
  }

  lemma TakeGood(s: State)
    requires Good(s) && (s.snd == TxLock || s.snd.TxWait?)
    ensures Good(TakeStep(s))
  {
    hide ClockInv, LateInv, LogInv, WireInv, Closed;
    var t := TakeStep(s);
    TakeShape(s);
    SenderFrame(s, t);
    TakeNothing(s.h, s.snd);
    if TakeNext(s.tx).Got? {
      DropOldest.PopKeeps(s.h.log, s.tx.queue, MAX_SEND_QUEUE_PACKETS);
      TakeWire(s.h, s.snd, s.tx.queue[0]);
    }
  }

  lemma StreamSnoc(all: seq<seq<byte>>, ids: seq<nat>)
    requires ids != [] && forall i :: 0 <= i < |ids| ==> ids[i] < |all|
    ensures var n := |ids| - 1;
            Framing.Stream(Pick(all, ids)) == Framing.Stream(Pick(all, ids[..n])) + Framing.FrameBytes(all[ids[n]])
  {
    var n := |ids| - 1;
    assert Pick(all, ids) == Pick(all, ids[..n]) + [all[ids[n]]];
    Framing.StreamAppend(Pick(all, ids[..n]), [all[ids[n]]]);
    assert Framing.Stream([all[ids[n]]]) == Framing.FrameBytes(all[ids[n]]) + Framing.Stream([all[ids[n]]][1..]);
  }

  lemma SendWire(s: State, w: nat, t: State)
    requires WireInv(s.snd, s.h) && w > 0 && NextSend(s, w) == Some(t)
    ensures WireInv(t.snd, t.h)
  {
    hide Framing.FrameBytes, Framing.Stream, Pick;
    var bytes, popped := Framing.FrameBytes(s.snd.pkt), s.h.log.popped;
    StreamSnoc(s.h.log.all, popped);
    SlicesJoin(Framing.Stream(Pick(s.h.log.all, popped[..|popped| - 1])), bytes, s.snd.sent, s.snd.sent + w);
  }

  lemma SlicesJoin(front: seq<byte>, bytes: seq<byte>, i: nat, j: nat)
    requires i <= j <= |bytes|
    ensures front + bytes[..i] + bytes[i..j] == front + bytes[..j]
    ensures j == |bytes| ==> bytes[..j] == bytes
  {
  }

  lemma SendGood(s: State, w: nat, t: State)
    requires Good(s) && w > 0 && NextSend(s, w) == Some(t)
    ensures Good(t)
  {
    SendWire(s, w, t);
    SenderFrame(s, t);
  }

  /** Giving up a packet half written leaves a prefix of the stream on the wire. */
  lemma SendFailWire(h: History, snd: TxPc)
    requires WireInv(snd, h) && snd.TxSend?
    ensures WireInv(TxCleanup, h)
  {
    StreamSnoc(h.log.all, h.log.popped);
  }

  lemma SendFailGood(s: State)
    requires Good(s) && s.snd.TxSend?
    ensures Good(s.(snd := TxCleanup))
  {
    SendFailWire(s.h, s.snd);
    SenderFrame(s, s.(snd := TxCleanup));
  }

  lemma PollGood(s: State, snd: TxPc)
    requires Good(s) && s.snd == TxTop && (snd == TxCleanup || snd == TxLock)
    ensures Good(s.(snd := snd))
  {
    SenderFrame(s, s.(snd := snd));
  }

  /** Emptying the queue for good: the stop flag is up or the tx thread is finishing. */
  lemma QuenchGood(s: State, snd: TxPc)
    requires Good(s)
    requires (s.tx.stopFlag && snd == Notify(s.snd)) || (s.snd == TxCleanup && snd == TxDone)
    ensures Good(Quenched(s).(snd := snd))
  {
    hide ClockInv, LateInv, LogInv, WireInv;
    var t := Quenched(s).(snd := snd);
    DropOldest.ClearKeeps(s.h.log, s.tx.queue, MAX_SEND_QUEUE_PACKETS);
    SenderFrame(s, t);
    QuenchWire(s.h, s.snd, snd);
  }

  lemma QuenchWire(h: History, snd: TxPc, snd': TxPc)
    requires WireInv(snd, h) && (snd' == Notify(snd) || (snd == TxCleanup && snd' == TxDone))
    ensures WireInv(snd', h.(log := DropOldest.LogClear(h.log)))
  {
    hide Framing.Stream, Framing.FrameBytes, Pick;
  }

  lemma ActivateGood(s: State)
    requires Good(s) && (s.snd == NoTx || s.tx.stopFlag)
    ensures Good(StartTxSection(s))
  {
    assert s.snd == NoTx ==> Framing.Stream(Pick(s.h.log.all, s.h.log.popped)) == [];
  }

  lemma FlagGood(s: State)
    requires Good(s)
    ensures DataInv(s.tx.(stopFlag := true), s.snd, s.put, s.h)
  {
    SenderFrame(s, s.(tx := s.tx.(stopFlag := true)));
  }

  // ---------------------------------------------------------------- every step

  lemma OwnerGood(s: State, t: State)
    requires Shutdown.StartInv(s) && Good(s) && NextMain(s) == Some(t)
    ensures Good(t)
  {
    match s.main
    case StartTx => StartTxGood(s, t);
    case SetFlag => FlagGood(s);
    case QuenchQueue => QueueGood(s, t);
    case _ => OtherGood(s, t);
  }

  lemma StartTxGood(s: State, t: State)
    requires Shutdown.StartInv(s) && Good(s) && s.main == StartTx && NextMain(s) == Some(t)
    ensures Good(t)
  {
    ActivateGood(s);
  }

  lemma QueueGood(s: State, t: State)
    requires Shutdown.StartInv(s) && Good(s) && s.main == QuenchQueue && NextMain(s) == Some(t)
    ensures Good(t)
  {
    QuenchGood(s, Notify(s.snd));
  }

  lemma OtherGood(s: State, t: State)
    requires s.main != StartTx && s.main != SetFlag && s.main != QuenchQueue
    requires Good(s) && NextMain(s) == Some(t)
    ensures Good(t)
  {
    OtherFrame(s, t);
    hide NextMain, ClockInv, LateInv, LogInv, WindowInv, WireInv;
  }

  lemma OtherFrame(s: State, t: State)
    requires s.main != StartTx && s.main != SetFlag && s.main != QuenchQueue && NextMain(s) == Some(t)
    ensures t.tx == s.tx && t.snd == s.snd && t.put == s.put && t.h == s.h
  {
  }

  lemma AcceptGood(s: State, t: State)
    requires Shutdown.StartInv(s) && Good(s) && NextAccept(s) == Some(t)
    ensures Good(t)
  {
    if s.accept == AccStartTx {
      ActivateGood(s);
    }
  }

  lemma PutGood(s: State, t: State)
    requires Good(s) && NextPut(s) == Some(t)
    ensures Good(t)
  {
    match s.put
    case CheckStop(_) => CheckStopGood(s, t);
    case Encoding(_) => EncodingGood(s, t);
    case Locking(_) => LockingGood(s, t);
  }

  lemma RecvGood(s: State, n: nat, value: nat, t: State)
    requires Good(s) && NextRecv(s, n, value) == Some(t)
    ensures Good(t)
  {
    Shutdown.RecvShape(s, n, value, t);
  }

  lemma StepGood(s: State, a: Action, t: State)
    requires Shutdown.StartInv(s) && Shutdown.GateInv(s) && Good(s) && Next(s, a) == Some(t)
    ensures Good(t)
  {
    match a
    case MainStep => OwnerGood(s, t);
    case AcceptStep => AcceptGood(s, t);
    case RecvOk(n, value) => RecvGood(s, n, value, t);
    case TxPoll => PollGood(s, t.snd);
    case TxTake => TakeGood(s);
    case SendOk(w) => SendGood(s, w, t);
    case SendFail => SendFailGood(s);
    case TxFinish => QuenchGood(s, TxDone);
    case PutCall(f) => PutCallGood(s, f);
    case PutStep => PutGood(s, t);
    case _ =>
  }

  lemma ThreadParts(states: seq<State>, acts: seq<Action>, i: nat)
    requires Run(states, acts) && i < |states|
    ensures Shutdown.StartInv(states[i]) && Shutdown.GateInv(states[i])
  {
    Shutdown.ThreadInvAlways(states, acts, i);
  }

  lemma GoodAlong(states: seq<State>, acts: seq<Action>, k: nat)
    requires Run(states, acts) && k < |acts|
    ensures Good(states[k]) ==> Good(states[k + 1])
  {
    if Good(states[k]) {
      ThreadParts(states, acts, k);
      StepGood(states[k], acts[k], states[k + 1]);
    }
  }

  lemma GoodAlways(states: seq<State>, acts: seq<Action>, i: nat)
    requires Run(states, acts) && i < |states|
    ensures Good(states[i])
  {
    GoodInit(states[0]);
    forall k | 0 <= k < i && Good(states[k])
      ensures Good(states[k + 1])
    {
      GoodAlong(states, acts, k);
    }
    Shutdown.Persists(s => Good(s), states, 0, i);
  }

  lemma ReachableGood(s: State)
    requires Reachable(s)
    ensures Good(s)
  {
    var states, acts :| Run(states, acts) && states[|states| - 1] == s;
    GoodAlways(states, acts, |states| - 1);
  }

  // ---------------------------------------------------------------- main results

  /** The RTP clock: in every interleaving, the k-th packet ever queued parses to sequence number
      k mod 2^16 and timestamp 160*n0 + 320*k mod 2^32, n0 counting the put calls before activation. */
  lemma RtpClock(s: State, k: nat)
    requires Reachable(s) && k < |s.h.log.all|
    ensures var p := Rtp.Parse(s.h.log.all[k]);
            && p.Some? && p.value.sequence == k % 0x1_0000
            && p.value.timestamp == (160 * s.h.n0 + 320 * k) % 0x1_0000_0000
  {
    hide Rtp.Parse, PacketBytes, Encoded;
    ReachableGood(s);
    SessionParses(s.tx.ssrc, s.h.n0, s.h.offers, k);
  }

  /** All of the k-th packet: A-law, no flags, the participant's SSRC, and the codes of offers 2k and 2k + 1. */
  lemma PacketContent(s: State, k: nat) returns (payload: seq<byte>)
    requires Reachable(s) && k < |s.h.log.all|
    ensures 2 * k + 1 < |s.h.offers|
    ensures Rtp.Parse(s.h.log.all[k]) ==
            Some(Rtp.Packet(2, false, false, false, 8, k % 0x1_0000, (160 * s.h.n0 + 320 * k) % 0x1_0000_0000,
                            s.tx.ssrc, payload))
    ensures |payload| == 320
    ensures EncodesFrame(payload[..160], s.h.offers[2 * k]) && EncodesFrame(payload[160..], s.h.offers[2 * k + 1])
  {
    hide Rtp.Parse, PacketBytes, Encoded, EncodesFrame;
    ReachableGood(s);
    SessionParses(s.tx.ssrc, s.h.n0, s.h.offers, k);
    var f, g := s.h.offers[2 * k], s.h.offers[2 * k + 1];
    payload := Encoded(f) + Encoded(g);
    assert payload[..160] == Encoded(f) && payload[160..] == Encoded(g);
    EncodedSamples(f);
    EncodedSamples(g);
  }

  lemma SessionParses(ssrc: uint32, n0: nat, offers: seq<Offer>, k: nat)
    requires 2 * k + 1 < |offers|
    ensures Rtp.Parse(PacketBytes(ssrc, n0, offers, k)) == Some(SessionPacket(ssrc, n0, offers, k))
    ensures |PacketBytes(ssrc, n0, offers, k)| == PACKET_BYTES
  {
    Rtp.RoundTripExactly(SessionPacket(ssrc, n0, offers, k));
  }

  /** Whatever was dropped between them, two packets differ by 320 timestamp units per sequence step. */
  lemma TimestampGap(s: State, j: nat, k: nat)
    requires Reachable(s) && j <= k < |s.h.log.all|
    ensures var p, q := Rtp.Parse(s.h.log.all[j]), Rtp.Parse(s.h.log.all[k]);
            && p.Some? && q.Some?
            && (q.value.timestamp - p.value.timestamp - 320 * (k - j)) % 0x1_0000_0000 == 0
            && (q.value.sequence - p.value.sequence - (k - j)) % 0x1_0000 == 0
  {
    hide Rtp.Parse, Reachable;
    RtpClock(s, j);
    RtpClock(s, k);
    Gap32(FRAME_SAMPLES * s.h.n0 + BATCH_SAMPLES * j, FRAME_SAMPLES * s.h.n0 + BATCH_SAMPLES * k);
    Gap16(j, k);
  }

  lemma Gap32(a: nat, b: nat)
    ensures (b % 0x1_0000_0000 - a % 0x1_0000_0000 - (b - a)) % 0x1_0000_0000 == 0
  {
    assert b % 0x1_0000_0000 - a % 0x1_0000_0000 - (b - a) == 0x1_0000_0000 * (a / 0x1_0000_0000 - b / 0x1_0000_0000);
  }

  lemma Gap16(a: nat, b: nat)
    ensures (b % 0x1_0000 - a % 0x1_0000 - (b - a)) % 0x1_0000 == 0
  {
    assert b % 0x1_0000 - a % 0x1_0000 - (b - a) == 0x1_0000 * (a / 0x1_0000 - b / 0x1_0000);
  }

  /** The send queue as a sliding window: of the packets ever queued, numbered in order, the queue
      holds exactly the last ones, at most 25; each earlier one was popped or dropped, once; packets
      are popped, and dropped, in increasing order. */
  lemma SendQueueWindow(s: State)
    requires Reachable(s)
    ensures var l, q, b := s.h.log, s.tx.queue, |s.h.log.all|;
            && |q| <= 25 && |q| <= b && q == l.all[b - |q|..]
            && DropOldest.Increasing(l.popped) && DropOldest.Increasing(l.dropped)
            && (forall k :: 0 <= k < b - |q| ==> (k in l.popped <==> k !in l.dropped))
            && (forall k :: k in l.popped || k in l.dropped ==> k < b - |q|)
  {
    ReachableGood(s);
  }
}
