/** PCM in at one participant, PCM out at another: the whole path of src/participant.cpp composed. */
module EndToEnd {
  import opened Basics
  import opened TxPath
  import opened Protocol
  import opened ParticipantClass
  import DropOldest
  import Framing
  import Rtp
  import G711
  import RxPath
  import Sockets
  import Transmit

  /** What becomes of one offered frame: its samples, or zeros, after one codec hop. */
  function Heard(f: Offer): RxPath.Frame {
    G711.HopAll(Samples(f))
  }

  /** What is heard of an offer: 160 samples, each its own with the opposite sign and a small error, or
      -8, the code's nearest to zero, if it was no full audio frame. */
  ghost predicate Hears(f: Offer, y: seq<int16>) {
    && |y| == 160
    && if f.audio && |f.pcm| == 160
       then forall i :: 0 <= i < 160 ==> G711.SampleHeard(f.pcm[i], y[i])
       else forall i :: 0 <= i < 160 ==> y[i] == -8
  }

  lemma OfferHeard(f: Offer)
    ensures Hears(f, Heard(f))
  {
    hide G711.Hop, G711.SampleHeard;
    forall i | 0 <= i < 160
      ensures G711.SampleHeard(Samples(f)[i], Heard(f)[i])
    {
      G711.HopHeard(Samples(f)[i]);
    }
    G711.SilenceHeard();
  }

  /** The frames of the packets with the given numbers: offers 2k and 2k+1 for each k, in order. */
  function Pairs(offers: seq<Offer>, ids: seq<nat>): (r: seq<RxPath.Frame>)
    requires InRange(offers, ids)
    ensures |r| == 2 * |ids|
  {
    if ids == [] then []
    else [Heard(offers[2 * ids[0]]), Heard(offers[2 * ids[0] + 1])] + Pairs(offers, ids[1..])
  }

  /** All offers heard, two by two. */
  function HeardAll(offers: seq<Offer>): seq<RxPath.Frame> {
    seq(|offers|, i requires 0 <= i < |offers| => Heard(offers[i]))
  }

  /** One session packet, received with nothing carried over, gives exactly its two frames. */
  lemma PacketHeard(f: Offer, g: Offer)
    ensures RxPath.Frames(Encoded(f) + Encoded(g)) == [Heard(f), Heard(g)]
    ensures RxPath.Rest(Encoded(f) + Encoded(g)) == []
  {
    var bytes := Encoded(f) + Encoded(g);
    assert bytes[..FRAME_SAMPLES] == Encoded(f) && bytes[FRAME_SAMPLES..] == Encoded(g);
    assert Encoded(g)[..FRAME_SAMPLES] == Encoded(g) && Encoded(g)[FRAME_SAMPLES..] == [];
    G711.BufferHop(Samples(f));
    G711.BufferHop(Samples(g));
    assert RxPath.Frames(Encoded(g)) == [Heard(g)] + RxPath.Frames([]);
    assert RxPath.Rest(Encoded(g)) == RxPath.Rest([]);
  }

  ghost predicate InRange(offers: seq<Offer>, ids: seq<nat>) {
    forall i :: 0 <= i < |ids| ==> 2 * ids[i] + 1 < |offers|
  }

  /** The payloads of the packets with the given numbers. */
  function Bodies(offers: seq<Offer>, ids: seq<nat>): seq<seq<byte>>
    requires InRange(offers, ids)
  {
    if ids == [] then []
    else [Encoded(offers[2 * ids[0]]) + Encoded(offers[2 * ids[0] + 1])] + Bodies(offers, ids[1..])
  }

  lemma HeadPushed(payload: seq<byte>, rest: seq<seq<byte>>)
    ensures RxPath.Pushed([], [payload] + rest) == RxPath.Frames(payload) + RxPath.Pushed(RxPath.Rest(payload), rest)
    ensures RxPath.Carried([], [payload] + rest) == RxPath.Carried(RxPath.Rest(payload), rest)
  {
    assert ([payload] + rest)[1..] == rest;
    assert [] + payload == payload;
  }

  lemma {:induction false} BodiesHeard(offers: seq<Offer>, ids: seq<nat>)
    requires InRange(offers, ids)
    ensures RxPath.Pushed([], Bodies(offers, ids)) == Pairs(offers, ids)
  {
    if ids != [] {
      BodiesHeard(offers, ids[1..]);
      PacketHeard(offers[2 * ids[0]], offers[2 * ids[0] + 1]);
      HeadPushed(Encoded(offers[2 * ids[0]]) + Encoded(offers[2 * ids[0] + 1]), Bodies(offers, ids[1..]));
    }
  }

  /** The session packets with the given numbers, as they went into the queue. */
  function Packets(ssrc: uint32, n0: nat, offers: seq<Offer>, ids: seq<nat>): (r: seq<seq<byte>>)
    requires InRange(offers, ids)
    ensures |r| == |ids|
  {
    if ids == [] then []
    else [Transmit.PacketBytes(ssrc, n0, offers, ids[0])] + Packets(ssrc, n0, offers, ids[1..])
  }

  lemma {:induction false} PacketsAccepted(ssrc: uint32, n0: nat, offers: seq<Offer>, ids: seq<nat>)
    requires InRange(offers, ids)
    ensures RxPath.Accepted(Packets(ssrc, n0, offers, ids)) == Bodies(offers, ids)
  {
    if ids != [] {
      Transmit.SessionParses(ssrc, n0, offers, ids[0]);
      PacketsAccepted(ssrc, n0, offers, ids[1..]);
    }
  }

  lemma {:induction false} PacketsSized(ssrc: uint32, n0: nat, offers: seq<Offer>, ids: seq<nat>)
    requires InRange(offers, ids)
    ensures forall i :: 0 <= i < |ids| ==> |Packets(ssrc, n0, offers, ids)[i]| == PACKET_BYTES
  {
    if ids != [] {
      Transmit.SessionParses(ssrc, n0, offers, ids[0]);
      PacketsSized(ssrc, n0, offers, ids[1..]);
    }
  }

  lemma {:induction false} PacketsPrefix(ssrc: uint32, n0: nat, offers: seq<Offer>, ids: seq<nat>, n: nat)
    requires InRange(offers, ids) && n <= |ids|
    ensures Packets(ssrc, n0, offers, ids)[..n] == Packets(ssrc, n0, offers, ids[..n])
  {
    if n > 0 {
      PacketsPrefix(ssrc, n0, offers, ids[1..], n - 1);
      assert ids[..n][1..] == ids[1..][..n - 1];
    }
  }

  lemma {:induction false} PickIsPackets(all: seq<seq<byte>>, ssrc: uint32, n0: nat, offers: seq<Offer>, ids: seq<nat>)
    requires forall k :: 0 <= k < |all| ==> 2 * k + 1 < |offers| && all[k] == Transmit.PacketBytes(ssrc, n0, offers, k)
    requires forall i :: 0 <= i < |ids| ==> ids[i] < |all|
    ensures InRange(offers, ids) && Transmit.Pick(all, ids) == Packets(ssrc, n0, offers, ids)
  {
    hide Transmit.PacketBytes, Transmit.Pick;
    PickHead(all, ids);
    if ids != [] {
      PickIsPackets(all, ssrc, n0, offers, ids[1..]);
    }
  }

  lemma PickHead(all: seq<seq<byte>>, ids: seq<nat>)
    requires forall i :: 0 <= i < |ids| ==> ids[i] < |all|
    ensures Transmit.Pick(all, ids) == if ids == [] then [] else [all[ids[0]]] + Transmit.Pick(all, ids[1..])
  {
  }

  // ---------------------------------------------------------------- the wire

  /** A session packet takes 334 bytes on the wire: 2 of prefix, 12 of RTP header and two frames of 160 each. */
  lemma {:induction false} StreamLength(pkts: seq<seq<byte>>)
    requires forall i :: 0 <= i < |pkts| ==> |pkts[i]| == PACKET_BYTES
    ensures |Framing.Stream(pkts)| == WIRE_BYTES * |pkts|
  {
    if pkts != [] {
      StreamLength(pkts[1..]);
    }
  }

  /** A cut of a stream of such packets holds one whole packet for every WIRE_BYTES bytes. */
  lemma CutCount(pkts: seq<seq<byte>>, cut: nat)
    requires forall i :: 0 <= i < |pkts| ==> |pkts[i]| == PACKET_BYTES
    requires cut <= |Framing.Stream(pkts)|
    ensures cut / WIRE_BYTES <= |pkts| && Framing.Deframe(Framing.Stream(pkts)[..cut]) == pkts[..cut / WIRE_BYTES]
  {
    hide Framing.Stream, Framing.Deframe;
    var n := Framing.CutStream(pkts, cut);
    StreamLength(pkts[..n]);
    if n < |pkts| {
      StreamLength(pkts[..n + 1]);
    } else {
      assert pkts[..n] == pkts;
    }
    WholePackets(cut, n);
  }

  lemma WholePackets(cut: nat, n: nat)
    requires WIRE_BYTES * n <= cut < WIRE_BYTES * (n + 1)
    ensures cut / WIRE_BYTES == n
  {
  }

  /** What is known of the wire in a reachable state: a cut of the framed session packets popped so far. */
  lemma WireIsCut(s: State)
    requires Reachable(s)
    ensures InRange(s.h.offers, s.h.log.popped)
    ensures var stream := Framing.Stream(Packets(s.tx.ssrc, s.h.n0, s.h.offers, s.h.log.popped));
            && s.h.wire <= stream
            && (s.snd == TxTop || s.snd == TxLock || s.snd.TxWait? ==> s.h.wire == stream)
  {
    Transmit.ReachableGood(s);
    PopsLogged(s);
    PickIsPackets(s.h.log.all, s.tx.ssrc, s.h.n0, s.h.offers, s.h.log.popped);
    WireOfPops(s.snd, s.h);
  }

  lemma PopsLogged(s: State)
    requires Transmit.Good(s)
    ensures forall i :: 0 <= i < |s.h.log.popped| ==> s.h.log.popped[i] < |s.h.log.all|
    ensures forall k :: 0 <= k < |s.h.log.all| ==>
              2 * k + 1 < |s.h.offers| && s.h.log.all[k] == Transmit.PacketBytes(s.tx.ssrc, s.h.n0, s.h.offers, k)
    ensures Transmit.WireInv(s.snd, s.h)
  {
  }

  lemma WireOfPops(snd: TxPc, h: History)
    requires Transmit.WireInv(snd, h)
    ensures var stream := Framing.Stream(Transmit.Pick(h.log.all, h.log.popped));
            h.wire <= stream && (snd == TxTop || snd == TxLock || snd.TxWait? ==> h.wire == stream)
  {
    if snd.TxSend? {
      Transmit.StreamSnoc(h.log.all, h.log.popped);
    } else if snd == NoTx {
      assert Framing.Stream(Transmit.Pick(h.log.all, h.log.popped)) == [];
    }
  }

  /** End to end, whatever was dropped: in every reachable state, a receiver that has read any `cut`
      bytes of the wire has pushed, in order, exactly the two quantised frames of each of the first
      cut/WIRE_BYTES packets taken from the queue. */
  lemma EndToEnd(s: State, cut: nat)
    requires Reachable(s) && cut <= |s.h.wire|
    ensures cut / WIRE_BYTES <= |s.h.log.popped| && InRange(s.h.offers, s.h.log.popped)
    ensures RxPath.Received(s.h.wire[..cut]) == Pairs(s.h.offers, s.h.log.popped[..cut / WIRE_BYTES])
  {
    WireIsCut(s);
    WireHeard(s.tx.ssrc, s.h.n0, s.h.offers, s.h.log.popped, s.h.wire, cut);
  }

  /** The same in samples: 334 bytes a packet, two frames each, every one its offer as heard. */
  lemma PcmEndToEnd(s: State, cut: nat)
    requires Reachable(s) && cut <= |s.h.wire|
    ensures |RxPath.Received(s.h.wire[..cut])| == 2 * (cut / 334)
    ensures PairsAsHeard(s.h.offers, s.h.log.popped, RxPath.Received(s.h.wire[..cut]))
  {
    hide Reachable, Hears, Heard, Pairs, PairsAsHeard, RxPath.Received;
    EndToEnd(s, cut);
    PairsHeard(s.h.offers, s.h.log.popped, cut / WIRE_BYTES);
  }

  /** Frames 2j and 2j + 1 are what is heard of the two offers in packet `ids[j]`. */
  ghost predicate PairsAsHeard(offers: seq<Offer>, ids: seq<nat>, frames: seq<seq<int16>>) {
    && |frames| <= 2 * |ids|
    && forall i :: 0 <= i < |frames| ==>
         2 * ids[i / 2] + i % 2 < |offers| && Hears(offers[2 * ids[i / 2] + i % 2], frames[i])
  }

  lemma PairsHeard(offers: seq<Offer>, ids: seq<nat>, n: nat)
    requires n <= |ids| && InRange(offers, ids)
    ensures PairsAsHeard(offers, ids, Pairs(offers, ids[..n]))
  {
    hide Hears, Heard, Pairs;
    forall i | 0 <= i < 2 * n
      ensures 2 * ids[i / 2] + i % 2 < |offers|
      ensures Hears(offers[2 * ids[i / 2] + i % 2], Pairs(offers, ids[..n])[i])
    {
      PairsAt(offers, ids[..n], i);
      OfferHeard(offers[2 * ids[i / 2] + i % 2]);
    }
  }

  lemma WireHeard(ssrc: uint32, n0: nat, offers: seq<Offer>, ids: seq<nat>, wire: seq<byte>, cut: nat)
    requires InRange(offers, ids) && wire <= Framing.Stream(Packets(ssrc, n0, offers, ids)) && cut <= |wire|
    ensures cut / WIRE_BYTES <= |ids|
    ensures RxPath.Received(wire[..cut]) == Pairs(offers, ids[..cut / WIRE_BYTES])
  {
    hide Packets, Pairs, Bodies, Framing.Stream, Framing.Deframe, RxPath.Accepted, RxPath.Pushed;
    var pkts := Packets(ssrc, n0, offers, ids);
    PacketsSized(ssrc, n0, offers, ids);
    CutCount(pkts, cut);
    var n := cut / WIRE_BYTES;
    assert wire[..cut] == Framing.Stream(pkts)[..cut];
    PacketsPrefix(ssrc, n0, offers, ids, n);
    PacketsAccepted(ssrc, n0, offers, ids[..n]);
    BodiesHeard(offers, ids[..n]);
  }

  lemma {:induction false} PairsAt(offers: seq<Offer>, ids: seq<nat>, i: nat)
    requires InRange(offers, ids) && i < 2 * |ids|
    ensures 2 * ids[i / 2] + i % 2 < |offers|
    ensures Pairs(offers, ids)[i] == Heard(offers[2 * ids[i / 2] + i % 2])
    decreases |ids|
  {
    hide Heard;
    if i >= 2 {
      PairsAt(offers, ids[1..], i - 2);
    }
  }

  /** All packets in order give all frames in order. */
  lemma PairsOfAll(offers: seq<Offer>, ids: seq<nat>)
    requires ids == seq(|offers| / 2, i => i) && InRange(offers, ids)
    ensures Pairs(offers, ids) == HeardAll(offers[..|offers| / 2 * 2])
  {
    hide Heard, Pairs;
    forall i | 0 <= i < 2 * |ids|
      ensures Pairs(offers, ids)[i] == Heard(offers[i])
    {
      PairsAt(offers, ids, i);
    }
  }

  /** End to end without loss: if the gate is still open, nothing was dropped, the queue is drained
      and no put call is under way, the receiver has pushed exactly the quantised first
      2*floor(n/2) of the n frames offered, in order, with non-audio frames as zeros. */
  lemma EndToEndLossless(s: State)
    requires Reachable(s) && GateOpen(s.tx) && s.put == Idle
    requires s.h.log.dropped == [] && s.tx.queue == []
    requires s.snd == TxTop || s.snd == TxLock || s.snd.TxWait?
    ensures RxPath.Received(s.h.wire) == HeardAll(s.h.offers[..|s.h.offers| / 2 * 2])
  {
    Drained(s);
    WireIsCut(s);
    AllHeard(s.tx.ssrc, s.h.n0, s.h.offers, s.h.log.popped, s.h.wire);
  }

  /** The same in samples: the i-th frame received is the i-th offer as heard. */
  lemma PcmLossless(s: State)
    requires Reachable(s) && GateOpen(s.tx) && s.put == Idle
    requires s.h.log.dropped == [] && s.tx.queue == []
    requires s.snd == TxTop || s.snd == TxLock || s.snd.TxWait?
    ensures |RxPath.Received(s.h.wire)| == |s.h.offers| / 2 * 2
    ensures forall i :: 0 <= i < |s.h.offers| / 2 * 2 ==> Hears(s.h.offers[i], RxPath.Received(s.h.wire)[i])
  {
    hide Reachable, Hears, Heard, RxPath.Received;
    EndToEndLossless(s);
    AllOffersHeard(s.h.offers);
  }

  lemma AllOffersHeard(offers: seq<Offer>)
    ensures forall i :: 0 <= i < |offers| / 2 * 2 ==> Hears(offers[i], HeardAll(offers[..|offers| / 2 * 2])[i])
  {
    hide Hears, Heard;
    forall i | 0 <= i < |offers| / 2 * 2
      ensures Hears(offers[i], HeardAll(offers[..|offers| / 2 * 2])[i])
    {
      OfferHeard(offers[i]);
    }
  }

  lemma AllHeard(ssrc: uint32, n0: nat, offers: seq<Offer>, ids: seq<nat>, wire: seq<byte>)
    requires ids == seq(|offers| / 2, i => i) && InRange(offers, ids)
    requires wire == Framing.Stream(Packets(ssrc, n0, offers, ids))
    ensures RxPath.Received(wire) == HeardAll(offers[..|offers| / 2 * 2])
  {
    hide Packets, Pairs, HeardAll, Framing.Stream, RxPath.Received;
    PacketsSized(ssrc, n0, offers, ids);
    StreamLength(Packets(ssrc, n0, offers, ids));
    assert |wire| / WIRE_BYTES == |ids|;
    WireHeard(ssrc, n0, offers, ids, wire, |wire|);
    assert wire[..|wire|] == wire && ids[..|ids|] == ids;
    PairsOfAll(offers, ids);
  }

  lemma Drained(s: State)
    requires Reachable(s) && GateOpen(s.tx) && s.put == Idle
    requires s.h.log.dropped == [] && s.tx.queue == [] && s.snd != NoTx
    ensures s.h.log.popped == seq(|s.h.offers| / 2, i => i)
  {
    Transmit.ReachableGood(s);
    assert |s.h.log.all| == |s.h.offers| / 2;
    DropOldest.AllPopped(s.h.log, s.tx.queue, MAX_SEND_QUEUE_PACKETS);
  }

  // ---------------------------------------------------------------- the far bridge

  /** The offers behind the frames with the given numbers, if packet `ids[j]` gave frames 2j and 2j + 1. */
  function Origins(ids: seq<nat>, frames: seq<nat>): seq<nat>
    requires forall i :: 0 <= i < |frames| ==> frames[i] < 2 * |ids|
  {
    seq(|frames|, i requires 0 <= i < |frames| => 2 * ids[frames[i] / 2] + frames[i] % 2)
  }

  lemma OriginsIncrease(ids: seq<nat>, frames: seq<nat>)
    requires DropOldest.Increasing(ids) && DropOldest.Increasing(frames)
    requires forall i :: 0 <= i < |frames| ==> frames[i] < 2 * |ids|
    ensures DropOldest.Increasing(Origins(ids, frames))
  {
    var at := Origins(ids, frames);
    forall i, j | 0 <= i < j < |at|
      ensures at[i] < at[j]
    {
      assert frames[i] < frames[j] && frames[i] / 2 <= frames[j] / 2;
      if frames[i] / 2 < frames[j] / 2 {
        assert ids[frames[i] / 2] < ids[frames[j] / 2];
      }
    }
  }

  /** What the far bridge plays: in every reachable state, after any part of the wire has come through
      and whatever the timing of its pulls, each pull gives zeros or a frame offered at this end after
      one codec hop, and the frames come in the order they were offered, none twice. */
  lemma BridgeHears(s: State, cut: nat, events: seq<RxPath.Event>) returns (at: seq<nat>)
    requires Reachable(s) && cut <= |s.h.wire|
    requires RxPath.PushesOf(events) <= RxPath.Received(s.h.wire[..cut])
    ensures DropOldest.Increasing(at) && forall i :: 0 <= i < |at| ==> at[i] < |s.h.offers|
    ensures RxPath.Played(RxPath.After(events).outs) == seq(|at|, i requires 0 <= i < |at| => Heard(s.h.offers[at[i]]))
    ensures forall i :: 0 <= i < |at| ==> Hears(s.h.offers[at[i]], RxPath.Played(RxPath.After(events).outs)[i])
    ensures forall o :: o in RxPath.After(events).outs && o.Quiet? ==> o.frame == seq(160, i => 0)
  {
    hide Reachable, Hears, Heard, Pairs, RxPath.After, RxPath.Played, RxPath.PushesOf, RxPath.Received;
    EndToEnd(s, cut);
    var ids := s.h.log.popped[..cut / WIRE_BYTES];
    PoppedIncrease(s);
    at := FramesHeard(s.h.offers, ids, events);
    forall i | 0 <= i < |at|
      ensures Hears(s.h.offers[at[i]], Heard(s.h.offers[at[i]]))
    {
      OfferHeard(s.h.offers[at[i]]);
    }
  }

  lemma PoppedIncrease(s: State)
    requires Reachable(s)
    ensures DropOldest.Increasing(s.h.log.popped)
  {
    Transmit.SendQueueWindow(s);
  }

  lemma FramesHeard(offers: seq<Offer>, ids: seq<nat>, events: seq<RxPath.Event>) returns (at: seq<nat>)
    requires InRange(offers, ids) && DropOldest.Increasing(ids)
    requires RxPath.PushesOf(events) <= Pairs(offers, ids)
    ensures DropOldest.Increasing(at) && forall i :: 0 <= i < |at| ==> at[i] < |offers|
    ensures RxPath.Played(RxPath.After(events).outs) == seq(|at|, i requires 0 <= i < |at| => Heard(offers[at[i]]))
    ensures forall o :: o in RxPath.After(events).outs && o.Quiet? ==> o.frame == seq(160, i => 0)
  {
    hide Heard, RxPath.After, RxPath.Played, RxPath.Delivered, Pairs;
    var h := RxPath.After(events);
    RxPath.JitterRuns(events);
    RxPath.PushesLogged(events);
    RxPath.PlayedDelivered(h.outs, h.log.all);
    var frames := RxPath.Delivered(h.outs);
    forall i | 0 <= i < |frames|
      ensures frames[i] < 2 * |ids| && 2 * ids[frames[i] / 2] + frames[i] % 2 < |offers|
      ensures h.log.all[frames[i]] == Heard(offers[2 * ids[frames[i] / 2] + frames[i] % 2])
    {
      PairsAt(offers, ids, frames[i]);
    }
    at := Origins(ids, frames);
    OriginsIncrease(ids, frames);
  }

  /** And when it hears everything: after a session without loss, once every frame was pushed, none
      dropped and all pulled, it has heard the quantised first 2*floor(n/2) of the n frames offered. */
  lemma BridgeHearsAll(s: State, events: seq<RxPath.Event>)
    requires Reachable(s) && GateOpen(s.tx) && s.put == Idle
    requires s.h.log.dropped == [] && s.tx.queue == []
    requires s.snd == TxTop || s.snd == TxLock || s.snd.TxWait?
    requires RxPath.PushesOf(events) == RxPath.Received(s.h.wire)
    requires RxPath.After(events).log.dropped == [] && RxPath.After(events).j.buf == []
    ensures RxPath.Played(RxPath.After(events).outs) == HeardAll(s.h.offers[..|s.h.offers| / 2 * 2])
    ensures forall i :: 0 <= i < |s.h.offers| / 2 * 2 ==>
              Hears(s.h.offers[i], RxPath.Played(RxPath.After(events).outs)[i])
  {
    hide Reachable, Hears, HeardAll, RxPath.After, RxPath.Played, RxPath.Delivered, RxPath.Received;
    var h := RxPath.After(events);
    EndToEndLossless(s);
    RxPath.JitterRuns(events);
    RxPath.PushesLogged(events);
    RxPath.PlayedDelivered(h.outs, h.log.all);
    DropOldest.AllPopped(h.log, h.j.buf, RxPath.MAX_RX_BUF_FRAMES);
    assert RxPath.Played(h.outs) == h.log.all;
    AllOffersHeard(s.h.offers);
  }

  /** The receiving code itself: a fresh participant whose rx thread reads what is on the wire, in
      any pieces, pushes the frames EndToEnd speaks of and holds the newest 50 of them for the bridge. */
  method Deliver(ghost s: State, wire: seq<byte>, outcomes: seq<int>) returns (p: Participant)
    requires Reachable(s) && wire <= s.h.wire
    requires forall i :: 0 <= i < |outcomes| ==> outcomes[i] > 0
    ensures |wire| / WIRE_BYTES <= |s.h.log.popped| && InRange(s.h.offers, s.h.log.popped)
    ensures p.pushed == Pairs(s.h.offers, s.h.log.popped[..|wire| / WIRE_BYTES])
    ensures |p.pushed| == 2 * (|wire| / 334)
    ensures PairsAsHeard(s.h.offers, s.h.log.popped, p.pushed)
    ensures p.rxBuf == (if |p.pushed| <= 50 then p.pushed else p.pushed[|p.pushed| - 50..]) && p.rxStarted
  {
    hide Reachable, Hears, Heard, Pairs, PairsAsHeard, RxPath.Received;
    p := Receive(wire, outcomes);
    EndToEnd(s, |wire|);
    PairsHeard(s.h.offers, s.h.log.popped, |wire| / WIRE_BYTES);
    assert s.h.wire[..|wire|] == wire;
  }

  /** The rx thread of a fresh participant on a stream that ends but does not fail. */
  method Receive(wire: seq<byte>, outcomes: seq<int>) returns (p: Participant)
    requires forall i :: 0 <= i < |outcomes| ==> outcomes[i] > 0
    ensures p.pushed == RxPath.Received(wire)
    ensures p.rxBuf == (if |p.pushed| <= 50 then p.pushed else p.pushed[|p.pushed| - 50..]) && p.rxStarted
  {
    hide RxPath.Pushed, RxPath.Carried, RxPath.Accepted, RxPath.PushAll, Framing.Deframe, Sockets.Consumed;
    hide RxPath.Frames, RxPath.Rest, RxPath.PayloadsOf, Rtp.Parse;
    p := new Participant(0);
    var sock := new Sockets.InSocket(wire, outcomes);
    ghost var read, rounds, ok := p.RxThread(sock, |wire| + 1);
    assert wire[0..|wire|] == wire && [] + p.pushed == p.pushed;
    RxPath.PushAllNewest(RxPath.Jitter([], true), p.pushed);
  }
}
