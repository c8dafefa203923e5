/** The sending half of src/participant.cpp: the state the transmit threads share, and each
    lock-protected or thread-local section of code as a function on it. */
module TxPath {
  import opened Basics
  import DropOldest
  import G711
  import Rtp

  const TX_BATCH_FRAMES: nat := 2
  const MAX_SEND_QUEUE_PACKETS: nat := 25

  /** Samples, clock units and A-law bytes of one full batch. */
  const BATCH_SAMPLES: nat := TX_BATCH_FRAMES * FRAME_SAMPLES
  /** A full batch as an RTP packet, and with its length prefix. */
  const PACKET_BYTES: nat := Rtp.HEADER_BYTES + BATCH_SAMPLES
  const WIRE_BYTES: nat := 2 + PACKET_BYTES

  /** A frame offered by the bridge: its type flag and its samples, as many as its size says. */
  datatype Offer = Offer(audio: bool, pcm: seq<int16>)

  datatype Tx = Tx(
    stopFlag: bool,
    txActive: bool,
    queue: seq<seq<byte>>,
    acc: seq<byte>,
    sequence: uint16,
    timestamp: uint32,
    batchTs: uint32,
    ssrc: uint32)

  function Initial(ssrc: uint32): Tx {
    Tx(false, false, [], [], 0, 0, 0, ssrc)
  }

  /** The samples that stand for an offer: its own, or zeros if it is not a full audio frame. */
  function Samples(f: Offer): (r: seq<int16>)
    ensures |r| == FRAME_SAMPLES
  {
    if f.audio && |f.pcm| == FRAME_SAMPLES then f.pcm else seq(FRAME_SAMPLES, i => 0)
  }

  function Encoded(f: Offer): (r: seq<byte>)
    ensures |r| == FRAME_SAMPLES
  {
    G711.EncodeAll(Samples(f))
  }

  function Tick(ts: uint32): uint32 {
    ToU32(ts + FRAME_SAMPLES)
  }

  /** `on_put_frame` while inactive: forget the half batch, keep the clock going. */
  function Skip(t: Tx): Tx {
    t.(acc := [], timestamp := Tick(t.timestamp))
  }

  /** The accumulator and the batch timestamp after one more frame. */
  function Accumulate(t: Tx, f: Offer): Tx {
    t.(batchTs := if t.acc == [] then t.timestamp else t.batchTs,
       acc := t.acc + Encoded(f),
       timestamp := Tick(t.timestamp))
  }

  predicate BatchFull(t: Tx) {
    |t.acc| >= BATCH_SAMPLES
  }

  function BatchPacket(t: Tx): Rtp.Packet {
    Rtp.Packet(2, false, false, false, 8, t.sequence, t.batchTs, t.ssrc, t.acc)
  }

  /** `on_put_frame` between its fast-path check and its lock. */
  function Encode(t: Tx, f: Offer): Tx {
    var u := Accumulate(t, f);
    if BatchFull(u) then u.(sequence := ToU16(u.sequence + 1), acc := []) else u
  }

  /** The packet that call leaves to be enqueued, if it completed a batch. */
  function Built(t: Tx, f: Offer): Option<seq<byte>> {
    var u := Accumulate(t, f);
    if BatchFull(u) then Some(Rtp.Serialize(BatchPacket(u))) else None
  }

  predicate GateOpen(t: Tx) {
    t.txActive && !t.stopFlag
  }

  /** The locked section of `on_put_frame`. */
  function Enqueue(t: Tx, pkt: seq<byte>): Tx {
    if GateOpen(t) then t.(queue := DropOldest.Push(t.queue, pkt, MAX_SEND_QUEUE_PACKETS)) else t
  }

  /** The locked section of `stop`. */
  function Quench(t: Tx): Tx {
    t.(txActive := false, queue := [])
  }

  /** The locked section of `start_tx_thread`. */
  function Activate(t: Tx): Tx {
    if t.stopFlag then t else t.(txActive := true)
  }

  /** What the tx thread's locked section does once it holds the lock. */
  datatype Take = Quit | Block | Got(pkt: seq<byte>)

  function TakeNext(t: Tx): Take {
    if t.stopFlag then Quit else if t.queue == [] then Block else Got(t.queue[0])
  }

  function AfterTake(t: Tx): Tx {
    if TakeNext(t).Got? then t.(queue := t.queue[1..]) else t
  }

  /** `on_put_frame` run alone, start to finish. */
  function PutFrame(t: Tx, f: Offer): Tx {
    if !GateOpen(t) then Skip(t)
    else match Built(t, f)
      case None => Encode(t, f)
      case Some(pkt) => Enqueue(Encode(t, f), pkt)
  }

  /** `n` bytes that encode a frame's samples, or zeros if it is no full audio frame. */
  ghost predicate EncodesFrame(bytes: seq<byte>, f: Offer) {
    && |bytes| == 160
    && forall i :: 0 <= i < 160 ==>
         bytes[i] == G711.EncodeSample(if f.audio && |f.pcm| == 160 then f.pcm[i] else 0)
  }

  lemma EncodedSamples(f: Offer)
    ensures EncodesFrame(Encoded(f), f)
  {
    hide G711.EncodeSample;
  }

  /** A call behind a shut gate only drops the half batch and counts 160 on; with an empty accumulator
      it starts a batch; with one frame in it, it queues the packet of both, dropping the oldest of 25. */
  lemma PutEffects(t: Tx, f: Offer)
    ensures !(t.txActive && !t.stopFlag) ==>
              PutFrame(t, f) == t.(acc := [], timestamp := (t.timestamp + 160) % 0x1_0000_0000)
    ensures t.txActive && !t.stopFlag && t.acc == [] ==>
              var u := PutFrame(t, f);
              && EncodesFrame(u.acc, f)
              && u == t.(acc := u.acc, batchTs := t.timestamp, timestamp := (t.timestamp + 160) % 0x1_0000_0000)
    ensures t.txActive && !t.stopFlag && |t.acc| == 160 ==>
              var u := PutFrame(t, f);
              && u == t.(acc := [], timestamp := (t.timestamp + 160) % 0x1_0000_0000,
                         sequence := (t.sequence + 1) % 0x1_0000, queue := u.queue)
              && u.queue != []
              && u.queue[..|u.queue| - 1] == (if |t.queue| < 25 then t.queue else t.queue[1..])
              && Rtp.Parse(u.queue[|u.queue| - 1]).Some?
              && var p := Rtp.Parse(u.queue[|u.queue| - 1]).value;
                 && p == Rtp.Packet(2, false, false, false, 8, t.sequence, t.batchTs, t.ssrc, p.payload)
                 && |p.payload| == 320 && p.payload[..160] == t.acc && EncodesFrame(p.payload[160..], f)
  {
    hide Encoded, Rtp.Parse, Rtp.Serialize, EncodesFrame;
    EncodedSamples(f);
    if |t.acc| == 160 {
      var p := BatchPacket(Accumulate(t, f));
      Rtp.RoundTripExactly(p);
      assert p.payload[..160] == t.acc && p.payload[160..] == Encoded(f);
    } else if t.acc == [] {
      assert [] + Encoded(f) == Encoded(f);
    }
  }
}
