/** The class of src/participant.cpp: the code of its threads and callbacks, section by section,
    on its real fields. What the sections do together is proved in Protocol. */
module ParticipantClass {
  import opened Basics
  import opened Sockets
  import Framing
  import G711
  import Rtp
  import RxPath
  import TxPath

  const TWO_64: int := 0x1_0000_0000_0000_0000

  /** A frame buffer of the bridge: its samples, a running clock, its size in bytes and its type. */
  class MediaFrame {
    const buf: array<int16>
    var timestamp: int
    var size: nat
    var audio: bool

    constructor (buf: array<int16>, timestamp: int, size: nat, audio: bool)
      ensures this.buf == buf && this.timestamp == timestamp && this.size == size && this.audio == audio
    {
      this.buf, this.timestamp, this.size, this.audio := buf, timestamp, size, audio;
    }
  }

  lemma NothingRead(j: RxPath.Jitter, leftover: seq<byte>)
    ensures RxPath.Pushed(leftover, RxPath.Accepted([])) == []
    ensures RxPath.Carried(leftover, RxPath.Accepted([])) == leftover
    ensures RxPath.PushAll(j, []) == j
  {
  }

  lemma PrefixIs(prefix: seq<byte>, bytes: seq<byte>, i: nat)
    requires |prefix| == 2 && i + 2 <= |bytes| && prefix == bytes[i..i + 2]
    ensures prefix[0] == bytes[i] && prefix[1] == bytes[i + 1]
  {
  }

  class Participant {
    // transmit side
    var stopFlag: bool
    var txActive: bool
    var sendQueue: seq<seq<byte>>
    var txSeq: uint16
    var txTimestamp: uint32
    var txBatchTs: uint32
    var txAcc: seq<byte>
    const ssrc: uint32
    // receive side
    var rxBuf: seq<RxPath.Frame>
    var rxStarted: bool
    var rxLeftover: seq<byte>
    /** Every frame ever pushed into the jitter buffer. */
    ghost var pushed: seq<RxPath.Frame>

    constructor (ssrc: uint32)
      ensures Tx() == TxPath.Initial(ssrc)
      ensures Rx() == RxPath.Jitter([], true) && rxLeftover == [] && pushed == []
    {
      this.ssrc := ssrc;
      stopFlag, txActive, sendQueue := false, false, [];
      txSeq, txTimestamp, txBatchTs, txAcc := 0, 0, 0, [];
      rxBuf, rxStarted, rxLeftover, pushed := [], true, [], [];
    }

    function Tx(): TxPath.Tx
      reads this
    {
      TxPath.Tx(stopFlag, txActive, sendQueue, txAcc, txSeq, txTimestamp, txBatchTs, ssrc)
    }

    function Rx(): RxPath.Jitter
      reads this
    {
      RxPath.Jitter(rxBuf, rxStarted)
    }

    // -------------------------------------------------------------- on_put_frame

    method SkipFrame()
      modifies this`txAcc, this`txTimestamp
      ensures Tx() == TxPath.Skip(old(Tx()))
    {
      txAcc := [];
      txTimestamp := ToU32(txTimestamp + FRAME_SAMPLES);
    }

    method AppendEncoded(frame: TxPath.Offer)
      modifies this`txAcc
      ensures txAcc == old(txAcc) + TxPath.Encoded(frame)
    {
      ghost var want := TxPath.Encoded(frame);
      var i := 0;
      if frame.audio && |frame.pcm| == FRAME_SAMPLES {
        while i < FRAME_SAMPLES
          invariant 0 <= i <= FRAME_SAMPLES
          invariant txAcc == old(txAcc) + want[..i]
        {
          var b := G711.Encode(frame.pcm[i]);
          assert want[..i + 1] == want[..i] + [b];
          txAcc := txAcc + [b];
          i := i + 1;
        }
      } else {
        var silence := G711.Encode(0);
        while i < FRAME_SAMPLES
          invariant 0 <= i <= FRAME_SAMPLES
          invariant txAcc == old(txAcc) + want[..i]
        {
          assert want[..i + 1] == want[..i] + [silence];
          txAcc := txAcc + [silence];
          i := i + 1;
        }
      }
      assert want[..i] == want;
    }

    method EncodeFrame(frame: TxPath.Offer) returns (pkt: Option<seq<byte>>)
      modifies this`txAcc, this`txTimestamp, this`txBatchTs, this`txSeq
      ensures Tx() == TxPath.Encode(old(Tx()), frame)
      ensures pkt == TxPath.Built(old(Tx()), frame)
    {
      hide TxPath.Encoded, Rtp.Serialize;
      if txAcc == [] {
        txBatchTs := txTimestamp;
      }
      AppendEncoded(frame);
      txTimestamp := ToU32(txTimestamp + FRAME_SAMPLES);
      if |txAcc| < TxPath.BATCH_SAMPLES {
        return None;
      }
      var bytes := BuildPacket();
      return Some(bytes);
    }

    /** The full batch as a packet; the accumulator is moved out and the sequence number counted on. */
    method BuildPacket() returns (bytes: seq<byte>)
      modifies this`txAcc, this`txSeq
      ensures bytes == Rtp.Serialize(TxPath.BatchPacket(old(Tx())))
      ensures Tx() == old(Tx()).(sequence := ToU16(old(txSeq) + 1), acc := [])
    {
      hide Rtp.Serialize;
      var rtp := new Rtp.RtpPacket();
      rtp.payloadType := 8;
      rtp.ssrc := ssrc;
      rtp.sequence := txSeq;
      txSeq := ToU16(txSeq + 1);
      rtp.timestamp := txBatchTs;
      rtp.payload := txAcc;
      txAcc := [];
      bytes := rtp.SerializePacket();
    }

    /** The locked tail; `notified` says whether the condition variable was signalled. */
    method EnqueuePacket(pkt: seq<byte>) returns (notified: bool)
      modifies this`sendQueue
      ensures Tx() == TxPath.Enqueue(old(Tx()), pkt)
      ensures notified == (txActive && !stopFlag)
      ensures sendQueue == if !notified then old(sendQueue)
                           else (if |old(sendQueue)| < 25 then old(sendQueue) else old(sendQueue)[1..]) + [pkt]
    {
      if !txActive || stopFlag {
        return false;
      }
      if |sendQueue| >= TxPath.MAX_SEND_QUEUE_PACKETS {
        sendQueue := sendQueue[1..];
      }
      sendQueue := sendQueue + [pkt];
      return true;
    }

    method OnPutFrame(frame: TxPath.Offer) returns (notified: bool)
      modifies this
      ensures Tx() == TxPath.PutFrame(old(Tx()), frame)
      ensures notified == (txActive && !stopFlag && |old(txAcc)| >= 160)
      ensures Rx() == old(Rx()) && rxLeftover == old(rxLeftover) && pushed == old(pushed)
    {
      if !txActive || stopFlag {
        SkipFrame();
        return false;
      }
      var pkt := EncodeFrame(frame);
      if pkt == None {
        return false;
      }
      notified := EnqueuePacket(pkt.value);
    }

    // -------------------------------------------------------------- the transmit thread and stop

    method ActivateTx() returns (spawned: bool)
      modifies this`txActive
      ensures Tx() == TxPath.Activate(old(Tx())) && spawned == !stopFlag
      ensures txActive == (old(txActive) || !stopFlag)
    {
      if stopFlag {
        return false;
      }
      txActive := true;
      return true;
    }

    /** One evaluation of the wait predicate under the lock, and what follows it. */
    method TakePacket() returns (r: TxPath.Take)
      modifies this`sendQueue
      ensures r == TxPath.TakeNext(old(Tx())) && Tx() == TxPath.AfterTake(old(Tx()))
      ensures r.Quit? <==> stopFlag
      ensures r.Block? <==> !stopFlag && old(sendQueue) == []
      ensures if r.Got? then old(sendQueue) == [r.pkt] + sendQueue else sendQueue == old(sendQueue)
    {
      if !(stopFlag || sendQueue != []) {
        return TxPath.Block;
      }
      if stopFlag {
        return TxPath.Quit;
      }
      r := TxPath.Got(sendQueue[0]);
      sendQueue := sendQueue[1..];
    }

    /** One round of `tx_thread_func` after its poll: take a packet, write it framed. The socket is
        used only if there was one; when a write fails a proper prefix of it went out, and none
        fails while every send makes progress. */
    method SendRound(sock: OutSocket) returns (r: TxPath.Take, ok: bool)
      modifies this`sendQueue, sock
      ensures r == TxPath.TakeNext(old(Tx())) && Tx() == TxPath.AfterTake(old(Tx()))
      ensures !r.Got? ==> !ok && sock.sent == old(sock.sent)
      ensures r.Got? && ok ==> sock.sent == old(sock.sent) + Framing.FrameBytes(r.pkt)
      ensures r.Got? && !ok ==> exists k :: 0 <= k < |Framing.FrameBytes(r.pkt)|
                                            && sock.sent == old(sock.sent) + Framing.FrameBytes(r.pkt)[..k]
      ensures old(sock.Sending()) ==> sock.Sending() && ok == r.Got?
      ensures Consumed(old(sock.outcomes), sock.outcomes, ok || !r.Got?, false)
    {
      hide Consumed;
      ConsumedNone(sock.outcomes);
      ok := false;
      r := TakePacket();
      if r.Got? {
        ok := SendFramed(sock, r.pkt);
      }
    }

    /** The locked sections of `stop` and at the end of the tx thread. */
    method Quench()
      modifies this`txActive, this`sendQueue
      ensures Tx() == TxPath.Quench(old(Tx())) && !txActive && sendQueue == []
    {
      txActive := false;
      sendQueue := [];
    }

    // -------------------------------------------------------------- the receive thread

    /** The locked section that stores one decoded frame. */
    method PushFrame(frame: RxPath.Frame)
      modifies this`rxBuf, this`rxStarted, this`pushed
      ensures Rx() == RxPath.JitterPush(old(Rx()), frame)
      ensures rxBuf == (if |old(rxBuf)| < 50 then old(rxBuf) else old(rxBuf)[1..]) + [frame]
      ensures pushed == old(pushed) + [frame]
    {
      if |rxBuf| >= RxPath.MAX_RX_BUF_FRAMES {
        rxBuf := rxBuf[1..];
      }
      rxBuf := rxBuf + [frame];
      if !rxStarted && |rxBuf| >= RxPath.PREFETCH_FRAMES {
        rxStarted := true;
      }
      pushed := pushed + [frame];
    }

    method DecodeFrame(src: seq<byte>) returns (frame: RxPath.Frame)
      requires |src| == FRAME_SAMPLES
      ensures frame == G711.DecodeAll(src)
    {
      var f: seq<int16> := [];
      while |f| < FRAME_SAMPLES
        invariant |f| <= FRAME_SAMPLES && f == G711.DecodeAll(src[..|f|])
      {
        f := f + [G711.DecodeSample(src[|f|])];
      }
      assert src[..|f|] == src;
      frame := f;
    }

    /** Decode and push the whole pieces of `src`. */
    method PushPieces(src: seq<byte>) returns (consumed: nat)
      modifies this`rxBuf, this`rxStarted, this`pushed
      ensures consumed <= |src| && src[consumed..] == RxPath.Rest(src)
      ensures pushed == old(pushed) + RxPath.Frames(src)
      ensures Rx() == RxPath.PushAll(old(Rx()), RxPath.Frames(src))
    {
      RxPath.FramesCount(src);
      ghost var all := RxPath.Frames(src);
      var full := |src| / FRAME_SAMPLES;
      var i := 0;
      while i < full
        invariant 0 <= i <= full == |all|
        invariant pushed == old(pushed) + all[..i]
        invariant Rx() == RxPath.PushAll(old(Rx()), all[..i])
      {
        var at := i * FRAME_SAMPLES;
        assert at + FRAME_SAMPLES <= full * FRAME_SAMPLES <= |src|;
        var frame := DecodeFrame(src[at..at + FRAME_SAMPLES]);
        RxPath.FrameAt(src, i, at);
        PushFrame(frame);
        assert all[..i + 1] == all[..i] + [frame] && all[..i + 1][..i] == all[..i];
        i := i + 1;
      }
      assert all[..i] == all;
      consumed := full * FRAME_SAMPLES;
    }

    /** A parsed payload: without carry-over it is cut where it lies, otherwise it is appended first. */
    method AcceptPayload(payload: seq<byte>)
      modifies this`rxBuf, this`rxStarted, this`rxLeftover, this`pushed
      ensures pushed == old(pushed) + RxPath.Frames(old(rxLeftover) + payload)
      ensures rxLeftover == RxPath.Rest(old(rxLeftover) + payload)
      ensures Rx() == RxPath.PushAll(old(Rx()), RxPath.Frames(old(rxLeftover) + payload))
    {
      var src;
      if rxLeftover == [] {
        src := payload;
      } else {
        rxLeftover := rxLeftover + payload;
        src := rxLeftover;
      }
      assert src == old(rxLeftover) + payload;
      var consumed := PushPieces(src);
      if rxLeftover == [] {
        if |src| - consumed > 0 {
          rxLeftover := src[consumed..];
        }
      } else if consumed > 0 {
        rxLeftover := rxLeftover[consumed..];
      }
    }

    /** One received packet; packets that do not parse change no audio state. */
    method AcceptPacket(pkt: seq<byte>)
      modifies this`rxBuf, this`rxStarted, this`rxLeftover, this`pushed
      ensures pushed == old(pushed) + RxPath.Pushed(old(rxLeftover), RxPath.Accepted([pkt]))
      ensures rxLeftover == RxPath.Carried(old(rxLeftover), RxPath.Accepted([pkt]))
      ensures Rx() == RxPath.PushAll(old(Rx()), RxPath.Pushed(old(rxLeftover), RxPath.Accepted([pkt])))
      ensures Rtp.Parse(pkt) == None ==> Rx() == old(Rx()) && pushed == old(pushed) && rxLeftover == old(rxLeftover)
      ensures Rtp.Parse(pkt).Some? ==>
                var bytes := old(rxLeftover) + Rtp.Parse(pkt).value.payload;
                && pushed == old(pushed) + RxPath.Frames(bytes) && rxLeftover == RxPath.Rest(bytes)
                && Rx() == RxPath.PushAll(old(Rx()), RxPath.Frames(bytes))
    {
      var rtp := new Rtp.RtpPacket();
      var ok := rtp.ParseBytes(pkt);
      assert [pkt][1..] == [];
      if ok {
        AcceptPayload(rtp.payload);
        assert RxPath.Accepted([pkt]) == [rtp.payload];
        assert [rtp.payload][1..] == [];
        assert RxPath.Pushed(old(rxLeftover), [rtp.payload]) == RxPath.Frames(old(rxLeftover) + rtp.payload);
      } else {
        assert RxPath.Accepted([pkt]) == [];
      }
    }

    /** From buffer `j`, `frames` pushed and carry-over `leftover`, exactly the packets `read` were handled. */
    ghost predicate Handled(j: RxPath.Jitter, frames: seq<RxPath.Frame>, leftover: seq<byte>, read: seq<seq<byte>>)
      reads this
    {
      && Rx() == RxPath.PushAll(j, RxPath.Pushed(leftover, RxPath.Accepted(read)))
      && pushed == frames + RxPath.Pushed(leftover, RxPath.Accepted(read))
      && rxLeftover == RxPath.Carried(leftover, RxPath.Accepted(read))
    }

    method AcceptNext(pkt: seq<byte>, ghost j: RxPath.Jitter, ghost frames: seq<RxPath.Frame>,
                      ghost leftover: seq<byte>, ghost read: seq<seq<byte>>)
      requires Handled(j, frames, leftover, read)
      modifies this`rxBuf, this`rxStarted, this`rxLeftover, this`pushed
      ensures Handled(j, frames, leftover, read + [pkt])
    {
      hide RxPath.Pushed, RxPath.Carried, RxPath.Accepted, RxPath.PushAll;
      RxPath.HandleOneMore(j, leftover, read, pkt);
      AcceptPacket(pkt);
    }

    /** The two reads of one loop round; an empty `pkt` stands for a zero length prefix. */
    static method ReadPacket(sock: InSocket) returns (ok: bool, pkt: seq<byte>)
      requires sock.Valid()
      modifies sock
      ensures sock.Valid() && old(sock.pos) <= sock.pos
      ensures ok ==> old(sock.pos) < sock.pos
      ensures ok ==> forall e :: sock.pos <= e <= |sock.incoming| ==>
                Framing.Deframe(sock.incoming[old(sock.pos)..e])
                == (if pkt == [] then [] else [pkt]) + Framing.Deframe(sock.incoming[sock.pos..e])
      ensures !ok ==> Framing.Deframe(sock.incoming[old(sock.pos)..sock.pos]) == []
      ensures old(sock.Lossless()) ==> sock.Lossless()
      ensures old(sock.Lossless()) && !ok ==> sock.pos == |sock.incoming|
      ensures Consumed(old(sock.outcomes), sock.outcomes, ok, !ok && sock.pos == |sock.incoming|)
    {
      hide Framing.Deframe, Consumed;
      pkt := [];
      ghost var start := sock.pos;
      var lenBuf := new byte[2];
      ok := ReadExact(sock, lenBuf, 2);
      if !ok {
        Framing.DeframeNone(sock.incoming, start, sock.pos);
        return;
      }
      var pktLen := FromBe16(lenBuf[0], lenBuf[1]);
      PrefixIs(lenBuf[..2], sock.incoming, start);
      forall e | start + 2 + pktLen <= e <= |sock.incoming|
        ensures Framing.Deframe(sock.incoming[start..e])
                == (if pktLen == 0 then [] else [sock.incoming[start + 2..start + 2 + pktLen]])
                   + Framing.Deframe(sock.incoming[start + 2 + pktLen..e])
      {
        Framing.DeframeNext(sock.incoming, start, pktLen, e);
      }
      if pktLen == 0 {
        return;
      }
      var pktBuf := new byte[pktLen];
      ghost var queued := sock.outcomes;
      ok := ReadExact(sock, pktBuf, pktLen);
      ConsumedThen(old(sock.outcomes), queued, sock.outcomes, ok, !ok && sock.pos == |sock.incoming|);
      if !ok {
        Framing.DeframeNone(sock.incoming, start, sock.pos);
        return;
      }
      pkt := pktBuf[..pktLen];
    }

    /** `rx_thread_func`; `polls` is how often the stop flag reads false before it reads true.
        Whatever the chunking, the packets handled are exactly the whole ones among the bytes received,
        and with no error and no stop those are all bytes of the stream. It makes `rounds` rounds, one a
        poll, until a poll reads true or, `ok` being false then, a call fails or meets the end. */
    method RxThread(sock: InSocket, polls: nat) returns (ghost read: seq<seq<byte>>, ghost rounds: nat, ghost ok: bool)
      requires sock.Valid()
      modifies this`rxBuf, this`rxStarted, this`rxLeftover, this`pushed, sock
      ensures sock.Valid() && old(sock.pos) <= sock.pos
      ensures read == Framing.Deframe(sock.incoming[old(sock.pos)..sock.pos])
      ensures read <= Framing.Deframe(sock.incoming[old(sock.pos)..])
      ensures Handled(old(Rx()), old(pushed), old(rxLeftover), read)
      ensures Consumed(old(sock.outcomes), sock.outcomes, ok, !ok && sock.pos == |sock.incoming|)
      ensures rounds <= polls && (ok ==> rounds == polls) && |read| <= rounds
      ensures |old(rxLeftover)| < 160 && (forall i :: 0 <= i < |read| ==> Rtp.Parse(read[i]).Some?) ==>
                var bytes := old(rxLeftover) + Flatten(RxPath.PayloadsOf(read));
                pushed == old(pushed) + RxPath.Frames(bytes) && rxLeftover == RxPath.Rest(bytes)
      ensures old(sock.Lossless()) && polls > |sock.incoming| ==> sock.pos == |sock.incoming|
    {
      hide Framing.Deframe, RxPath.Pushed, RxPath.Carried, RxPath.Accepted, RxPath.PushAll, Consumed;
      read, rounds, ok := [], 0, true;
      ConsumedNone(sock.outcomes);
      assert Handled(Rx(), pushed, rxLeftover, []) by { NothingRead(Rx(), rxLeftover); }
      var left := polls;
      ghost var start := sock.pos;
      Framing.DeframeEmpty();
      assert sock.incoming[start..] == sock.incoming[start..|sock.incoming|];
      while left > 0
        invariant sock.Valid() && start <= sock.pos
        invariant forall e :: sock.pos <= e <= |sock.incoming| ==>
                    Framing.Deframe(sock.incoming[start..e]) == read + Framing.Deframe(sock.incoming[sock.pos..e])
        invariant Handled(old(Rx()), old(pushed), old(rxLeftover), read)
        invariant old(sock.Lossless()) ==> sock.Lossless()
        invariant ok && 0 <= left && left + rounds == polls && |read| <= rounds
        invariant Consumed(old(sock.outcomes), sock.outcomes, true, false)
        invariant polls > |sock.incoming| ==> left > |sock.incoming| - sock.pos
        decreases left
      {
        left, rounds := left - 1, rounds + 1;
        ghost var queued := sock.outcomes;
        var got, pkt := ReadPacket(sock);
        ok := got;
        ConsumedThen(old(sock.outcomes), queued, sock.outcomes, ok, !ok && sock.pos == |sock.incoming|);
        if !got {
          assert Framing.Deframe(sock.incoming[start..sock.pos]) == read + [];
          break;
        }
        if pkt == [] {
          continue;
        }
        AcceptNext(pkt, old(Rx()), old(pushed), old(rxLeftover), read);
        read := read + [pkt];
      }
      assert sock.incoming[sock.pos..sock.pos] == [];
      AllPlayed(old(Rx()), old(pushed), old(rxLeftover), read);
    }

    lemma AllPlayed(j: RxPath.Jitter, frames: seq<RxPath.Frame>, leftover: seq<byte>, read: seq<seq<byte>>)
      requires Handled(j, frames, leftover, read)
      ensures |leftover| < 160 && (forall i :: 0 <= i < |read| ==> Rtp.Parse(read[i]).Some?) ==>
                var bytes := leftover + Flatten(RxPath.PayloadsOf(read));
                pushed == frames + RxPath.Frames(bytes) && rxLeftover == RxPath.Rest(bytes)
    {
      hide Rtp.Parse, RxPath.Pushed, RxPath.Carried, RxPath.Frames, RxPath.Rest, RxPath.PayloadsOf;
      if |leftover| < 160 && forall i :: 0 <= i < |read| ==> Rtp.Parse(read[i]).Some? {
        RxPath.AllPacketsPlay(leftover, read);
      }
    }

    // -------------------------------------------------------------- on_get_frame

    /** The next frame for the bridge, or silence, with the frame's clock moved on in 64 bits. */
    method OnGetFrame(frame: MediaFrame)
      requires frame.buf.Length >= FRAME_SAMPLES
      modifies this`rxBuf, frame, frame.buf
      ensures Rx() == RxPath.JitterPull(old(Rx()))
      ensures frame.buf[..FRAME_SAMPLES] == RxPath.JitterOutput(old(Rx()))
      ensures frame.buf[FRAME_SAMPLES..] == old(frame.buf[FRAME_SAMPLES..])
      ensures !rxStarted || old(rxBuf) == [] ==> frame.buf[..160] == seq(160, i => 0) && rxBuf == old(rxBuf)
      ensures rxStarted && old(rxBuf) != [] ==> frame.buf[..160] == old(rxBuf)[0] && rxBuf == old(rxBuf)[1..]
      ensures frame.timestamp == (old(frame.timestamp) + 160) % TWO_64
      ensures frame.size == 320 && frame.audio
    {
      var dst := frame.buf;
      var outputSilence := false;
      var front: seq<int16> := [];
      if !rxStarted || rxBuf == [] {
        outputSilence := true;
      } else {
        front := rxBuf[0];
        rxBuf := rxBuf[1..];
      }
      ghost var want := RxPath.JitterOutput(old(Rx()));
      var i := 0;
      while i < FRAME_SAMPLES
        invariant 0 <= i <= FRAME_SAMPLES
        invariant Rx() == RxPath.JitterPull(old(Rx())) && frame.timestamp == old(frame.timestamp)
        invariant dst[..i] == want[..i]
        invariant dst[FRAME_SAMPLES..] == old(dst[FRAME_SAMPLES..])
      {
        dst[i] := if outputSilence then 0 else front[i];
        assert dst[..i + 1] == dst[..i] + [want[i]];
        i := i + 1;
      }
      frame.timestamp := (frame.timestamp + FRAME_SAMPLES) % TWO_64;
      frame.size := 2 * FRAME_SAMPLES;
      frame.audio := true;
    }
  }
}
