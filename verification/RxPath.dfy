/** The receiving half of src/participant.cpp: re-cutting payloads and the jitter buffer. */
module RxPath {
  import opened Basics
  import DropOldest
  import Framing
  import G711
  import Rtp

  const MAX_RX_BUF_FRAMES: nat := 50
  const PREFETCH_FRAMES: nat := 10

  /** Twenty milliseconds of PCM. */
  type Frame = f: seq<int16> | |f| == FRAME_SAMPLES witness seq(FRAME_SAMPLES, i => 0)

  function Silence(): Frame {
    seq(FRAME_SAMPLES, i => 0)
  }

  // ---------------------------------------------------------------- re-cutting

  /** The whole 160-byte pieces of a byte string, decoded. */
  function Frames(bytes: seq<byte>): seq<Frame> {
    if |bytes| < FRAME_SAMPLES then []
    else [G711.DecodeAll(bytes[..FRAME_SAMPLES])] + Frames(bytes[FRAME_SAMPLES..])
  }

  /** What is left after the whole pieces. */
  function Rest(bytes: seq<byte>): (r: seq<byte>)
    ensures |r| < FRAME_SAMPLES
  {
    if |bytes| < FRAME_SAMPLES then bytes else Rest(bytes[FRAME_SAMPLES..])
  }

  lemma {:induction false} FramesCount(bytes: seq<byte>)
    ensures |Frames(bytes)| == |bytes| / FRAME_SAMPLES
    ensures Rest(bytes) == bytes[|bytes| / FRAME_SAMPLES * FRAME_SAMPLES..]
    decreases |bytes|
  {
    hide G711.DecodeAll;
    if |bytes| >= FRAME_SAMPLES {
      FramesCount(bytes[FRAME_SAMPLES..]);
      assert |bytes| / FRAME_SAMPLES == |bytes[FRAME_SAMPLES..]| / FRAME_SAMPLES + 1;
    }
  }

  /** Cutting a concatenation is cutting the first part and carrying its rest over. */
  lemma {:induction false} FramesAppend(a: seq<byte>, b: seq<byte>)
    ensures Frames(a + b) == Frames(a) + Frames(Rest(a) + b)
    ensures Rest(a + b) == Rest(Rest(a) + b)
    decreases |a|
  {
    if |a| >= FRAME_SAMPLES {
      FramesAppend(a[FRAME_SAMPLES..], b);
      assert (a + b)[..FRAME_SAMPLES] == a[..FRAME_SAMPLES];
      assert (a + b)[FRAME_SAMPLES..] == a[FRAME_SAMPLES..] + b;
    }
  }

  /** The i-th frame is the i-th piece, decoded. */
  lemma FrameAt(bytes: seq<byte>, i: nat, at: nat)
    requires at == FRAME_SAMPLES * i && at + FRAME_SAMPLES <= |bytes|
    ensures i < |Frames(bytes)| && Frames(bytes)[i] == G711.DecodeAll(bytes[at..at + FRAME_SAMPLES])
  {
    hide G711.DecodeAll;
    var a, b := bytes[..at], bytes[at..];
    FramesAppend(a, b);
    FramesCount(a);
    assert at / FRAME_SAMPLES == i;
    assert a + b == bytes && Rest(a) + b == b;
    assert b[..FRAME_SAMPLES] == bytes[at..at + FRAME_SAMPLES];
  }

  /** Sample by sample: the j-th sample of the i-th frame is byte 160i + j, decoded. */
  lemma FrameSamples(bytes: seq<byte>, i: nat, j: nat)
    requires i < |bytes| / 160 && j < 160
    ensures |Frames(bytes)| == |bytes| / 160 && 160 * i + j < |bytes|
    ensures Frames(bytes)[i][j] == G711.DecodeSample(bytes[160 * i + j])
  {
    hide G711.DecodeSample;
    FramesCount(bytes);
    FrameAt(bytes, i, 160 * i);
  }

  /** However a packet parses, with less than a frame carried over it completes fewer frames than
      its bytes and a frame more hold. */
  lemma FramesFit(leftover: seq<byte>, pkt: seq<byte>)
    requires |leftover| < FRAME_SAMPLES && Rtp.Parse(pkt).Some?
    ensures |Frames(leftover + Rtp.Parse(pkt).value.payload)| * FRAME_SAMPLES < |pkt| + FRAME_SAMPLES
  {
    var h, pad := Rtp.PayloadIsSlice(pkt);
    hide Rtp.Parse;
    FramesCount(leftover + Rtp.Parse(pkt).value.payload);
  }

  /** The payloads of the packets that parse, in order. */
  function Accepted(pkts: seq<seq<byte>>): seq<seq<byte>> {
    if pkts == [] then []
    else (match Rtp.Parse(pkts[0]) case None => [] case Some(p) => [p.payload]) + Accepted(pkts[1..])
  }

  lemma {:induction false} AcceptedAppend(a: seq<seq<byte>>, b: seq<seq<byte>>)
    ensures Accepted(a + b) == Accepted(a) + Accepted(b)
  {
    hide Rtp.Parse;
    if a == [] {
      assert a + b == b;
    } else {
      assert (a + b)[1..] == a[1..] + b;
      AcceptedAppend(a[1..], b);
    }
  }

  /** `at` numbers exactly the packets that parse, in order. */
  ghost predicate Parsing(pkts: seq<seq<byte>>, at: seq<nat>) {
    && DropOldest.Increasing(at)
    && (forall i :: 0 <= i < |at| ==> at[i] < |pkts| && Rtp.Parse(pkts[at[i]]).Some?)
    && (forall k :: 0 <= k < |pkts| && Rtp.Parse(pkts[k]).Some? ==> k in at)
  }

  function PayloadsAt(pkts: seq<seq<byte>>, at: seq<nat>): seq<seq<byte>>
    requires forall i :: 0 <= i < |at| ==> at[i] < |pkts| && Rtp.Parse(pkts[at[i]]).Some?
  {
    seq(|at|, i requires 0 <= i < |at| => Rtp.Parse(pkts[at[i]]).value.payload)
  }

  /** Every packet that parses plays, with its payload, and no other, in order. */
  lemma {:induction false} AcceptedExactly(pkts: seq<seq<byte>>) returns (at: seq<nat>)
    ensures Parsing(pkts, at) && Accepted(pkts) == PayloadsAt(pkts, at)
  {
    hide Rtp.Parse, Accepted;
    at := [];
    if pkts == [] {
      AcceptedNone();
    } else {
      var n := |pkts| - 1;
      var front := AcceptedExactly(pkts[..n]);
      assert pkts == pkts[..n] + [pkts[n]];
      AcceptedAppend(pkts[..n], [pkts[n]]);
      AcceptedOne(pkts[n]);
      at := if Rtp.Parse(pkts[n]).Some? then front + [n] else front;
      ParsingGrows(pkts, n, front, at);
    }
  }

  lemma ParsingGrows(pkts: seq<seq<byte>>, n: nat, front: seq<nat>, at: seq<nat>)
    requires n + 1 == |pkts| && Parsing(pkts[..n], front)
    requires at == if Rtp.Parse(pkts[n]).Some? then front + [n] else front
    ensures Parsing(pkts, at)
    ensures PayloadsAt(pkts, at) == PayloadsAt(pkts[..n], front)
              + if Rtp.Parse(pkts[n]).Some? then [Rtp.Parse(pkts[n]).value.payload] else []
  {
    hide Rtp.Parse;
    assert forall i :: 0 <= i < |front| ==> at[i] == front[i] && pkts[at[i]] == pkts[..n][front[i]];
    forall k | 0 <= k < |pkts| && Rtp.Parse(pkts[k]).Some?
      ensures k in at
    {
      if k < n {
        assert pkts[..n][k] == pkts[k];
      } else {
        assert at[|front|] == n;
      }
    }
  }

  lemma AcceptedNone()
    ensures Accepted([]) == []
  {
  }

  lemma AcceptedOne(pkt: seq<byte>)
    ensures Accepted([pkt]) == match Rtp.Parse(pkt) case None => [] case Some(p) => [p.payload]
  {
    hide Rtp.Parse;
    assert [pkt][1..] == [];
  }

  /** What one packet does: its frames and its carry-over if it parses, nothing if it does not. */
  lemma OnePacket(leftover: seq<byte>, pkt: seq<byte>)
    ensures Rtp.Parse(pkt) == None ==>
              Pushed(leftover, Accepted([pkt])) == [] && Carried(leftover, Accepted([pkt])) == leftover
    ensures Rtp.Parse(pkt).Some? ==>
              var bytes := leftover + Rtp.Parse(pkt).value.payload;
              Pushed(leftover, Accepted([pkt])) == Frames(bytes) && Carried(leftover, Accepted([pkt])) == Rest(bytes)
  {
    hide Rtp.Parse, Frames, Rest;
    AcceptedOne(pkt);
    if Rtp.Parse(pkt).Some? {
      var payloads := [Rtp.Parse(pkt).value.payload];
      assert payloads[1..] == [];
    }
  }

  /** The payloads of a list of packets that all parse. */
  function PayloadsOf(pkts: seq<seq<byte>>): seq<seq<byte>>
    requires forall i :: 0 <= i < |pkts| ==> Rtp.Parse(pkts[i]).Some?
  {
    PayloadsAt(pkts, seq(|pkts|, i => i))
  }

  lemma {:induction false} AllAccepted(pkts: seq<seq<byte>>)
    requires forall i :: 0 <= i < |pkts| ==> Rtp.Parse(pkts[i]).Some?
    ensures Accepted(pkts) == PayloadsOf(pkts)
  {
    hide Rtp.Parse;
    if pkts != [] {
      AllAccepted(pkts[1..]);
      assert PayloadsOf(pkts) == [Rtp.Parse(pkts[0]).value.payload] + PayloadsOf(pkts[1..]);
    }
  }

  /** When every packet parses, the frames are the pieces of all payloads strung together. */
  lemma AllPacketsPlay(leftover: seq<byte>, pkts: seq<seq<byte>>)
    requires |leftover| < FRAME_SAMPLES
    requires forall i :: 0 <= i < |pkts| ==> Rtp.Parse(pkts[i]).Some?
    ensures Pushed(leftover, Accepted(pkts)) == Frames(leftover + Flatten(PayloadsOf(pkts)))
    ensures Carried(leftover, Accepted(pkts)) == Rest(leftover + Flatten(PayloadsOf(pkts)))
  {
    hide Rtp.Parse;
    AllAccepted(pkts);
    RecutRefinesChunks(leftover, PayloadsOf(pkts));
  }

  /** The frames pushed while handling accepted payloads one by one, given a carry-over. */
  function Pushed(leftover: seq<byte>, payloads: seq<seq<byte>>): seq<Frame>
    decreases |payloads|
  {
    if payloads == [] then []
    else Frames(leftover + payloads[0]) + Pushed(Rest(leftover + payloads[0]), payloads[1..])
  }

  /** The carry-over after handling them. */
  function Carried(leftover: seq<byte>, payloads: seq<seq<byte>>): seq<byte>
    decreases |payloads|
  {
    if payloads == [] then leftover else Carried(Rest(leftover + payloads[0]), payloads[1..])
  }

  /** Packet boundaries do not matter: the frames are the pieces of all payloads strung together. */
  lemma {:induction false} RecutRefinesChunks(leftover: seq<byte>, payloads: seq<seq<byte>>)
    requires |leftover| < FRAME_SAMPLES
    ensures Pushed(leftover, payloads) == Frames(leftover + Flatten(payloads))
    ensures Carried(leftover, payloads) == Rest(leftover + Flatten(payloads))
    decreases |payloads|
  {
    if payloads == [] {
      assert leftover + Flatten(payloads) == leftover;
    } else {
      var joined := leftover + payloads[0];
      RecutRefinesChunks(Rest(joined), payloads[1..]);
      FramesAppend(joined, Flatten(payloads[1..]));
      assert leftover + Flatten(payloads) == joined + Flatten(payloads[1..]);
    }
  }

  lemma {:induction false} PushedAppend(leftover: seq<byte>, a: seq<seq<byte>>, b: seq<seq<byte>>)
    ensures Pushed(leftover, a + b) == Pushed(leftover, a) + Pushed(Carried(leftover, a), b)
    ensures Carried(leftover, a + b) == Carried(Carried(leftover, a), b)
    decreases |a|
  {
    if a == [] {
      assert a + b == b;
    } else {
      assert (a + b)[1..] == a[1..] + b;
      PushedAppend(Rest(leftover + a[0]), a[1..], b);
    }
  }

  /** The frames a fresh receiver pushes for a received byte stream. */
  function Received(bytes: seq<byte>): seq<Frame> {
    Pushed([], Accepted(Framing.Deframe(bytes)))
  }

  // ---------------------------------------------------------------- the jitter buffer

  datatype Jitter = Jitter(buf: seq<Frame>, started: bool)

  /** The locked section of the rx thread. */
  function JitterPush(j: Jitter, f: Frame): Jitter {
    var buf := DropOldest.Push(j.buf, f, MAX_RX_BUF_FRAMES);
    Jitter(buf, j.started || |buf| >= PREFETCH_FRAMES)
  }

  predicate Silent(j: Jitter) {
    !j.started || j.buf == []
  }

  /** The locked section of `on_get_frame`. */
  function JitterPull(j: Jitter): Jitter {
    if Silent(j) then j else j.(buf := j.buf[1..])
  }

  function JitterOutput(j: Jitter): Frame {
    if Silent(j) then Silence() else j.buf[0]
  }

  function PushAll(j: Jitter, fs: seq<Frame>): Jitter {
    if fs == [] then j else JitterPush(PushAll(j, fs[..|fs| - 1]), fs[|fs| - 1])
  }

  lemma {:induction false} PushAllAppend(j: Jitter, a: seq<Frame>, b: seq<Frame>)
    ensures PushAll(j, a + b) == PushAll(PushAll(j, a), b)
    decreases |b|
  {
    if b == [] {
      assert a + b == a;
    } else {
      assert (a + b)[..|a + b| - 1] == a + b[..|b| - 1];
      PushAllAppend(j, a, b[..|b| - 1]);
    }
  }

  /** The last 50 of a list of frames. */
  function Newest(fs: seq<Frame>): seq<Frame> {
    if |fs| <= MAX_RX_BUF_FRAMES then fs else fs[|fs| - MAX_RX_BUF_FRAMES..]
  }

  /** Pushes with no pull between them leave the newest 50 frames. */
  lemma {:induction false} PushAllNewest(j: Jitter, fs: seq<Frame>)
    requires |j.buf| <= MAX_RX_BUF_FRAMES && j.started
    ensures PushAll(j, fs) == Jitter(Newest(j.buf + fs), true)
  {
    if fs == [] {
      assert j.buf + fs == j.buf;
    } else {
      var front := fs[..|fs| - 1];
      PushAllNewest(j, front);
      assert j.buf + fs == j.buf + front + [fs[|fs| - 1]];
    }
  }

  /** One more packet handled: the frames, the carry-over and the buffer it leads to. */
  lemma HandleOneMore(j: Jitter, leftover: seq<byte>, read: seq<seq<byte>>, pkt: seq<byte>)
    ensures var carried := Carried(leftover, Accepted(read));
            var before, more := Pushed(leftover, Accepted(read)), Pushed(carried, Accepted([pkt]));
            && Pushed(leftover, Accepted(read + [pkt])) == before + more
            && Carried(leftover, Accepted(read + [pkt])) == Carried(carried, Accepted([pkt]))
            && PushAll(j, before + more) == PushAll(PushAll(j, before), more)
  {
    hide Pushed, Carried, Accepted, PushAll;
    AcceptedAppend(read, [pkt]);
    PushedAppend(leftover, Accepted(read), Accepted([pkt]));
    PushAllAppend(j, Pushed(leftover, Accepted(read)), Pushed(Carried(leftover, Accepted(read)), Accepted([pkt])));
  }

  datatype Event = RxPush(frame: Frame) | BridgePull

  /** What one pull gave the bridge, and how many frames had been pushed by then. */
  datatype Output =
    | Frame(id: nat, frame: Frame, pushed: nat)
    | Quiet(gone: int, frame: Frame, pushed: nat)

  /** A jitter buffer with its history: the queue log and the outputs so far. */
  datatype History = History(j: Jitter, log: DropOldest.Log<Frame>, outs: seq<Output>)

  function After(events: seq<Event>): History {
    if events == [] then History(Jitter([], true), DropOldest.Log([], [], [], []), [])
    else Step(After(events[..|events| - 1]), events[|events| - 1])
  }

  function Step(h: History, e: Event): History {
    match e
    case RxPush(f) => History(JitterPush(h.j, f), DropOldest.LogPush(h.log, f, MAX_RX_BUF_FRAMES), h.outs)
    case BridgePull =>
      var n := |h.log.all|;
      if Silent(h.j) || h.log.ids == [] then
        h.(j := JitterPull(h.j), outs := h.outs + [Quiet(DropOldest.Gone(h.log), JitterOutput(h.j), n)])
      else
        History(JitterPull(h.j), DropOldest.LogPop(h.log),
                h.outs + [Frame(h.log.ids[0], JitterOutput(h.j), n)])
  }

  /** The numbers of the frames delivered, in order of delivery. */
  function Delivered(outs: seq<Output>): seq<nat> {
    if outs == [] then []
    else
      var last := outs[|outs| - 1];
      Delivered(outs[..|outs| - 1]) + (match last case Frame(id, _, _) => [id] case Quiet(_, _, _) => [])
  }

  /** A delivered frame is the pushed one and among the 50 newest; a quiet output is a zero
      frame given when every pushed frame had already left. */
  ghost predicate GoodOutput(o: Output, all: seq<Frame>) {
    match o
    case Frame(id, f, n) => n <= |all| && id < n <= id + MAX_RX_BUF_FRAMES && f == all[id]
    case Quiet(gone, f, n) => gone == n <= |all| && f == Silence()
  }

  ghost predicate JitterInv(h: History) {
    && h.j.started
    && DropOldest.Window(h.log, h.j.buf, MAX_RX_BUF_FRAMES)
    && DropOldest.DropsLate(h.log, MAX_RX_BUF_FRAMES)
    && Delivered(h.outs) == h.log.popped
    && forall i :: 0 <= i < |h.outs| ==> GoodOutput(h.outs[i], h.log.all)
  }

  /** For every interleaving of pushes and pulls: the buffer is the window of the newest frames,
      of at most 50; each frame is delivered once, dropped once or queued; deliveries are in order
      and recent; a frame is dropped only when 50 newer ones stand behind it; and silence, 160 zeros,
      is played exactly when the buffer is empty. */
  lemma {:induction false} JitterRuns(events: seq<Event>)
    ensures JitterInv(After(events))
    ensures Silent(After(events).j) <==> After(events).j.buf == []
    ensures |After(events).j.buf| <= 50
    ensures forall k :: k in After(events).log.dropped ==> k + 50 < |After(events).log.all|
    ensures forall o :: o in After(events).outs && o.Quiet? ==> o.frame == seq(160, i => 0)
  {
    assert Silence() == seq(160, i => 0);
    if events != [] {
      JitterRuns(events[..|events| - 1]);
      JitterStep(After(events[..|events| - 1]), events[|events| - 1]);
    }
  }

  /** The frames pushed in a run, in order. */
  function PushesOf(events: seq<Event>): seq<Frame> {
    if events == [] then []
    else
      var last := events[|events| - 1];
      PushesOf(events[..|events| - 1]) + (match last case RxPush(f) => [f] case BridgePull => [])
  }

  lemma {:induction false} PushesLogged(events: seq<Event>)
    ensures After(events).log.all == PushesOf(events)
  {
    if events != [] {
      PushesLogged(events[..|events| - 1]);
    }
  }

  /** What the bridge was given other than silence, in order. */
  function Played(outs: seq<Output>): seq<Frame> {
    if outs == [] then []
    else
      var last := outs[|outs| - 1];
      Played(outs[..|outs| - 1]) + (match last case Frame(_, f, _) => [f] case Quiet(_, _, _) => [])
  }

  lemma {:induction false} PlayedDelivered(outs: seq<Output>, all: seq<Frame>)
    requires forall i :: 0 <= i < |outs| ==> GoodOutput(outs[i], all)
    ensures |Played(outs)| == |Delivered(outs)|
    ensures forall i :: 0 <= i < |Played(outs)| ==>
              Delivered(outs)[i] < |all| && Played(outs)[i] == all[Delivered(outs)[i]]
  {
    if outs != [] {
      PlayedDelivered(outs[..|outs| - 1], all);
      assert GoodOutput(outs[|outs| - 1], all);
    }
  }

  lemma JitterStep(h: History, e: Event)
    requires JitterInv(h)
    ensures JitterInv(Step(h, e))
  {
    match e
    case RxPush(f) => PushStep(h, f);
    case BridgePull => PullStep(h);
  }

  lemma PushStep(h: History, f: Frame)
    requires JitterInv(h)
    ensures JitterInv(Step(h, RxPush(f)))
  {
    var t := Step(h, RxPush(f));
    DropOldest.PushKeeps(h.log, h.j.buf, f, MAX_RX_BUF_FRAMES);
    DropOldest.PushDropsLate(h.log, h.j.buf, f, MAX_RX_BUF_FRAMES);
    forall i | 0 <= i < |t.outs|
      ensures GoodOutput(t.outs[i], t.log.all)
    {
      assert GoodOutput(h.outs[i], h.log.all);
    }
  }

  lemma PullStep(h: History)
    requires JitterInv(h)
    ensures JitterInv(Step(h, BridgePull))
  {
    var t := Step(h, BridgePull);
    if h.j.buf == [] {
      var o := Quiet(DropOldest.Gone(h.log), Silence(), |h.log.all|);
      assert t == h.(outs := h.outs + [o]);
      OneMoreOutput(h.outs, o, h.log.all);
    } else {
      var o := Output.Frame(h.log.ids[0], h.j.buf[0], |h.log.all|);
      DropOldest.PopKeeps(h.log, h.j.buf, MAX_RX_BUF_FRAMES);
      assert t == History(Jitter(h.j.buf[1..], true), DropOldest.LogPop(h.log), h.outs + [o]);
      OneMoreOutput(h.outs, o, h.log.all);
    }
  }

  lemma OneMoreOutput(outs: seq<Output>, o: Output, all: seq<Frame>)
    requires GoodOutput(o, all) && forall i :: 0 <= i < |outs| ==> GoodOutput(outs[i], all)
    ensures forall i :: 0 <= i < |outs + [o]| ==> GoodOutput((outs + [o])[i], all)
    ensures Delivered(outs + [o]) == Delivered(outs) + if o.Frame? then [o.id] else []
  {
    assert (outs + [o])[..|outs|] == outs;
  }
}
