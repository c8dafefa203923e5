/** What the bridge offers is what is sent: over whole runs, from the calls of `on_put_frame` to the
    frames received, and that every session can be had. */
module Delivery {
  import opened Basics
  import opened TxPath
  import opened Protocol
  import opened Shutdown
  import opened EndToEnd
  import DropOldest
  import Framing
  import Rtp
  import RxPath
  import Transmit

  // ---------------------------------------------------------------- what happens once stop has begun

  lemma ClosedStays(s: State, a: Action, t: State)
    requires StartInv(s) && Next(s, a) == Some(t) && Transmit.Closed(s.tx, s.snd)
    ensures Transmit.Closed(t.tx, t.snd)
  {
    hide NextRecv, NextSend, NextPut, PutCallStep, Encode, Built;
    match a
    case RecvOk(n, value) => RecvShape(s, n, value, t);
    case SendOk(w) => SendRank(s, w, t); SendStarted(s, w, t);
    case PutCall(f) => PutCallGate(s, f);
    case PutStep => PutGate(s, t);
    case _ =>
  }

  lemma SendStarted(s: State, w: nat, t: State)
    requires NextSend(s, w) == Some(t)
    ensures s.snd != NoTx && t.snd != NoTx
  {
  }

  /** A put step moves neither the gate nor, but for a signal, the tx thread. */
  predicate SameGate(s: State, t: State) {
    t.tx.stopFlag == s.tx.stopFlag && t.tx.txActive == s.tx.txActive && (t.snd == s.snd || t.snd == Notify(s.snd))
  }

  lemma PutCallGate(s: State, f: Offer)
    ensures SameGate(s, PutCallStep(s, f))
  {
  }

  lemma PutGate(s: State, t: State)
    requires NextPut(s) == Some(t)
    ensures SameGate(s, t)
  {
  }

  lemma FlagStep(s: State, a: Action, t: State)
    requires Next(s, a) == Some(t) && s.tx.stopFlag
    ensures t.tx.stopFlag && t.h.log.all == s.h.log.all
  {
    hide NextRecv, NextSend, NextPut, PutCallStep, Encode, Built;
    match a
    case RecvOk(n, value) => RecvShape(s, n, value, t);
    case SendOk(w) => SendLog(s, w, t);
    case PutCall(f) => PutCallGate(s, f); PutCallLog(s, f);
    case PutStep => PutGate(s, t); PutFlagged(s, t);
    case _ =>
  }

  lemma SendLog(s: State, w: nat, t: State)
    requires NextSend(s, w) == Some(t)
    ensures t.h.log == s.h.log && t.tx == s.tx
  {
  }

  lemma PutCallLog(s: State, f: Offer)
    ensures PutCallStep(s, f).h.log == s.h.log
  {
  }

  lemma PutFlagged(s: State, t: State)
    requires NextPut(s) == Some(t) && s.tx.stopFlag
    ensures t.h.log == s.h.log
  {
  }

  /** Once the flag is up nothing is queued any more, whatever put call is under way. */
  lemma NothingQueuedAfterFlag(states: seq<State>, acts: seq<Action>, i: nat, j: nat)
    requires Run(states, acts) && i <= j < |states| && states[i].tx.stopFlag
    ensures states[j].tx.stopFlag && states[j].h.log.all == states[i].h.log.all
  {
    hide Next, Init;
    var all := states[i].h.log.all;
    forall k | i <= k < j && states[k].tx.stopFlag && states[k].h.log.all == all
      ensures states[k + 1].tx.stopFlag && states[k + 1].h.log.all == all
    {
      StepAt(states, acts, k);
      FlagStep(states[k], acts[k], states[k + 1]);
    }
    Persists((s: State) => s.tx.stopFlag && s.h.log.all == all, states, i, j);
  }

  // ---------------------------------------------------------------- drops

  /** While the gate is not shut for good, only a full queue has dropped anything. */
  ghost predicate FullDrops(s: State) {
    !Transmit.Closed(s.tx, s.snd) ==> DropOldest.DropsLate(s.h.log, MAX_SEND_QUEUE_PACKETS)
  }

  lemma FullDropsStep(s: State, a: Action, t: State)
    requires StartInv(s) && Transmit.WindowInv(s.tx, s.h) && FullDrops(s) && Next(s, a) == Some(t)
    ensures FullDrops(t)
  {
    hide NextMain, NextAccept, NextRecv, NextSend, NextPut, TakeStep, PutCallStep, Encode, Built, DropOldest.DropsLate;
    hide Transmit.Closed;
    if !Transmit.Closed(t.tx, t.snd) {
      if Transmit.Closed(s.tx, s.snd) {
        ClosedStays(s, a, t);
      }
      match a
      case MainStep => OwnerDrops(s, t);
      case AcceptStep => AcceptDrops(s, t);
      case RecvOk(n, value) => RecvShape(s, n, value, t);
      case TxTake => TakeDrops(s);
      case SendOk(w) => SendLog(s, w, t);
      case TxFinish => FinishCloses(s);
      case PutCall(f) => PutCallLog(s, f);
      case PutStep => PutDrops(s, t);
      case _ =>
    }
  }

  lemma OwnerDrops(s: State, t: State)
    requires StartInv(s) && NextMain(s) == Some(t)
    ensures t.h.log == s.h.log || Transmit.Closed(t.tx, t.snd)
  {
  }

  lemma AcceptDrops(s: State, t: State)
    requires NextAccept(s) == Some(t)
    ensures t.h.log == s.h.log
  {
  }

  lemma TakeDrops(s: State)
    requires DropOldest.DropsLate(s.h.log, MAX_SEND_QUEUE_PACKETS)
    ensures DropOldest.DropsLate(TakeStep(s).h.log, MAX_SEND_QUEUE_PACKETS)
  {
  }

  lemma FinishCloses(s: State)
    ensures Transmit.Closed(Quenched(s).tx, TxDone)
  {
  }

  lemma PutDrops(s: State, t: State)
    requires NextPut(s) == Some(t) && Transmit.WindowInv(s.tx, s.h)
    requires DropOldest.DropsLate(s.h.log, MAX_SEND_QUEUE_PACKETS)
    ensures DropOldest.DropsLate(t.h.log, MAX_SEND_QUEUE_PACKETS)
  {
    if s.put.Locking? {
      DropOldest.PushDropsLate(s.h.log, s.tx.queue, s.put.pkt, MAX_SEND_QUEUE_PACKETS);
    }
  }

  lemma {:induction false} FullDropsAlways(states: seq<State>, acts: seq<Action>, i: nat)
    requires Run(states, acts) && i < |states|
    ensures FullDrops(states[i])
  {
    hide FullDrops, StartInv, JoinInv, SocketInv, OwnedInv, GateInv, Next, Init, Steps, Transmit.WindowInv;
    hide Transmit.ClockInv, Transmit.LateInv, Transmit.LogInv, Transmit.WireInv;
    if i == 0 {
      NoDropsFirst(states[0]);
    } else {
      FullDropsAlways(states, acts, i - 1);
      ThreadInvAlways(states, acts, i - 1);
      Transmit.GoodAlways(states, acts, i - 1);
      StepAt(states, acts, i - 1);
      FullDropsStep(states[i - 1], acts[i - 1], states[i]);
    }
  }

  lemma NoDropsFirst(s: State)
    requires Init(s)
    ensures FullDrops(s)
  {
  }

  /** While the gate is open a packet was dropped only if 25 newer ones were queued behind it; so up to
      25 packets none is. */
  lemma DropsOnlyWhenFull(s: State)
    requires Reachable(s) && s.tx.txActive && !s.tx.stopFlag
    ensures forall k :: k in s.h.log.dropped ==> k + 25 < |s.h.log.all|
    ensures |s.h.log.all| <= 25 ==> s.h.log.dropped == []
  {
    var states, acts :| Run(states, acts) && states[|states| - 1] == s;
    FullDropsAlways(states, acts, |states| - 1);
    if s.h.log.dropped != [] {
      assert s.h.log.dropped[0] in s.h.log.dropped;
    }
  }

  // ---------------------------------------------------------------- calls and offers

  /** The frames of the put calls among the first `i` actions made since the tx thread was started. */
  function Offered(states: seq<State>, acts: seq<Action>, i: nat): seq<Offer>
    requires i <= |acts| <= |states|
  {
    if i == 0 then []
    else Offered(states, acts, i - 1) +
         if acts[i - 1].PutCall? && states[i - 1].snd != NoTx then [acts[i - 1].f] else []
  }

  /** How many put calls among them were made before. */
  function Early(states: seq<State>, acts: seq<Action>, i: nat): nat
    requires i <= |acts| <= |states|
  {
    if i == 0 then 0
    else Early(states, acts, i - 1) + if acts[i - 1].PutCall? && states[i - 1].snd == NoTx then 1 else 0
  }

  function InFlight(put: PutPc): seq<Offer> {
    match put
    case CheckStop(f) => [f]
    case Encoding(f) => [f]
    case _ => []
  }

  /** Until the gate is shut for good, every call since activation was encoded, or is about to be. */
  ghost predicate OffersInv(s: State, offered: seq<Offer>, early: nat) {
    && s.h.n0 == early
    && (s.snd == NoTx ==> offered == [] && s.h.offers == [] && s.put == Idle)
    && (!Transmit.Closed(s.tx, s.snd) ==> s.h.offers + InFlight(s.put) == offered)
  }

  lemma OffersStep(s: State, a: Action, t: State, offered: seq<Offer>, early: nat)
    requires StartInv(s) && GateInv(s) && OffersInv(s, offered, early) && Next(s, a) == Some(t)
    ensures OffersInv(t, offered + if a.PutCall? && s.snd != NoTx then [a.f] else [],
                      early + if a.PutCall? && s.snd == NoTx then 1 else 0)
  {
    hide NextMain, NextAccept, NextRecv, NextSend, NextPut, TakeStep, PutCallStep, Encode, Built, Transmit.Closed;
    if Transmit.Closed(s.tx, s.snd) {
      ClosedStays(s, a, t);
    }
    if a.PutCall? {
      PutCallOffers(s, a.f);
    } else if a == PutStep {
      PutOffers(s, t);
    } else {
      OthersOffer(s, a, t);
    }
    assert offered + [] == offered;
  }

  lemma OthersOffer(s: State, a: Action, t: State)
    requires Next(s, a) == Some(t) && !a.PutCall? && a != PutStep
    ensures t.h.n0 == s.h.n0 && t.h.offers == s.h.offers && t.put == s.put
    ensures t.snd == NoTx ==> s.snd == NoTx
  {
    hide NextRecv, NextSend, NextPut, PutCallStep;
    match a
    case RecvOk(n, value) => RecvShape(s, n, value, t);
    case SendOk(w) => SendStarted(s, w, t); SendOffers(s, w, t);
    case _ =>
  }

  lemma SendOffers(s: State, w: nat, t: State)
    requires NextSend(s, w) == Some(t)
    ensures t.h.n0 == s.h.n0 && t.h.offers == s.h.offers && t.put == s.put
  {
  }

  lemma PutCallOffers(s: State, f: Offer)
    requires s.put == Idle && (s.tx.txActive ==> s.snd != NoTx)
    ensures var t := PutCallStep(s, f);
            && t.snd == s.snd && t.h.offers == s.h.offers && t.h.n0 == s.h.n0 + (if s.snd == NoTx then 1 else 0)
            && (s.snd == NoTx ==> t.put == Idle)
            && (s.snd != NoTx && !Transmit.Closed(t.tx, t.snd) ==>
                  t.put == CheckStop(f) && !Transmit.Closed(s.tx, s.snd))
            && (s.snd == NoTx && !Transmit.Closed(t.tx, t.snd) ==> !Transmit.Closed(s.tx, s.snd))
  {
  }

  lemma PutOffers(s: State, t: State)
    requires NextPut(s) == Some(t)
    ensures t.h.n0 == s.h.n0 && (t.snd == NoTx <==> s.snd == NoTx) && s.put != Idle
    ensures !Transmit.Closed(t.tx, t.snd) ==>
              t.h.offers + InFlight(t.put) == s.h.offers + InFlight(s.put)
  {
    hide Encode, Built;
    if s.put.Encoding? {
      EncodeKeepsGate(s.tx, s.put.f);
      assert InFlight(t.put) == [];
    }
  }

  lemma {:induction false} OffersAlways(states: seq<State>, acts: seq<Action>, i: nat)
    requires Run(states, acts) && i < |states|
    ensures OffersInv(states[i], Offered(states, acts, i), Early(states, acts, i))
  {
    hide OffersInv, StartInv, JoinInv, SocketInv, OwnedInv, GateInv, Next, Init, Steps;
    if i == 0 {
      NoOffersFirst(states[0]);
    } else {
      OffersAlways(states, acts, i - 1);
      ThreadInvAlways(states, acts, i - 1);
      StepAt(states, acts, i - 1);
      OffersStep(states[i - 1], acts[i - 1], states[i], Offered(states, acts, i - 1), Early(states, acts, i - 1));
    }
  }

  lemma NoOffersFirst(s: State)
    requires Init(s)
    ensures OffersInv(s, [], 0)
  {
  }

  /** No call is lost: in every interleaving, with the gate open and no call under way, the frames encoded
      are those of all put calls since the tx thread was started, in order; and the clock offset
      counts exactly the calls before. */
  lemma OffersAreCalls(states: seq<State>, acts: seq<Action>, i: nat)
    requires Run(states, acts) && i < |states|
    ensures states[i].h.n0 == Early(states, acts, i)
    ensures states[i].tx.txActive && !states[i].tx.stopFlag && states[i].put == Idle ==>
              states[i].h.offers == Offered(states, acts, i)
  {
    OffersAlways(states, acts, i);
    ThreadInvAlways(states, acts, i);
  }

  /** End to end over a run, in terms of calls alone: nothing dropped, queue drained, gate open and no call
      under way, the i-th frame received is what is heard of the i-th call since activation. */
  lemma CallsAreHeard(states: seq<State>, acts: seq<Action>)
    requires Run(states, acts)
    requires var s := states[|acts|];
             && s.tx.txActive && !s.tx.stopFlag && s.put == Idle && s.h.log.dropped == [] && s.tx.queue == []
             && (s.snd == TxTop || s.snd == TxLock || s.snd.TxWait?)
    ensures var calls, heard := Offered(states, acts, |acts|), RxPath.Received(states[|acts|].h.wire);
            && |heard| == |calls| / 2 * 2
            && forall i :: 0 <= i < |heard| ==> Hears(calls[i], heard[i])
  {
    hide Hears, RxPath.Received, Next, Init, Steps;
    OffersAreCalls(states, acts, |acts|);
    assert Reachable(states[|acts|]);
    PcmLossless(states[|acts|]);
  }

  // ---------------------------------------------------------------- every session can be had

  /** Open for business with everything sent: the tx thread asleep on an empty queue, nothing ever dropped. */
  ghost predicate Ready(s: State, offers: seq<Offer>) {
    && s.tx.txActive && !s.tx.stopFlag && s.put == Idle && s.snd == TxWait(false) && s.tx.queue == []
    && s.h.log.dropped == [] && s.h.log.ids == [] && s.h.offers == offers && TxSock(s.mode) !in s.shut
  }

  ghost predicate SameSession(s: State, t: State) {
    t.mode == s.mode && t.tx.ssrc == s.tx.ssrc && t.h.n0 == s.h.n0
  }

  /** A put call behind an open gate gets as far as encoding. */
  lemma CallBegins(s: State, f: Offer) returns (t: State)
    requires Reachable(s) && s.tx.txActive && !s.tx.stopFlag && s.put == Idle && s.snd != NoTx
    ensures Reachable(t) && t == s.(put := Encoding(f))
  {
    hide Reachable;
    t := Then(s, PutCall(f));
    t := Then(t, PutStep);
  }

  /** Encoding ends the call, or leaves a packet to queue. */
  lemma CallEncodes(s: State, f: Offer) returns (t: State)
    requires Reachable(s) && s.put == Encoding(f)
    ensures Reachable(t)
    ensures t == s.(tx := t.tx, put := t.put, h := s.h.(offers := s.h.offers + [f]))
    ensures t.tx == s.tx.(acc := t.tx.acc, sequence := t.tx.sequence,
                          timestamp := t.tx.timestamp, batchTs := t.tx.batchTs)
    ensures t.put == Idle || (t.put.Locking? && t.put.pkt != [])
  {
    hide Reachable, Encoded, Rtp.Header;
    t := Then(s, PutStep);
  }

  lemma CallQueues(s: State) returns (t: State)
    requires Reachable(s) && s.put.Locking? && s.tx.txActive && !s.tx.stopFlag
    requires s.tx.queue == [] && s.h.log.ids == [] && s.snd == TxWait(false)
    ensures Reachable(t)
    ensures t == s.(tx := s.tx.(queue := [s.put.pkt]), put := Idle, snd := TxWait(true), h := s.h.(log := t.h.log))
    ensures t.h.log.ids == [|s.h.log.all|] && t.h.log.dropped == s.h.log.dropped
  {
    hide Reachable;
    t := Then(s, PutStep);
  }

  lemma ThreadTakes(s: State, pkt: seq<byte>) returns (t: State)
    requires Reachable(s) && !s.tx.stopFlag && s.tx.queue == [pkt] && |s.h.log.ids| == 1 && s.snd == TxWait(true)
    ensures Reachable(t)
    ensures t == s.(tx := s.tx.(queue := []), snd := TxSend(pkt, 0), h := s.h.(log := t.h.log))
    ensures t.h.log.ids == [] && t.h.log.dropped == s.h.log.dropped
  {
    hide Reachable;
    t := Then(s, TxTake);
  }

  lemma ThreadSends(s: State, pkt: seq<byte>) returns (t: State)
    requires Reachable(s) && s.snd == TxSend(pkt, 0) && pkt != [] && TxSock(s.mode) !in s.shut
    ensures Reachable(t) && t == s.(snd := TxTop, h := s.h.(wire := t.h.wire))
  {
    hide Reachable;
    assert |Framing.FrameBytes(pkt)| == 2 + |pkt|;
    t := Then(s, SendOk(2));
    t := Then(t, SendOk(|pkt|));
  }

  lemma ThreadSleeps(s: State) returns (t: State)
    requires Reachable(s) && s.snd == TxTop && !s.tx.stopFlag && s.tx.queue == []
    ensures Reachable(t) && t == s.(snd := TxWait(false))
  {
    hide Reachable;
    t := Then(s, TxPoll);
    t := Then(t, TxTake);
  }

  /** One more frame offered, encoded and, with its packet full, sent. */
  lemma OneMoreFrame(s: State, offers: seq<Offer>, f: Offer) returns (t: State)
    requires Reachable(s) && Ready(s, offers)
    ensures Reachable(t) && Ready(t, offers + [f]) && SameSession(s, t)
  {
    hide Reachable;
    t := CallBegins(s, f);
    t := CallEncodes(t, f);
    if t.put != Idle {
      var pkt := t.put.pkt;
      t := CallQueues(t);
      t := ThreadTakes(t, pkt);
      t := ThreadSends(t, pkt);
      t := ThreadSleeps(t);
    }
  }

  /** Not started yet, after some calls that found the gate shut. */
  ghost predicate Idling(s: State, early: nat) {
    && s.main == Begin && s.accept == NoAccept && s.rx == NoRx && s.snd == NoTx && s.put == Idle
    && !s.tx.stopFlag && !s.tx.txActive && s.tx.queue == [] && s.shut == {}
    && s.h.log.dropped == [] && s.h.log.ids == [] && s.h.offers == [] && s.h.n0 == early
  }

  lemma {:induction false} EarlyCalls(mode: Mode, ssrc: uint32, early: nat) returns (s: State)
    ensures Reachable(s) && Idling(s, early) && s.mode == mode && s.tx.ssrc == ssrc
  {
    hide Reachable;
    if early == 0 {
      s := Start(mode, ssrc);
    } else {
      s := EarlyCalls(mode, ssrc, early - 1);
      s := Then(s, PutCall(Offer(true, [])));
    }
  }

  lemma OpenPassive(s: State, early: nat) returns (t: State)
    requires Reachable(s) && Idling(s, early) && s.mode == Passive
    ensures Reachable(t) && Opened(t) && SameSession(s, t)
  {
    hide Reachable;
    t := Then(s, Boot(true));
    t := Then(t, MainStep);
    t := Then(t, MainStep);
  }

  lemma OpenSplit(s: State, early: nat) returns (t: State)
    requires Reachable(s) && Idling(s, early) && s.mode == Split
    ensures Reachable(t) && Opened(t) && SameSession(s, t)
  {
    hide Reachable;
    t := Then(s, Boot(true));
    t := Then(t, MainStep);
  }

  lemma OpenActive(s: State, early: nat) returns (t: State)
    requires Reachable(s) && Idling(s, early) && s.mode == Active
    ensures Reachable(t) && Opened(t) && SameSession(s, t)
  {
    hide Reachable;
    t := Then(s, Boot(true));
    t := Then(t, MainStep);
    t := Then(t, AcceptOk);
    t := Then(t, AcceptStep);
    t := Then(t, AcceptStep);
    t := Then(t, AcceptStep);
  }

  /** The tx thread has just been started. */
  ghost predicate Opened(s: State) {
    && s.tx.txActive && !s.tx.stopFlag && s.put == Idle && s.snd == TxTop && s.tx.queue == []
    && s.h.log.dropped == [] && s.h.log.ids == [] && s.h.offers == [] && TxSock(s.mode) !in s.shut
  }

  lemma Open(mode: Mode, ssrc: uint32, early: nat) returns (s: State)
    ensures Reachable(s) && Ready(s, []) && s.mode == mode && s.tx.ssrc == ssrc && s.h.n0 == early
  {
    hide Reachable, Opened, Ready;
    s := EarlyCalls(mode, ssrc, early);
    match mode {
      case Passive => s := OpenPassive(s, early);
      case Split => s := OpenSplit(s, early);
      case Active => s := OpenActive(s, early);
    }
    s := OpenedSleeps(s);
  }

  lemma OpenedSleeps(s: State) returns (t: State)
    requires Reachable(s) && Opened(s)
    ensures Reachable(t) && Ready(t, []) && SameSession(s, t)
  {
    hide Reachable;
    t := ThreadSleeps(s);
  }

  lemma {:induction false} SessionRuns(mode: Mode, ssrc: uint32, early: nat, offers: seq<Offer>) returns (s: State)
    ensures Reachable(s) && Ready(s, offers) && s.mode == mode && s.tx.ssrc == ssrc && s.h.n0 == early
  {
    hide Reachable, Ready;
    if offers == [] {
      s := Open(mode, ssrc, early);
    } else {
      var n := |offers| - 1;
      s := SessionRuns(mode, ssrc, early, offers[..n]);
      s := OneMoreFrame(s, offers[..n], offers[n]);
      assert offers[..n] + [offers[n]] == offers;
    }
  }

  /** Every session can be had: in every mode, after any number of early calls, for every list of frames a
      run offers exactly these, drops none, and puts on the wire what a receiver hears as all of them
      but an odd last one. */
  lemma SessionHappens(mode: Mode, ssrc: uint32, early: nat, offers: seq<Offer>) returns (s: State)
    ensures Reachable(s) && s.mode == mode && s.tx.ssrc == ssrc && s.h.n0 == early && s.h.offers == offers
    ensures |s.h.log.all| == |offers| / 2 && s.h.log.dropped == [] && |s.h.log.popped| == |offers| / 2
    ensures |RxPath.Received(s.h.wire)| == |offers| / 2 * 2
    ensures forall i :: 0 <= i < |offers| / 2 * 2 ==> Hears(offers[i], RxPath.Received(s.h.wire)[i])
  {
    hide Hears, RxPath.Received, Reachable;
    s := SessionRuns(mode, ssrc, early, offers);
    PcmLossless(s);
    Drained(s);
    AllLogged(s);
  }

  lemma AllLogged(s: State)
    requires Reachable(s) && GateOpen(s.tx) && s.put == Idle
    ensures |s.h.log.all| == |s.h.offers| / 2
  {
    Transmit.ReachableGood(s);
    ReachableThreadInv(s);
  }
}
