/** Threads, sockets and the gate: what every interleaving of start, stop, accept, rx, tx and put
    keeps, and why stop always completes. */
module Shutdown {
  import opened Basics
  import opened TxPath
  import opened Protocol
  import DropOldest

  function Order(m: Main): nat {
    match m
    case Begin => 0 case SpawnRx => 1 case StartTx => 2 case SpawnAccept => 3 case Up => 4
    case SetFlag => 5 case QuenchQueue => 6 case CloseListen => 7 case CloseClient => 8 case CloseRx => 9
    case JoinAccept => 10 case JoinRx => 11 case JoinTx => 12 case Stopped => 13
  }

  /** The owner is past a stage of `stop`, now or in an earlier call of it. */
  predicate Past(s: State, m: Main) {
    s.stops > 0 || Order(s.main) > Order(m)
  }

  predicate AcceptOver(s: State) { s.accept == NoAccept || s.accept == AccDone }
  predicate RxOver(s: State) { s.rx == NoRx || s.rx == RxDone }
  predicate TxOver(s: State) { s.snd == NoTx || s.snd == TxDone }

  /** The rx thread is past its flag poll, inside a loop round. */
  predicate Receiving(r: RxPc) {
    r.RxLen? || r.RxBody? || r.RxStore?
  }

  /** No accepted socket has been stored in a field yet. */
  predicate NotStored(p: AcceptPc) {
    p == NoAccept || p == AccCall || p == AccStore
  }

  /** Start-up hands each thread over once: who may still be missing, and what is already open. */
  ghost predicate StartInv(s: State) {
    && (s.main == Begin ==> !s.listenFd && s.clientFd == None && s.rxFd == None && s.owned == {})
    && (Order(s.main) <= 3 ==> s.accept == NoAccept && s.stops == 0)
    && (!Past(s, CloseListen) ==> s.shut == {})
    && (Order(s.main) <= 2 ==> s.snd == NoTx)
    && (Order(s.main) <= 1 || (s.mode != Passive && s.accept != AccStartTx && s.accept != AccDone) ==> s.rx == NoRx)
    && (s.main == SpawnRx ==> s.mode == Passive)
    && (s.main == StartTx ==> s.mode != Active)
    && ((s.main == SpawnRx || s.main == StartTx) ==> s.clientFd == Some(OutSock))
    && (s.main == SpawnAccept || (s.main == StartTx && s.mode == Split) ==> s.mode != Passive && s.listenFd)
    && (s.mode == Passive ==> s.accept == NoAccept)
    && (s.mode == Active && s.accept != AccDone ==> s.snd == NoTx)
    && (s.accept == AccStartTx ==> s.mode == Active)
    && (s.stops > 0 ==> Order(s.main) >= 5)
    && (s.main == Stopped ==> s.stops > 0)
    && (s.tx.stopFlag <==> Past(s, SetFlag))
  }

  /** Stop joins accept, then rx, then tx: once joined, a thread neither runs nor is spawned again. */
  ghost predicate JoinInv(s: State) {
    && (Past(s, JoinAccept) ==> AcceptOver(s))
    && (Past(s, JoinRx) ==> RxOver(s))
    && (Past(s, JoinTx) ==> TxOver(s))
  }

  /** A socket a thread works on is held in its field or shut down; a field filled after `stop`
      looked at it belongs to threads that will see the flag before they touch the socket. */
  ghost predicate SocketInv(s: State) {
    && (s.listenFd ==> s.mode != Passive && ListenSock !in s.shut)
    && (s.accept != NoAccept ==> s.listenFd || ListenSock in s.shut)
    && (Past(s, CloseListen) ==> !s.listenFd)
    && (s.clientFd.Some? ==> s.clientFd.value == TxSock(s.mode))
    && (s.rxFd.Some? ==> s.mode == Split && s.rxFd.value == AcceptedSock)
    && (s.snd != NoTx || s.accept == AccStartTx || (s.accept == AccSpawnRx && s.mode == Active) ==>
          s.clientFd.Some? || TxSock(s.mode) in s.shut)
    && (s.rx != NoRx || s.accept == AccSpawnRx ==>
          (if s.mode == Split then s.rxFd.Some? else s.clientFd.Some?) || RxSock(s.mode) in s.shut)
    && (Past(s, CloseClient) && s.clientFd.Some? ==>
          s.mode == Active && s.snd == NoTx && !Receiving(s.rx))
    && (Past(s, CloseRx) && s.rxFd.Some? ==> !Receiving(s.rx))
    && (NotStored(s.accept) ==> s.rxFd == None && (s.mode == Active ==> s.clientFd == None))
  }

  /** Sockets still open are exactly accounted for, and a second `stop` closes the last one. */
  ghost predicate OwnedInv(s: State) {
    && (ListenSock in s.owned ==> s.listenFd || ListenSock in s.shut)
    && (OutSock in s.owned ==> s.clientFd == Some(OutSock) || OutSock in s.shut)
    && (AcceptedSock in s.owned ==> s.accept == AccStore || s.clientFd == Some(AcceptedSock)
                                     || s.rxFd == Some(AcceptedSock) || AcceptedSock in s.shut)
    && (s.accept == AccStore ==> AcceptedSock in s.owned)
    && (NotStored(s.accept) ==> AcceptedSock !in s.shut)
    && (s.clientFd.Some? ==> s.clientFd.value in s.owned && s.clientFd.value !in s.shut)
    && (s.rxFd.Some? ==> s.rxFd.value in s.owned && s.rxFd.value !in s.shut)
    && (s.stops >= 2 || (s.stops == 1 && 8 < Order(s.main) < 13) ==> s.clientFd == None)
    && (s.stops >= 2 || (s.stops == 1 && 9 < Order(s.main) < 13) ==> s.rxFd == None)
  }

  /** The gate between producer and sender. */
  ghost predicate GateInv(s: State) {
    && (!s.tx.txActive ==> s.tx.queue == [])
    && (s.tx.txActive ==> s.snd != NoTx && s.snd != TxDone)
    && (s.snd == TxTop || s.snd == TxLock || s.snd.TxWait? || s.snd.TxSend? ==> s.tx.txActive || s.tx.stopFlag)
    && (Past(s, QuenchQueue) ==> !s.tx.txActive)
    && (s.snd == TxWait(false) ==> s.tx.queue == [] && !Past(s, QuenchQueue))
  }

  ghost predicate ThreadInv(s: State) {
    StartInv(s) && JoinInv(s) && SocketInv(s) && OwnedInv(s) && GateInv(s)
  }

  lemma ThreadInvInit(s: State)
    requires Init(s)
    ensures ThreadInv(s)
  {
  }

  /** The rx thread moves on its own; it never starts a round after the flag is up. */
  lemma RxMoves(s: State, r: RxPc)
    requires ThreadInv(s) && !RxOver(s) && r != NoRx
    requires Receiving(r) ==> Receiving(s.rx) || !s.tx.stopFlag
    ensures ThreadInv(s.(rx := r))
  {
    hide StartInv, JoinInv, SocketInv, OwnedInv, GateInv;
    RxMovesThreads(s, r);
    RxMovesSockets(s, r);
  }

  lemma RxMovesThreads(s: State, r: RxPc)
    requires StartInv(s) && JoinInv(s) && OwnedInv(s) && GateInv(s) && !RxOver(s) && r != NoRx
    ensures StartInv(s.(rx := r)) && JoinInv(s.(rx := r)) && OwnedInv(s.(rx := r)) && GateInv(s.(rx := r))
  {
  }

  lemma RxMovesSockets(s: State, r: RxPc)
    requires StartInv(s) && SocketInv(s) && s.rx != NoRx
    requires Receiving(r) ==> Receiving(s.rx) || !s.tx.stopFlag
    ensures SocketInv(s.(rx := r))
  {
  }

  /** Steps of the tx thread and of put calls touch neither the owner, nor rx, nor any socket. */
  lemma DataMoves(s: State, t: State)
    requires ThreadInv(s) && GateInv(t)
    requires t == s.(snd := t.snd, tx := t.tx, h := t.h, put := t.put)
    requires t.tx.stopFlag == s.tx.stopFlag
    requires s.snd == NoTx <==> t.snd == NoTx
    requires s.snd == TxDone ==> t.snd == TxDone
    ensures ThreadInv(t)
  {
  }

  lemma RecvShape(s: State, n: nat, value: nat, t: State)
    requires NextRecv(s, n, value) == Some(t)
    ensures t == s.(rx := t.rx) && Receiving(s.rx) && t.rx != NoRx
  {
  }

  lemma TakeKeeps(s: State, t: State)
    requires ThreadInv(s) && (s.snd == TxLock || s.snd.TxWait?) && t == TakeStep(s)
    ensures ThreadInv(t)
  {
    DataMoves(s, t);
  }

  lemma SendKeeps(s: State, w: nat, t: State)
    requires ThreadInv(s) && NextSend(s, w) == Some(t)
    ensures ThreadInv(t)
  {
    DataMoves(s, t);
  }

  lemma FinishKeeps(s: State)
    requires ThreadInv(s) && s.snd == TxCleanup
    ensures ThreadInv(Quenched(s).(snd := TxDone))
  {
    DataMoves(s, Quenched(s).(snd := TxDone));
  }

  lemma PutCallKeeps(s: State, f: Offer)
    requires ThreadInv(s)
    ensures ThreadInv(PutCallStep(s, f))
  {
    DataMoves(s, PutCallStep(s, f));
  }

  lemma PutKeeps(s: State, t: State)
    requires ThreadInv(s) && NextPut(s) == Some(t)
    ensures ThreadInv(t)
  {
    if s.put.Encoding? {
      EncodeKeepsGate(s.tx, s.put.f);
    }
    DataMoves(s, t);
  }

  lemma EncodeKeepsGate(x: Tx, f: Offer)
    ensures var y := Encode(x, f);
            y.stopFlag == x.stopFlag && y.txActive == x.txActive && y.queue == x.queue && y.ssrc == x.ssrc
  {
  }

  lemma BootKeeps(s: State, ok: bool)
    requires ThreadInv(s) && s.main == Begin
    ensures ThreadInv(BootStep(s, ok))
  {
  }

  lemma AcceptKeeps(s: State, t: State)
    requires ThreadInv(s) && NextAccept(s) == Some(t)
    ensures ThreadInv(t)
  {
    if s.accept == AccStore { StoreKeeps(s, t); }
    else if s.accept == AccSpawnRx { SpawnRxKeeps(s, t); }
    else { StartTxKeeps(s, t); }
  }

  lemma StoreThreads(s: State, t: State)
    requires StartInv(s) && JoinInv(s) && GateInv(s) && s.accept == AccStore && NextAccept(s) == Some(t)
    ensures StartInv(t) && JoinInv(t) && GateInv(t)
  {
  }

  lemma StoreSockets(s: State, t: State)
    requires StartInv(s) && JoinInv(s) && SocketInv(s) && OwnedInv(s)
    requires s.accept == AccStore && NextAccept(s) == Some(t)
    ensures SocketInv(t) && OwnedInv(t)
  {
  }

  lemma StoreKeeps(s: State, t: State)
    requires ThreadInv(s) && s.accept == AccStore && NextAccept(s) == Some(t)
    ensures ThreadInv(t)
  {
    hide StartInv, JoinInv, SocketInv, OwnedInv, GateInv, NextAccept;
    StoreThreads(s, t);
    StoreSockets(s, t);
  }

  lemma SpawnRxKeeps(s: State, t: State)
    requires ThreadInv(s) && s.accept == AccSpawnRx && NextAccept(s) == Some(t)
    ensures ThreadInv(t)
  {
  }

  lemma StartTxThreads(s: State, t: State)
    requires StartInv(s) && JoinInv(s) && GateInv(s) && s.accept == AccStartTx && NextAccept(s) == Some(t)
    ensures StartInv(t) && JoinInv(t) && GateInv(t)
  {
  }

  lemma StartTxSockets(s: State, t: State)
    requires StartInv(s) && SocketInv(s) && OwnedInv(s) && s.accept == AccStartTx && NextAccept(s) == Some(t)
    ensures SocketInv(t) && OwnedInv(t)
  {
  }

  lemma StartTxKeeps(s: State, t: State)
    requires ThreadInv(s) && s.accept == AccStartTx && NextAccept(s) == Some(t)
    ensures ThreadInv(t)
  {
    hide StartInv, JoinInv, SocketInv, OwnedInv, GateInv, NextAccept;
    StartTxThreads(s, t);
    StartTxSockets(s, t);
  }

  lemma AcceptCallKeeps(s: State)
    requires ThreadInv(s) && s.accept == AccCall
    ensures ListenSock !in s.shut ==> ThreadInv(s.(accept := AccStore, owned := s.owned + {AcceptedSock}))
    ensures ThreadInv(s.(accept := AccDone))
  {
  }

  lemma CallStopThreads(s: State, t: State)
    requires StartInv(s) && JoinInv(s) && GateInv(s) && (s.main == Up || s.main == Stopped) && t == s.(main := SetFlag)
    ensures StartInv(t) && JoinInv(t) && GateInv(t)
  {
  }

  lemma CallStopSockets(s: State, t: State)
    requires StartInv(s) && SocketInv(s) && OwnedInv(s)
    requires (s.main == Up || s.main == Stopped) && t == s.(main := SetFlag)
    ensures SocketInv(t) && OwnedInv(t)
  {
  }

  lemma CallStopKeeps(s: State)
    requires ThreadInv(s) && (s.main == Up || s.main == Stopped)
    ensures ThreadInv(s.(main := SetFlag))
  {
    hide StartInv, JoinInv, SocketInv, OwnedInv, GateInv;
    CallStopThreads(s, s.(main := SetFlag));
    CallStopSockets(s, s.(main := SetFlag));
  }

  /** The owner's steps in start that spawn a thread. */
  lemma SpawnThreads(s: State, t: State)
    requires StartInv(s) && JoinInv(s) && GateInv(s) && NextMain(s) == Some(t) && 1 <= Order(s.main) <= 3
    ensures StartInv(t) && JoinInv(t) && GateInv(t)
  {
  }

  lemma SpawnSockets(s: State, t: State)
    requires StartInv(s) && SocketInv(s) && NextMain(s) == Some(t) && 1 <= Order(s.main) <= 3
    ensures SocketInv(t)
  {
  }

  lemma SpawnOwned(s: State, t: State)
    requires StartInv(s) && OwnedInv(s) && NextMain(s) == Some(t) && 1 <= Order(s.main) <= 3
    ensures OwnedInv(t)
  {
  }

  lemma SpawnKeeps(s: State, t: State)
    requires ThreadInv(s) && NextMain(s) == Some(t) && 1 <= Order(s.main) <= 3
    ensures ThreadInv(t)
  {
    hide StartInv, JoinInv, SocketInv, OwnedInv, GateInv, NextMain;
    SpawnThreads(s, t);
    SpawnSockets(s, t);
    SpawnOwned(s, t);
  }

  lemma FlagThreads(s: State, t: State)
    requires StartInv(s) && JoinInv(s) && GateInv(s) && NextMain(s) == Some(t) && s.main == SetFlag
    ensures StartInv(t) && JoinInv(t) && GateInv(t)
  {
  }

  lemma FlagSockets(s: State, t: State)
    requires SocketInv(s) && OwnedInv(s) && NextMain(s) == Some(t) && s.main == SetFlag
    ensures SocketInv(t) && OwnedInv(t)
  {
  }

  lemma FlagKeeps(s: State, t: State)
    requires ThreadInv(s) && NextMain(s) == Some(t) && s.main == SetFlag
    ensures ThreadInv(t)
  {
    hide StartInv, JoinInv, SocketInv, OwnedInv, GateInv, NextMain;
    FlagThreads(s, t);
    FlagSockets(s, t);
  }

  lemma QuenchThreads(s: State, t: State)
    requires StartInv(s) && JoinInv(s) && GateInv(s) && NextMain(s) == Some(t) && s.main == QuenchQueue
    ensures StartInv(t) && JoinInv(t) && GateInv(t)
  {
  }

  lemma QuenchSockets(s: State, t: State)
    requires SocketInv(s) && OwnedInv(s) && NextMain(s) == Some(t) && s.main == QuenchQueue
    ensures SocketInv(t) && OwnedInv(t)
  {
  }

  lemma QuenchKeeps(s: State, t: State)
    requires ThreadInv(s) && NextMain(s) == Some(t) && s.main == QuenchQueue
    ensures ThreadInv(t)
  {
    hide StartInv, JoinInv, SocketInv, OwnedInv, GateInv, NextMain;
    QuenchThreads(s, t);
    QuenchSockets(s, t);
  }

  /** The fd stage: each step moves the owner on and touches only sockets. */
  lemma CloseMoves(s: State, t: State)
    requires StartInv(s) && JoinInv(s) && NextMain(s) == Some(t) && 7 <= Order(s.main) <= 9
    ensures StartInv(t) && JoinInv(t)
  {
    hide NextMain;
    CloseShape(s, t);
  }

  lemma CloseShape(s: State, t: State)
    requires NextMain(s) == Some(t) && 7 <= Order(s.main) <= 9
    ensures t == s.(main := t.main, listenFd := t.listenFd, clientFd := t.clientFd, rxFd := t.rxFd, shut := t.shut)
    ensures Order(t.main) == Order(s.main) + 1
  {
  }

  lemma CloseGate(s: State, t: State)
    requires GateInv(s) && NextMain(s) == Some(t) && 7 <= Order(s.main) <= 9
    ensures GateInv(t)
  {
    hide NextMain;
    CloseShape(s, t);
  }

  lemma CloseListenSockets(s: State, t: State)
    requires SocketInv(s) && NextMain(s) == Some(t) && s.main == CloseListen
    ensures SocketInv(t)
  {
  }

  lemma CloseClientSockets(s: State, t: State)
    requires SocketInv(s) && NextMain(s) == Some(t) && s.main == CloseClient
    ensures SocketInv(t)
  {
  }

  lemma CloseRxSockets(s: State, t: State)
    requires SocketInv(s) && NextMain(s) == Some(t) && s.main == CloseRx
    ensures SocketInv(t)
  {
  }

  lemma CloseSockets(s: State, t: State)
    requires SocketInv(s) && NextMain(s) == Some(t) && 7 <= Order(s.main) <= 9
    ensures SocketInv(t)
  {
    hide SocketInv, NextMain;
    match s.main
    case CloseListen => CloseListenSockets(s, t);
    case CloseClient => CloseClientSockets(s, t);
    case CloseRx => CloseRxSockets(s, t);
  }

  lemma CloseOwned(s: State, t: State)
    requires SocketInv(s) && OwnedInv(s) && NextMain(s) == Some(t) && 7 <= Order(s.main) <= 9
    ensures OwnedInv(t)
  {
    hide OwnedInv, NextMain;
    match s.main
    case CloseListen => CloseListenOwned(s, t);
    case CloseClient => CloseClientOwned(s, t);
    case CloseRx => CloseRxOwned(s, t);
  }

  lemma CloseListenOwned(s: State, t: State)
    requires OwnedInv(s) && SocketInv(s) && NextMain(s) == Some(t) && s.main == CloseListen
    ensures OwnedInv(t)
  {
  }

  lemma CloseClientOwned(s: State, t: State)
    requires OwnedInv(s) && SocketInv(s) && NextMain(s) == Some(t) && s.main == CloseClient
    ensures OwnedInv(t)
  {
  }

  lemma CloseRxOwned(s: State, t: State)
    requires OwnedInv(s) && SocketInv(s) && NextMain(s) == Some(t) && s.main == CloseRx
    ensures OwnedInv(t)
  {
  }

  lemma CloseKeeps(s: State, t: State)
    requires ThreadInv(s) && NextMain(s) == Some(t) && 7 <= Order(s.main) <= 9
    ensures ThreadInv(t)
  {
    hide StartInv, JoinInv, SocketInv, OwnedInv, GateInv, NextMain;
    CloseSockets(s, t);
    CloseOwned(s, t);
    CloseMoves(s, t);
    CloseGate(s, t);
  }

  lemma JoinMoves(s: State, t: State)
    requires StartInv(s) && JoinInv(s) && NextMain(s) == Some(t) && 10 <= Order(s.main) <= 12
    ensures StartInv(t) && JoinInv(t)
  {
    hide NextMain;
    JoinShape(s, t);
  }

  lemma JoinShape(s: State, t: State)
    requires NextMain(s) == Some(t) && 10 <= Order(s.main) <= 12
    ensures t == s.(main := t.main, stops := t.stops) && Order(t.main) == Order(s.main) + 1
    ensures t.stops == s.stops + (if t.main == Stopped then 1 else 0)
    ensures match s.main
            case JoinAccept => AcceptOver(s)
            case JoinRx => RxOver(s)
            case _ => TxOver(s)
  {
  }

  lemma JoinSockets(s: State, t: State)
    requires SocketInv(s) && NextMain(s) == Some(t) && 10 <= Order(s.main) <= 12
    ensures SocketInv(t)
  {
    hide NextMain;
    JoinShape(s, t);
  }

  lemma JoinGate(s: State, t: State)
    requires GateInv(s) && NextMain(s) == Some(t) && 10 <= Order(s.main) <= 12
    ensures GateInv(t)
  {
    hide NextMain;
    JoinShape(s, t);
  }

  lemma JoinOwned(s: State, t: State)
    requires OwnedInv(s) && NextMain(s) == Some(t) && 10 <= Order(s.main) <= 12
    ensures OwnedInv(t)
  {
    hide NextMain;
    JoinShape(s, t);
  }

  lemma JoinKeeps(s: State, t: State)
    requires ThreadInv(s) && NextMain(s) == Some(t) && 10 <= Order(s.main) <= 12
    ensures ThreadInv(t)
  {
    hide StartInv, JoinInv, SocketInv, OwnedInv, GateInv, NextMain;
    JoinMoves(s, t);
    JoinGate(s, t);
    JoinSockets(s, t);
    JoinOwned(s, t);
  }

  lemma StepKeeps(s: State, a: Action, t: State)
    requires ThreadInv(s) && Next(s, a) == Some(t)
    ensures ThreadInv(t)
  {
    hide StartInv, JoinInv, SocketInv, OwnedInv;
    match a
    case Boot(ok) => BootKeeps(s, ok);
    case CallStop => CallStopKeeps(s);
    case MainStep =>
      if Order(s.main) <= 3 { SpawnKeeps(s, t); }
      else if s.main == SetFlag { FlagKeeps(s, t); }
      else if s.main == QuenchQueue { QuenchKeeps(s, t); }
      else if Order(s.main) <= 9 { CloseKeeps(s, t); }
      else { JoinKeeps(s, t); }
    case AcceptOk => AcceptCallKeeps(s);
    case AcceptFail => AcceptCallKeeps(s);
    case AcceptStep => AcceptKeeps(s, t);
    case RxPoll => RxMoves(s, t.rx);
    case RecvOk(n, value) => RecvShape(s, n, value, t); RxMoves(s, t.rx);
    case RecvFail => RxMoves(s, RxDone);
    case RxStoreStep => RxMoves(s, t.rx);
    case TxPoll => DataMoves(s, t);
    case TxTake => TakeKeeps(s, t);
    case SendOk(w) => SendKeeps(s, w, t);
    case SendFail => DataMoves(s, t);
    case TxFinish => FinishKeeps(s);
    case PutCall(f) => PutCallKeeps(s, f);
    case PutStep => PutKeeps(s, t);
  }

  lemma StepAt(states: seq<State>, acts: seq<Action>, k: nat)
    requires Run(states, acts) && k < |acts|
    ensures Next(states[k], acts[k]) == Some(states[k + 1])
  {
    hide Next, Init;
  }

  lemma {:induction false} ThreadInvAlways(states: seq<State>, acts: seq<Action>, i: nat)
    requires Run(states, acts) && i < |states|
    ensures ThreadInv(states[i])
  {
    hide ThreadInv, Next, Init, Steps;
    if i == 0 {
      ThreadInvInit(states[0]);
    } else {
      ThreadInvAlways(states, acts, i - 1);
      StepAt(states, acts, i - 1);
      StepKeeps(states[i - 1], acts[i - 1], states[i]);
    }
  }

  lemma ReachableThreadInv(s: State)
    requires Reachable(s)
    ensures ThreadInv(s)
  {
    var states, acts :| Run(states, acts) && states[|states| - 1] == s;
    ThreadInvAlways(states, acts, |states| - 1);
  }

  // ---------------------------------------------------------------- the gate

  /** No lost wakeup: if the tx thread sleeps with no signal pending, there is nothing to send, and
      either stop has not begun or its signal is still to come. */
  lemma NoLostWakeup(s: State)
    requires Reachable(s) && s.snd == TxWait(false)
    ensures s.tx.queue == [] && (!s.tx.stopFlag || s.main == QuenchQueue)
  {
    ReachableThreadInv(s);
  }

  /** The queue has been closed for good: by stop's locked section or by the tx thread's own. */
  predicate GateShut(s: State) {
    Past(s, QuenchQueue) || s.snd == TxDone
  }

  lemma GateShutStays(s: State, a: Action, t: State)
    requires StartInv(s) && Next(s, a) == Some(t) && GateShut(s)
    ensures GateShut(t)
  {
    match a
    case MainStep => OwnerKeepsGateShut(s, t);
    case AcceptStep => AcceptKeepsGateShut(s, t);
    case _ =>
  }

  lemma OwnerKeepsGateShut(s: State, t: State)
    requires StartInv(s) && NextMain(s) == Some(t) && GateShut(s)
    ensures GateShut(t)
  {
    if s.main == StartTx {
      assert false;
    }
  }

  lemma AcceptKeepsGateShut(s: State, t: State)
    requires StartInv(s) && NextAccept(s) == Some(t) && GateShut(s)
    ensures GateShut(t)
  {
    assert t.main == s.main && t.stops == s.stops;
    if s.accept == AccStartTx {
      assert s.snd == NoTx;
    }
  }

  lemma GateShutIsQuiet(s: State)
    requires ThreadInv(s)
    ensures !s.tx.txActive ==> s.tx.queue == []
    ensures GateShut(s) ==> !s.tx.txActive && s.tx.queue == []
  {
  }

  lemma GateShutAlong(states: seq<State>, acts: seq<Action>, k: nat)
    requires Run(states, acts) && k < |acts|
    ensures GateShut(states[k]) ==> GateShut(states[k + 1])
  {
    ThreadInvAlways(states, acts, k);
    if GateShut(states[k]) {
      GateShutStays(states[k], acts[k], states[k + 1]);
    }
  }

  lemma {:induction false} Persists(p: State -> bool, states: seq<State>, i: nat, j: nat)
    requires i <= j < |states|
    requires forall k :: i <= k < j && p(states[k]) ==> p(states[k + 1])
    ensures p(states[i]) ==> p(states[j])
  {
    if i < j {
      Persists(p, states, i, j - 1);
    }
  }

  /** Quiet after shutdown: an inactive sender always has an empty queue, and once the gate is shut
      it stays inactive and empty, whatever put call was under way and whoever starts the tx thread late. */
  lemma QuietAfterShutdown(states: seq<State>, acts: seq<Action>, i: nat, j: nat)
    requires Run(states, acts) && i <= j < |states|
    ensures !states[j].tx.txActive ==> states[j].tx.queue == []
    ensures GateShut(states[i]) ==> !states[j].tx.txActive && states[j].tx.queue == []
  {
    ThreadInvAlways(states, acts, j);
    GateShutIsQuiet(states[j]);
    forall k | i <= k < j && GateShut(states[k])
      ensures GateShut(states[k + 1])
    {
      GateShutAlong(states, acts, k);
    }
    Persists(GateShut, states, i, j);
  }

  // ---------------------------------------------------------------- stop completes

  /** Steps of the owner inside start and stop and of the three threads; not the put callback, and
      not the decision to call stop. */
  predicate IsProtocol(a: Action) {
    !a.PutCall? && !a.PutStep? && !a.CallStop? && !a.Boot?
  }

  /** Steps that happen without any help from a peer: local code, lock sections, a wait that was
      signalled, and calls on a socket that was shut down, which fail. */
  predicate Forced(s: State, a: Action) {
    && Next(s, a).Some?
    && match a
       case MainStep => true
       case AcceptStep => true
       case AcceptFail => ListenSock in s.shut
       case RxPoll => true
       case RxStoreStep => true
       case RecvFail => RxSock(s.mode) in s.shut
       case TxPoll => true
       case TxTake => s.snd != TxWait(false)
       case SendFail => TxSock(s.mode) in s.shut
       case TxFinish => true
       case _ => false
  }

  function MainRank(m: Main): nat {
    if Order(m) < 5 then 0 else 13 - Order(m)
  }

  function AcceptRank(p: AcceptPc): nat {
    match p
    case NoAccept => 0 case AccDone => 0 case AccStartTx => 1 case AccSpawnRx => 3
    case AccStore => 4 case AccCall => 5
  }

  function RxRank(r: RxPc): nat {
    match r
    case NoRx => 0 case RxDone => 0 case RxTop => 1
    case RxStore(left) => 2 + left
    case RxBody(len, read) => 4 + (len + FRAME_SAMPLES - 1) / FRAME_SAMPLES + (if read < len then len - read else 0)
    case RxLen(got) => 66000 + (if got < 2 then 2 - got else 0)
  }

  function TxRank(t: TxPc): nat {
    match t
    case NoTx => 0 case TxDone => 0 case TxCleanup => 1 case TxTop => 2 case TxLock => 2 case TxWait(_) => 2
    case TxSend(pkt, sent) => 3 + (if sent < 2 + |pkt| then 2 + |pkt| - sent else 0)
  }

  /** How many steps the owner and the threads can still take once the stop flag is up. */
  function Rank(s: State): nat {
    MainRank(s.main) + AcceptRank(s.accept) + RxRank(s.rx) + TxRank(s.snd)
  }

  lemma RecvRank(s: State, n: nat, value: nat, t: State)
    requires NextRecv(s, n, value) == Some(t) && n > 0
    ensures RxRank(t.rx) < RxRank(s.rx) && t == s.(rx := t.rx)
  {
    if s.rx.RxBody? && t.rx.RxStore? {
      assert value <= (s.rx.len + FRAME_SAMPLES - 1) / FRAME_SAMPLES;
    }
  }

  lemma SendRank(s: State, w: nat, t: State)
    requires NextSend(s, w) == Some(t) && w > 0
    ensures TxRank(t.snd) < TxRank(s.snd) && t == s.(snd := t.snd, h := t.h)
  {
  }

  lemma OwnerRank(s: State, t: State)
    requires StartInv(s) && s.tx.stopFlag && NextMain(s) == Some(t)
    ensures MainRank(t.main) < MainRank(s.main) && t.tx.stopFlag
    ensures t.accept == s.accept && t.rx == s.rx && TxRank(t.snd) == TxRank(s.snd)
  {
    assert Order(s.main) >= 5;
  }

  lemma AcceptRankDecreases(s: State, t: State)
    requires StartInv(s) && s.tx.stopFlag && NextAccept(s) == Some(t)
    ensures AcceptRank(t.accept) + RxRank(t.rx) < AcceptRank(s.accept) + RxRank(s.rx)
    ensures t.main == s.main && t.snd == s.snd && t.tx.stopFlag
  {
  }

  lemma RankDecreases(s: State, a: Action, t: State)
    requires ThreadInv(s) && s.tx.stopFlag && Next(s, a) == Some(t) && IsProtocol(a)
    ensures Rank(t) < Rank(s) && t.tx.stopFlag
  {
    hide StartInv, JoinInv, SocketInv, OwnedInv, GateInv, NextMain, NextAccept, NextRecv, NextSend;
    match a
    case MainStep => OwnerRank(s, t);
    case AcceptStep => AcceptRankDecreases(s, t);
    case RecvOk(n, value) => RecvRank(s, n, value, t);
    case SendOk(w) => SendRank(s, w, t);
    case _ =>
  }

  lemma PutKeepsRank(s: State, a: Action, t: State)
    requires Next(s, a) == Some(t) && (a.PutCall? || a.PutStep?)
    ensures Rank(t) == Rank(s) && t.tx.stopFlag == s.tx.stopFlag
  {
    if s.put.Encoding? {
      EncodeKeepsGate(s.tx, s.put.f);
    }
  }

  /** Past the socket stage of `stop`, each thread that still waits for something waits for a socket
      that was shut down, or has been signalled. */
  lemma NothingBlocks(s: State)
    requires Reachable(s) && Past(s, CloseRx)
    ensures s.accept == AccCall ==> ListenSock in s.shut
    ensures s.rx.RxLen? || s.rx.RxBody? ==> RxSock(s.mode) in s.shut
    ensures s.snd.TxSend? ==> TxSock(s.mode) in s.shut
    ensures s.snd.TxWait? ==> s.snd == TxWait(true)
  {
    ReachableThreadInv(s);
    Unblocked(s);
  }

  lemma Unblocked(s: State)
    requires ThreadInv(s) && Past(s, CloseRx)
    ensures s.accept == AccCall ==> ListenSock in s.shut
    ensures s.rx.RxLen? || s.rx.RxBody? ==> RxSock(s.mode) in s.shut
    ensures s.snd.TxSend? ==> TxSock(s.mode) in s.shut
    ensures s.snd.TxWait? ==> s.snd == TxWait(true)
  {
  }

  /** Inside `stop` some forced step is always possible: the joins never wait for a stuck thread. */
  lemma NeverStuck(s: State) returns (a: Action)
    requires Reachable(s) && 5 <= Order(s.main) <= 12
    ensures Forced(s, a) && IsProtocol(a)
  {
    ReachableThreadInv(s);
    a := ForcedStep(s);
  }

  lemma ForcedStep(s: State) returns (a: Action)
    requires ThreadInv(s) && 5 <= Order(s.main) <= 12
    ensures Forced(s, a) && IsProtocol(a)
  {
    hide ThreadInv, NextAccept, TakeStep, Quenched;
    a := MainStep;
    if s.main == JoinAccept || s.main == JoinRx || s.main == JoinTx {
      Unblocked(s);
      if s.main == JoinAccept && !AcceptOver(s) {
        a := if s.accept == AccCall then AcceptFail else AcceptStep;
        AcceptRuns(s);
      } else if s.main == JoinRx && !RxOver(s) {
        a := if s.rx == RxTop then RxPoll else if s.rx.RxStore? then RxStoreStep else RecvFail;
      } else if s.main == JoinTx && !TxOver(s) {
        a := if s.snd == TxTop then TxPoll else if s.snd == TxCleanup then TxFinish
             else if s.snd.TxSend? then SendFail else TxTake;
      }
    }
  }

  lemma AcceptRuns(s: State)
    ensures NextAccept(s).Some? <==> s.accept == AccStore || s.accept == AccSpawnRx || s.accept == AccStartTx
  {
  }

  /** How many protocol steps a list of actions contains. */
  function ProtocolSteps(acts: seq<Action>): nat {
    if acts == [] then 0
    else ProtocolSteps(acts[..|acts| - 1]) + if IsProtocol(acts[|acts| - 1]) then 1 else 0
  }

  lemma NoBoot(s: State, a: Action, t: State)
    requires ThreadInv(s) && s.tx.stopFlag && Next(s, a) == Some(t)
    ensures !a.Boot?
  {
  }

  lemma {:induction false} StopIsBounded(states: seq<State>, acts: seq<Action>)
    requires Steps(states, acts) && ThreadInv(states[0]) && states[0].tx.stopFlag
    requires CallStop !in acts
    ensures var last := states[|acts|];
            ThreadInv(last) && last.tx.stopFlag && ProtocolSteps(acts) + Rank(last) <= Rank(states[0])
    decreases |acts|
  {
    hide ThreadInv, Rank, Next;
    var n := |acts|;
    if n > 0 {
      StopIsBounded(states[..n], acts[..n - 1]);
      var s, a, t := states[n - 1], acts[n - 1], states[n];
      StepKeeps(s, a, t);
      assert a in acts;
      NoBoot(s, a, t);
      if IsProtocol(a) {
        RankDecreases(s, a, t);
      } else {
        PutKeepsRank(s, a, t);
      }
    }
  }

  lemma StoppedIsOver(s: State)
    requires ThreadInv(s) && s.tx.stopFlag && !(5 <= Order(s.main) <= 12)
    ensures s.main == Stopped && AcceptOver(s) && RxOver(s) && TxOver(s)
  {
  }

  /** Stop always completes. From any reachable state with the flag up, in every interleaving and
      whatever the peers do, at most `Rank` more steps of the owner and the threads follow; and where
      they cannot go on by themselves, stop has returned and no thread is left. */
  lemma StopCompletes(states: seq<State>, acts: seq<Action>)
    requires Steps(states, acts) && Reachable(states[0]) && states[0].tx.stopFlag
    requires CallStop !in acts
    ensures ProtocolSteps(acts) <= Rank(states[0])
    ensures (forall a :: !Forced(states[|acts|], a)) ==>
              var last := states[|acts|];
              last.main == Stopped && AcceptOver(last) && RxOver(last) && TxOver(last)
  {
    hide ThreadInv, Rank, Next;
    ReachableThreadInv(states[0]);
    StopIsBounded(states, acts);
    var last := states[|acts|];
    if 5 <= Order(last.main) <= 12 {
      var a := ForcedStep(last);
      assert Forced(last, a);
    } else {
      StoppedIsOver(last);
    }
  }

  /** After `stop` has returned once no thread runs, in any state that follows. */
  lemma NoThreadAfterStop(s: State)
    requires Reachable(s) && s.stops > 0
    ensures AcceptOver(s) && RxOver(s) && TxOver(s)
  {
    ReachableThreadInv(s);
  }

  // ---------------------------------------------------------------- sockets

  /** `stop` leaves open only an accepted socket that a field still holds; the destructor's second
      `stop` leaves nothing open. */
  lemma SocketsClosed(s: State)
    requires Reachable(s) && s.main == Stopped
    ensures s.owned <= s.shut <==> s.clientFd == None && s.rxFd == None
    ensures forall k :: k in s.owned && k !in s.shut ==>
              k == AcceptedSock && (s.clientFd == Some(k) || s.rxFd == Some(k))
    ensures s.stops >= 2 ==> s.owned <= s.shut
  {
    ReachableThreadInv(s);
    StoppedSockets(s);
  }

  lemma StoppedSockets(s: State)
    requires ThreadInv(s) && s.main == Stopped
    ensures s.owned <= s.shut <==> s.clientFd == None && s.rxFd == None
    ensures forall k :: k in s.owned && k !in s.shut ==>
              k == AcceptedSock && (s.clientFd == Some(k) || s.rxFd == Some(k))
    ensures s.stops >= 2 ==> s.owned <= s.shut
  {
    forall k | k in s.owned && k !in s.shut
      ensures k == AcceptedSock && (s.clientFd == Some(k) || s.rxFd == Some(k))
    {
      match k case ListenSock => case AcceptedSock => case OutSock =>
    }
  }

  /** Some run leads from `s` to `t` without a new call of `stop`. */
  ghost predicate Leads(s: State, t: State) {
    exists states, acts ::
      Steps(states, acts) && states[0] == s && states[|acts|] == t && CallStop !in acts
  }

  lemma LeadsNowhere(s: State)
    ensures Leads(s, s)
  {
    assert Steps([s], []);
    assert [s][0] == s;
  }

  lemma LeadsOn(s: State, t: State, a: Action, u: State)
    requires Leads(s, t) && Next(t, a) == Some(u) && a != CallStop
    ensures Leads(s, u)
  {
    hide Next;
    var states, acts :|
      Steps(states, acts) && states[0] == s && states[|acts|] == t && CallStop !in acts;
    var longer, more := states + [u], acts + [a];
    forall i | 0 <= i < |more|
      ensures Next(longer[i], more[i]) == Some(longer[i + 1])
    {
      assert i < |acts| ==> Next(states[i], acts[i]) == Some(states[i + 1]);
    }
    assert Steps(longer, more);
  }

  /** What holds of `s` and is kept by every step holds wherever `s` leads. */
  lemma KeptAlong(p: State -> bool, s: State, t: State)
    requires Leads(s, t) && p(s)
    requires forall x, a, y :: p(x) && Next(x, a) == Some(y) ==> p(y)
    ensures p(t)
  {
    hide Next;
    var states, acts :|
      Steps(states, acts) && states[0] == s && states[|acts|] == t && CallStop !in acts;
    Persists(p, states, 0, |acts|);
  }

  /** The call of `stop` under way closes every socket the participant owns, whatever happens meanwhile. */
  ghost predicate ClosesAll(s: State) {
    forall t :: Leads(s, t) && t.main == Stopped ==> t.owned <= t.shut
  }

  /** The accept thread may still put a socket into a field. */
  predicate MayStore(p: AcceptPc) {
    p == AccCall || p == AccStore
  }

  /** A call of `stop` closes everything in every run exactly if, as it begins, the accept thread was
      never started, has stored its socket, or is over; while that thread is still to store a socket
      some run leaves it open. */
  lemma StopClosesAll(s: State)
    requires Reachable(s) && s.main == SetFlag
    ensures ClosesAll(s) <==> !MayStore(s.accept)
  {
    if MayStore(s.accept) {
      var t := LateStore(s);
      assert AcceptedSock in t.owned && AcceptedSock !in t.shut;
    } else {
      forall t | Leads(s, t) && t.main == Stopped
        ensures t.owned <= t.shut
      {
        EmptiedStays(s, t);
      }
    }
  }

  /** The same, judged before the call. */
  lemma CallClosesAll(s: State)
    requires Reachable(s) && (s.main == Up || s.main == Stopped)
    ensures ClosesAll(s.(main := SetFlag)) <==> !MayStore(s.accept)
  {
    Extend(s, CallStop);
    StopClosesAll(s.(main := SetFlag));
  }

  // ----- nothing left to store: the fields are empty once stop has been through them

  predicate Emptied(s: State) {
    && Order(s.main) >= 5 && !MayStore(s.accept)
    && (Order(s.main) > 8 ==> s.clientFd == None)
    && (Order(s.main) > 9 ==> s.rxFd == None)
  }

  lemma EmptiedStep(s: State, a: Action, t: State)
    requires Emptied(s) && Next(s, a) == Some(t)
    ensures Emptied(t)
  {
    match a
    case MainStep => OwnerEmpties(s, t);
    case AcceptStep => AcceptEmpties(s, t);
    case PutStep => hide Encode, Built, Enqueue;
    case TxTake => hide TakeNext, AfterTake;
    case _ =>
  }

  lemma OwnerEmpties(s: State, t: State)
    requires Emptied(s) && NextMain(s) == Some(t)
    ensures Emptied(t)
  {
  }

  lemma AcceptEmpties(s: State, t: State)
    requires Emptied(s) && NextAccept(s) == Some(t)
    ensures Emptied(t)
  {
  }

  lemma EmptiedStays(s: State, t: State)
    requires Reachable(s) && s.main == SetFlag && !MayStore(s.accept)
    requires Leads(s, t) && t.main == Stopped
    ensures t.owned <= t.shut
  {
    hide ThreadInv, Next;
    ReachableThreadInv(s);
    forall x, a, y | (ThreadInv(x) && Emptied(x)) && Next(x, a) == Some(y)
      ensures ThreadInv(y) && Emptied(y)
    {
      StepKeeps(x, a, y);
      EmptiedStep(x, a, y);
    }
    KeptAlong(x => ThreadInv(x) && Emptied(x), s, t);
    StoppedSockets(t);
  }

  // ----- something to store: the accept thread waits until stop has been through the fields

  /** An accepted socket that `stop` no longer looks at. */
  predicate Missed(s: State) {
    10 <= Order(s.main) <= 13 && AcceptedSock in s.owned && AcceptedSock !in s.shut
  }

  lemma MissedStep(s: State, a: Action, t: State)
    requires Missed(s) && Next(s, a) == Some(t) && a != CallStop
    ensures Missed(t)
    ensures s.main != Stopped ==> t.stops + (if t.main == Stopped then 0 else 1) == s.stops + 1
  {
    hide NextMain, NextAccept, NextRecv, NextSend, NextPut, TakeStep, PutCallStep;
    match a
    case MainStep => StoppedRests(s); JoinShape(s, t);
    case AcceptStep => AcceptKeepsSockets(s, t);
    case RecvOk(n, value) => RecvShape(s, n, value, t);
    case SendOk(w) => SendRank(s, w, t);
    case PutStep => PutKeepsSockets(s, t);
    case PutCall(f) => PutCallKeepsSockets(s, f);
    case TxTake => TakeKeepsSockets(s);
    case _ =>
  }

  lemma StoppedRests(s: State)
    ensures s.main == Stopped ==> NextMain(s) == None
  {
  }

  predicate SameSockets(s: State, t: State) {
    t.main == s.main && t.stops == s.stops && t.owned == s.owned && t.shut == s.shut
  }

  lemma PutKeepsSockets(s: State, t: State)
    requires NextPut(s) == Some(t)
    ensures SameSockets(s, t)
  {
  }

  lemma PutCallKeepsSockets(s: State, f: Offer)
    ensures SameSockets(s, PutCallStep(s, f))
  {
  }

  lemma TakeKeepsSockets(s: State)
    ensures SameSockets(s, TakeStep(s))
  {
  }

  lemma AcceptKeepsSockets(s: State, t: State)
    requires NextAccept(s) == Some(t)
    ensures SameSockets(s, t)
  {
  }

  /** From there `stop` comes to its end, and the socket stays open. */
  lemma {:induction false} MissedToTheEnd(s: State, t: State) returns (u: State)
    requires Leads(s, t) && ThreadInv(t) && t.tx.stopFlag && Missed(t) && t.main != Stopped
    ensures Leads(s, u) && u.main == Stopped && u.stops == t.stops + 1 && Missed(u)
    decreases Rank(t)
  {
    hide ThreadInv, Next, Rank;
    var a := ForcedStep(t);
    u := Next(t, a).value;
    StepKeeps(t, a, u);
    RankDecreases(t, a, u);
    MissedStep(t, a, u);
    LeadsOn(s, t, a, u);
    if u.main != Stopped {
      u := MissedToTheEnd(s, u);
    }
  }

  lemma OwnerPasses(s: State, t: State)
    requires NextMain(s) == Some(t) && 5 <= Order(s.main) <= 9
    ensures Order(t.main) == Order(s.main) + 1 && t.accept == s.accept && t.stops == s.stops
  {
  }

  /** The owner goes through the socket stage while the accept thread holds its new socket. */
  lemma {:induction false} HoldSocket(s: State, t: State) returns (u: State)
    requires Leads(s, t) && ThreadInv(t) && t.accept == AccStore && 5 <= Order(t.main) <= 10
    ensures Leads(s, u) && ThreadInv(u) && u.accept == AccStore && u.main == JoinAccept && u.stops == t.stops
    decreases 10 - Order(t.main)
  {
    hide ThreadInv;
    u := t;
    if t.main != JoinAccept {
      u := NextMain(t).value;
      OwnerPasses(t, u);
      StepKeeps(t, MainStep, u);
      LeadsOn(s, t, MainStep, u);
      u := HoldSocket(s, u);
    }
  }

  lemma LateStore(s: State) returns (u: State)
    requires Reachable(s) && s.main == SetFlag && MayStore(s.accept)
    ensures Leads(s, u) && u.main == Stopped && u.stops == s.stops + 1
    ensures AcceptedSock in u.owned && AcceptedSock !in u.shut
  {
    hide Next;
    ReachableThreadInv(s);
    LeadsNowhere(s);
    var t := s;
    if s.accept == AccCall {
      t := Accepted(s);
      LeadsOn(s, s, AcceptOk, t);
    }
    t := HoldSocket(s, t);
    HeldIsMissed(t);
    u := MissedToTheEnd(s, t);
  }

  lemma Accepted(s: State) returns (t: State)
    requires ThreadInv(s) && s.main == SetFlag && s.accept == AccCall
    ensures Next(s, AcceptOk) == Some(t) && ThreadInv(t)
    ensures t.accept == AccStore && t.main == SetFlag && t.stops == s.stops
  {
    t := s.(accept := AccStore, owned := s.owned + {AcceptedSock});
    AcceptCallKeeps(s);
  }

  lemma HeldIsMissed(s: State)
    requires ThreadInv(s) && s.main == JoinAccept && s.accept == AccStore
    ensures Missed(s) && s.tx.stopFlag
  {
  }

  lemma SameMode(s: State, a: Action, t: State)
    requires Next(s, a) == Some(t)
    ensures t.mode == s.mode
  {
  }

  lemma LeadsReachable(s: State, t: State)
    requires Reachable(s) && Leads(s, t)
    ensures Reachable(t) && t.mode == s.mode
  {
    hide Reachable, Next;
    forall x, a, y | (Reachable(x) && x.mode == s.mode) && Next(x, a) == Some(y)
      ensures Reachable(y) && y.mode == s.mode
    {
      Extend(x, a);
      SameMode(x, a, y);
    }
    KeptAlong(x => Reachable(x) && x.mode == s.mode, s, t);
  }

  lemma Then(s: State, a: Action) returns (t: State)
    requires Reachable(s) && Next(s, a).Some?
    ensures Reachable(t) && Some(t) == Next(s, a)
  {
    hide Next;
    Extend(s, a);
    t := Next(s, a).value;
  }

  /** A participant that listens, idle, with its accept thread waiting for a peer. */
  lemma Listening(mode: Mode, ssrc: uint32) returns (s: State)
    requires mode != Passive
    ensures Reachable(s) && s.mode == mode && s.main == Up && s.accept == AccCall && s.stops == 0
  {
    hide Reachable;
    s := Start(mode, ssrc);
    s := Then(s, Boot(true));
    if mode == Split {
      s := Then(s, MainStep);
    }
    s := Then(s, MainStep);
  }

  lemma Start(mode: Mode, ssrc: uint32) returns (s: State)
    ensures Reachable(s) && Init(s) && s.mode == mode && s.tx.ssrc == ssrc
  {
    s := State(mode, Initial(ssrc), Begin, NoAccept, NoRx, NoTx, Idle, false, None, None, {}, {}, 0,
               History(DropOldest.Log([], [], [], []), [], 0, false, []));
    assert Run([s], []);
    assert [s][|[s]| - 1] == s;
  }

  /** The open socket is real, in both modes that accept: a peer connects, `stop` is called, and the
      call returns with all threads gone and that socket open. */
  lemma LateAccept(mode: Mode, ssrc: uint32) returns (s: State)
    requires mode != Passive
    ensures Reachable(s) && s.mode == mode && s.main == Stopped && s.stops == 1
    ensures AcceptedSock in s.owned && AcceptedSock !in s.shut
  {
    hide Reachable, Leads;
    var up := Listening(mode, ssrc);
    var called := Then(up, CallStop);
    s := LateStore(called);
    LeadsReachable(called, s);
  }
}
