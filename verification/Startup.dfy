/** That a participant which starts really runs: its threads are spawned, and stay until they are told
    to stop or a call on their socket fails. */
module Startup {
  import opened Basics
  import opened TxPath
  import opened Protocol
  import opened Shutdown

  /** A start that succeeds owns the sockets of its mode: it listens unless passive, connects unless active. */
  lemma StartOpens(s: State, t: State)
    requires Next(s, Boot(true)) == Some(t)
    ensures ListenSock in t.owned <==> s.mode != Passive
    ensures OutSock in t.owned <==> s.mode != Active
    ensures t.main != Up
  {
  }

  /** A start that fails leaves no socket open and spawns no thread. */
  lemma FailedStartCloses(s: State, t: State)
    requires Reachable(s) && Next(s, Boot(false)) == Some(t)
    ensures t.main == Up && t.owned == {} && !t.listenFd && t.clientFd == None && t.rxFd == None
    ensures t.accept == NoAccept && t.rx == NoRx && t.snd == NoTx
  {
    ReachableThreadInv(s);
  }

  /** Who must have been spawned by now, given the sockets the participant came to own. */
  ghost predicate Spawned(s: State) {
    && (ListenSock in s.owned ==> s.mode != Passive) && (OutSock in s.owned ==> s.mode != Active)
    && (s.mode == Passive && OutSock in s.owned && Order(s.main) >= 2 ==> s.rx != NoRx)
    && (s.mode != Active && OutSock in s.owned && Order(s.main) >= 3 ==> s.snd != NoTx)
    && (ListenSock in s.owned && Order(s.main) >= 4 ==> s.accept != NoAccept)
    && (AcceptedSock in s.owned ==> s.accept != NoAccept && s.accept != AccCall)
    && (AcceptedSock in s.owned && (s.accept == AccStartTx || s.accept == AccDone) ==> s.rx != NoRx)
    && (s.mode == Active && AcceptedSock in s.owned && s.accept == AccDone ==> s.snd != NoTx || s.tx.stopFlag)
  }

  /** Steps that leave the sockets and the owner alone and end no spawning. */
  lemma SpawnedFrame(s: State, t: State)
    requires Spawned(s) && t.mode == s.mode && t.main == s.main && t.owned == s.owned && t.accept == s.accept
    requires (s.rx == NoRx <==> t.rx == NoRx) && (s.snd == NoTx <==> t.snd == NoTx)
    requires s.tx.stopFlag ==> t.tx.stopFlag
    ensures Spawned(t)
  {
  }

  lemma OwnerSpawns(s: State, t: State)
    requires Spawned(s) && StartInv(s) && NextMain(s) == Some(t)
    ensures Spawned(t)
  {
  }

  lemma AcceptSpawns(s: State, t: State)
    requires Spawned(s) && NextAccept(s) == Some(t)
    ensures Spawned(t)
  {
  }

  lemma SpawnedStep(s: State, a: Action, t: State)
    requires Spawned(s) && StartInv(s) && Next(s, a) == Some(t)
    ensures Spawned(t)
  {
    hide NextMain, NextAccept, NextRecv, NextSend, NextPut, TakeStep, PutCallStep, Encode, Built;
    match a
    case MainStep => OwnerSpawns(s, t);
    case AcceptStep => AcceptSpawns(s, t);
    case RecvOk(n, value) => RecvShape(s, n, value, t); SpawnedFrame(s, t);
    case TxTake => TakeFrame(s); SpawnedFrame(s, t);
    case SendOk(w) => SendFrame(s, w, t); SpawnedFrame(s, t);
    case PutCall(f) => PutCallFrame(s, f); SpawnedFrame(s, t);
    case PutStep => PutFrameOf(s, t); SpawnedFrame(s, t);
    case _ =>
  }

  /** What the steps on the transmit state leave alone. */
  predicate OnlyTx(s: State, t: State) {
    && t.mode == s.mode && t.main == s.main && t.owned == s.owned && t.accept == s.accept && t.rx == s.rx
    && (s.snd == NoTx <==> t.snd == NoTx) && t.tx.stopFlag == s.tx.stopFlag
  }

  lemma TakeFrame(s: State)
    requires s.snd == TxLock || s.snd.TxWait?
    ensures OnlyTx(s, TakeStep(s))
  {
  }

  lemma SendFrame(s: State, w: nat, t: State)
    requires NextSend(s, w) == Some(t)
    ensures OnlyTx(s, t)
  {
  }

  lemma PutCallFrame(s: State, f: Offer)
    ensures OnlyTx(s, PutCallStep(s, f))
  {
  }

  lemma PutFrameOf(s: State, t: State)
    requires NextPut(s) == Some(t)
    ensures OnlyTx(s, t)
  {
  }

  lemma {:induction false} SpawnedAlways(states: seq<State>, acts: seq<Action>, i: nat)
    requires Run(states, acts) && i < |states|
    ensures Spawned(states[i])
  {
    hide Spawned, StartInv, JoinInv, SocketInv, OwnedInv, GateInv, Next, Init, Steps;
    if i == 0 {
      SpawnedFirst(states[0]);
    } else {
      SpawnedAlways(states, acts, i - 1);
      ThreadInvAlways(states, acts, i - 1);
      StepAt(states, acts, i - 1);
      SpawnedStep(states[i - 1], acts[i - 1], states[i]);
    }
  }

  lemma SpawnedFirst(s: State)
    requires Init(s)
    ensures Spawned(s)
  {
  }

  /** Every thread a successful start calls for is there. From the end of start on, a participant that
      listens has its accept thread, and one that connected has its tx thread and, if passive, its rx
      thread. Once the accept thread is done with an accepted socket an rx thread serves it, and in
      active mode a tx thread unless `stop` came first. */
  lemma ThreadsSpawned(s: State)
    requires Reachable(s) && Order(s.main) >= 4
    ensures ListenSock in s.owned ==> s.accept != NoAccept
    ensures OutSock in s.owned ==> s.snd != NoTx && (s.mode == Passive ==> s.rx != NoRx)
    ensures AcceptedSock in s.owned && s.accept == AccDone ==>
              s.rx != NoRx && (s.mode == Active ==> s.snd != NoTx || s.tx.stopFlag)
  {
    var states, acts :| Run(states, acts) && states[|states| - 1] == s;
    SpawnedAlways(states, acts, |states| - 1);
    ReachableThreadInv(s);
  }

  // ---------------------------------------------------------------- threads stay

  /** No thread ends by itself: before the flag is up, the rx thread is over only if a recv failed, the tx
      thread only if a send failed, and the accept thread only if accept failed or gave a socket. */
  ghost predicate Staying(s: State, failed: set<Action>) {
    !s.tx.stopFlag ==>
      && (s.rx == RxDone ==> RecvFail in failed)
      && (s.snd == TxCleanup || s.snd == TxDone ==> SendFail in failed)
      && (s.accept == AccDone ==> AcceptFail in failed || AcceptedSock in s.owned)
  }

  lemma StayingStep(s: State, a: Action, t: State, failed: set<Action>)
    requires StartInv(s) && SpawnedAccept(s) && Staying(s, failed) && Next(s, a) == Some(t)
    ensures Staying(t, failed + {a})
  {
    hide NextMain, NextAccept, NextRecv, NextSend, NextPut, TakeStep, PutCallStep, Encode, Built;
    match a
    case MainStep => OwnerStays(s, t);
    case AcceptStep => AcceptStays(s, t);
    case RecvOk(n, value) => RecvShape(s, n, value, t); RecvStays(s, n, value, t);
    case TxTake => TakeFrame(s); TakeStays(s);
    case SendOk(w) => SendFrame(s, w, t); SendStays(s, w, t);
    case PutCall(f) => PutCallFrame(s, f); PutCallStays(s, f);
    case PutStep => PutFrameOf(s, t); PutStays(s, t);
    case _ =>
  }

  /** An accept thread past its call has its socket. */
  predicate SpawnedAccept(s: State) {
    s.accept == AccStore || s.accept == AccSpawnRx || s.accept == AccStartTx ==> AcceptedSock in s.owned
  }

  lemma OwnerStays(s: State, t: State)
    requires StartInv(s) && NextMain(s) == Some(t)
    ensures !t.tx.stopFlag ==> !s.tx.stopFlag && (t.rx == s.rx || t.rx == RxTop) && (t.snd == s.snd || t.snd == TxTop)
                               && (t.accept == s.accept || t.accept == AccCall) && s.owned <= t.owned
  {
  }

  lemma AcceptStays(s: State, t: State)
    requires NextAccept(s) == Some(t)
    ensures t.owned == s.owned && t.tx.stopFlag == s.tx.stopFlag
    ensures (t.rx == s.rx || t.rx == RxTop) && (t.snd == s.snd || t.snd == TxTop)
    ensures s.accept == AccStore || s.accept == AccSpawnRx || s.accept == AccStartTx
  {
  }

  lemma RecvStays(s: State, n: nat, value: nat, t: State)
    requires NextRecv(s, n, value) == Some(t)
    ensures t.rx != RxDone
  {
  }

  lemma TakeStays(s: State)
    ensures s.snd == TxLock || s.snd.TxWait? ==>
              TakeStep(s).snd != TxDone && (TakeStep(s).snd == TxCleanup ==> s.tx.stopFlag)
  {
  }

  lemma SendStays(s: State, w: nat, t: State)
    requires NextSend(s, w) == Some(t)
    ensures t.snd != TxCleanup && t.snd != TxDone
  {
  }

  lemma PutCallStays(s: State, f: Offer)
    ensures PutCallStep(s, f).snd == s.snd
  {
  }

  lemma PutStays(s: State, t: State)
    requires NextPut(s) == Some(t)
    ensures t.snd == s.snd || t.snd == Notify(s.snd)
  {
  }

  lemma AcceptOwns(s: State, a: Action, t: State)
    requires SpawnedAccept(s) && StartInv(s) && Next(s, a) == Some(t)
    ensures SpawnedAccept(t)
  {
    hide NextMain, NextAccept, NextRecv, NextSend, NextPut, TakeStep, PutCallStep, Encode, Built;
    match a
    case MainStep => OwnerAccepts(s, t);
    case AcceptStep => AcceptStays(s, t);
    case RecvOk(n, value) => RecvShape(s, n, value, t);
    case TxTake => TakeFrame(s);
    case SendOk(w) => SendFrame(s, w, t);
    case PutCall(f) => PutCallFrame(s, f);
    case PutStep => PutFrameOf(s, t);
    case _ =>
  }

  lemma OwnerAccepts(s: State, t: State)
    requires NextMain(s) == Some(t)
    ensures s.owned <= t.owned && (t.accept == s.accept || t.accept == AccCall)
  {
  }

  function Done(acts: seq<Action>, i: nat): set<Action>
    requires i <= |acts|
  {
    set a | a in acts[..i]
  }

  /** No thread ends by itself: while the stop flag is down, the rx thread is over only after a failed recv,
      the tx thread only after a failed send, the accept thread only after a failed accept or with a socket. */
  lemma {:induction false} ThreadsStay(states: seq<State>, acts: seq<Action>, i: nat)
    requires Run(states, acts) && i < |states|
    ensures SpawnedAccept(states[i]) && Staying(states[i], Done(acts, i))
  {
    hide Staying, SpawnedAccept, StartInv, JoinInv, SocketInv, OwnedInv, GateInv, Next, Init, Steps;
    if i == 0 {
      StayingFirst(states[0], Done(acts, 0));
    } else {
      ThreadsStay(states, acts, i - 1);
      ThreadInvAlways(states, acts, i - 1);
      StepAt(states, acts, i - 1);
      AcceptOwns(states[i - 1], acts[i - 1], states[i]);
      StayingStep(states[i - 1], acts[i - 1], states[i], Done(acts, i - 1));
      assert acts[..i] == acts[..i - 1] + [acts[i - 1]];
      assert Done(acts, i) == Done(acts, i - 1) + {acts[i - 1]};
    }
  }

  lemma StayingFirst(s: State, failed: set<Action>)
    requires Init(s)
    ensures SpawnedAccept(s) && Staying(s, failed)
  {
  }
}
