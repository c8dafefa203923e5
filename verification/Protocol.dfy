/** One participant as a state machine: the caller of start and stop, the accept, rx and tx threads
    and the bridge's put callback, interleaved at every lock, shared flag and socket call.
    A lock-protected section is one step; so is each read or write of a flag outside the lock. */
module Protocol {
  import opened Basics
  import opened TxPath
  import DropOldest
  import Framing
  import Rtp

  datatype Mode = Active | Passive | Split

  /** The sockets a participant can ever own. */
  datatype Sock = ListenSock | AcceptedSock | OutSock

  /** Where the owner's thread is: starting up, idle, or inside `stop`. */
  datatype Main =
    | Begin | SpawnRx | StartTx | SpawnAccept | Up
    | SetFlag | QuenchQueue | CloseListen | CloseClient | CloseRx
    | JoinAccept | JoinRx | JoinTx | Stopped

  datatype AcceptPc = NoAccept | AccCall | AccStore | AccSpawnRx | AccStartTx | AccDone

  /** The rx thread: polling the flag, reading a prefix or a packet, storing decoded frames. */
  datatype RxPc = NoRx | RxTop | RxLen(got: nat) | RxBody(len: nat, read: nat) | RxStore(left: nat) | RxDone

  /** The tx thread: polling, taking the lock, asleep in the wait, writing, cleaning up. */
  datatype TxPc =
    | NoTx | TxTop | TxLock | TxWait(notified: bool) | TxSend(pkt: seq<byte>, sent: nat) | TxCleanup | TxDone

  /** The bridge's put callback: between its two fast-path reads, encoding, or about to lock. */
  datatype PutPc = Idle | CheckStop(f: Offer) | Encoding(f: Offer) | Locking(pkt: seq<byte>)

  /** What happened so far; no code reads any of it. */
  datatype History = History(
    log: DropOldest.Log<seq<byte>>,  // the send queue's history
    offers: seq<Offer>,              // frames encoded since activation
    n0: nat,                         // put calls made before the tx thread was started
    late: bool,                      // some put call after activation found the gate closed
    wire: seq<byte>)                 // bytes written to the tx socket

  datatype State = State(
    mode: Mode, tx: Tx,
    main: Main, accept: AcceptPc, rx: RxPc, snd: TxPc, put: PutPc,
    listenFd: bool, clientFd: Option<Sock>, rxFd: Option<Sock>,
    owned: set<Sock>, shut: set<Sock>, stops: nat,
    h: History)

  datatype Action =
    | Boot(ok: bool) | CallStop | MainStep
    | AcceptOk | AcceptFail | AcceptStep
    | RxPoll | RecvOk(n: nat, value: nat) | RecvFail | RxStoreStep
    | TxPoll | TxTake | SendOk(w: nat) | SendFail | TxFinish
    | PutCall(f: Offer) | PutStep

  function RxSock(m: Mode): Sock {
    if m == Passive then OutSock else AcceptedSock
  }

  function TxSock(m: Mode): Sock {
    if m == Active then AcceptedSock else OutSock
  }

  ghost predicate Init(s: State) {
    && s.tx == Initial(s.tx.ssrc)
    && s.main == Begin && s.accept == NoAccept && s.rx == NoRx && s.snd == NoTx && s.put == Idle
    && !s.listenFd && s.clientFd == None && s.rxFd == None && s.owned == {} && s.shut == {} && s.stops == 0
    && s.h == History(DropOldest.Log([], [], [], []), [], 0, false, [])
  }

  // ---------------------------------------------------------------- steps

  /** A step of one thread; None when the thread cannot take it now. */
  function Next(s: State, a: Action): Option<State> {
    match a
    case Boot(ok) => if s.main == Begin then Some(BootStep(s, ok)) else None
    case CallStop => if s.main == Up || s.main == Stopped then Some(s.(main := SetFlag)) else None
    case MainStep => NextMain(s)
    case AcceptOk =>
      if s.accept == AccCall && ListenSock !in s.shut
      then Some(s.(accept := AccStore, owned := s.owned + {AcceptedSock})) else None
    case AcceptFail => if s.accept == AccCall then Some(s.(accept := AccDone)) else None
    case AcceptStep => NextAccept(s)
    case RxPoll => if s.rx == RxTop then Some(s.(rx := if s.tx.stopFlag then RxDone else RxLen(0))) else None
    case RecvOk(n, value) => if n > 0 && RxSock(s.mode) !in s.shut then NextRecv(s, n, value) else None
    case RecvFail => if s.rx.RxLen? || s.rx.RxBody? then Some(s.(rx := RxDone)) else None
    case RxStoreStep =>
      if s.rx.RxStore? then Some(s.(rx := if s.rx.left == 0 then RxTop else RxStore(s.rx.left - 1))) else None
    case TxPoll => if s.snd == TxTop then Some(s.(snd := if s.tx.stopFlag then TxCleanup else TxLock)) else None
    case TxTake => if s.snd == TxLock || s.snd.TxWait? then Some(TakeStep(s)) else None
    case SendOk(w) => if w > 0 && TxSock(s.mode) !in s.shut then NextSend(s, w) else None
    case SendFail => if s.snd.TxSend? then Some(s.(snd := TxCleanup)) else None
    case TxFinish => if s.snd == TxCleanup then Some(Quenched(s).(snd := TxDone)) else None
    case PutCall(f) => if s.put == Idle then Some(PutCallStep(s, f)) else None
    case PutStep => NextPut(s)
  }

  /** `start`, `startPassive` or `startSplit` up to its first thread; on failure nothing stays open. */
  function BootStep(s: State, ok: bool): State {
    if !ok then s.(main := Up)
    else match s.mode
      case Active => s.(main := SpawnAccept, listenFd := true, owned := {ListenSock})
      case Passive => s.(main := SpawnRx, clientFd := Some(OutSock), owned := {OutSock})
      case Split => s.(main := StartTx, listenFd := true, clientFd := Some(OutSock), owned := {ListenSock, OutSock})
  }

  function StartTxSection(s: State): State {
    if s.tx.stopFlag then s else s.(tx := Activate(s.tx), snd := TxTop)
  }

  function Quenched(s: State): State {
    s.(tx := Quench(s.tx), h := s.h.(log := DropOldest.LogClear(s.h.log)))
  }

  /** Signalling reaches the tx thread only if it is asleep in the wait. */
  function Notify(t: TxPc): TxPc {
    if t.TxWait? then TxWait(true) else t
  }

  function NextMain(s: State): Option<State> {
    match s.main
    case SpawnRx => Some(s.(rx := RxTop, main := StartTx))
    case StartTx => Some(StartTxSection(s).(main := if s.mode == Passive then Up else SpawnAccept))
    case SpawnAccept => Some(s.(accept := AccCall, main := Up))
    case SetFlag => Some(s.(tx := s.tx.(stopFlag := true), main := QuenchQueue))
    case QuenchQueue => Some(Quenched(s).(snd := Notify(s.snd), main := CloseListen))
    case CloseListen =>
      Some(if s.listenFd then s.(listenFd := false, shut := s.shut + {ListenSock}, main := CloseClient)
           else s.(main := CloseClient))
    case CloseClient =>
      Some(if s.clientFd.Some? then s.(clientFd := None, shut := s.shut + {s.clientFd.value}, main := CloseRx)
           else s.(main := CloseRx))
    case CloseRx =>
      Some(if s.rxFd.Some? then s.(rxFd := None, shut := s.shut + {s.rxFd.value}, main := JoinAccept)
           else s.(main := JoinAccept))
    case JoinAccept => if s.accept == NoAccept || s.accept == AccDone then Some(s.(main := JoinRx)) else None
    case JoinRx => if s.rx == NoRx || s.rx == RxDone then Some(s.(main := JoinTx)) else None
    case JoinTx => if s.snd == NoTx || s.snd == TxDone then Some(s.(main := Stopped, stops := s.stops + 1)) else None
    case _ => None
  }

  function NextAccept(s: State): Option<State> {
    match s.accept
    case AccStore =>
      Some(if s.mode == Split then s.(rxFd := Some(AcceptedSock), accept := AccSpawnRx)
           else s.(clientFd := Some(AcceptedSock), accept := AccSpawnRx))
    case AccSpawnRx => Some(s.(rx := RxTop, accept := if s.mode == Split then AccDone else AccStartTx))
    case AccStartTx => Some(StartTxSection(s).(accept := AccDone))
    case _ => None
  }

  /** `n` bytes arrive. `value` is what they turn out to say: the length prefix once complete,
      or how many whole frames the packet completes, no more than RxPath.FramesFit allows. */
  function NextRecv(s: State, n: nat, value: nat): Option<State> {
    match s.rx
    case RxLen(got) =>
      if got + n < 2 then Some(s.(rx := RxLen(got + n)))
      else if got + n == 2 && value < 0x1_0000 then Some(s.(rx := if value == 0 then RxTop else RxBody(value, 0)))
      else None
    case RxBody(len, read) =>
      if read + n < len then Some(s.(rx := RxBody(len, read + n)))
      else if read + n == len && value * FRAME_SAMPLES < len + FRAME_SAMPLES then Some(s.(rx := RxStore(value)))
      else None
    case _ => None
  }

  function TakeStep(s: State): State {
    match TakeNext(s.tx)
    case Quit => s.(snd := TxCleanup)
    case Block => s.(snd := TxWait(false))
    case Got(pkt) =>
      s.(tx := AfterTake(s.tx), snd := TxSend(pkt, 0),
         h := if s.h.log.ids == [] then s.h else s.h.(log := DropOldest.LogPop(s.h.log)))
  }

  /** `w` more bytes of the current packet leave; a call never crosses from prefix to body. */
  function NextSend(s: State, w: nat): Option<State> {
    match s.snd
    case TxSend(pkt, sent) =>
      var bytes := Framing.FrameBytes(pkt);
      if sent + w > |bytes| || (sent < 2 && sent + w > 2) then None
      else Some(s.(snd := if sent + w == |bytes| then TxTop else TxSend(pkt, sent + w),
                   h := s.h.(wire := s.h.wire + bytes[sent..sent + w])))
    case _ => None
  }

  function PutSkip(s: State): State {
    s.(tx := Skip(s.tx), put := Idle, h := s.h.(late := s.h.late || s.snd != NoTx))
  }

  function PutCallStep(s: State, f: Offer): State {
    var t := s.(h := s.h.(n0 := if s.snd == NoTx then s.h.n0 + 1 else s.h.n0));
    if s.tx.txActive then t.(put := CheckStop(f)) else PutSkip(t)
  }

  function NextPut(s: State): Option<State> {
    match s.put
    case Idle => None
    case CheckStop(f) => Some(if s.tx.stopFlag then PutSkip(s) else s.(put := Encoding(f)))
    case Encoding(f) =>
      Some(s.(tx := Encode(s.tx, f),
              put := match Built(s.tx, f) case None => Idle case Some(pkt) => Locking(pkt),
              h := s.h.(offers := s.h.offers + [f])))
    case Locking(pkt) =>
      Some(if !GateOpen(s.tx) then s.(put := Idle)
           else s.(tx := Enqueue(s.tx, pkt), put := Idle, snd := Notify(s.snd),
                   h := s.h.(log := DropOldest.LogPush(s.h.log, pkt, MAX_SEND_QUEUE_PACKETS))))
  }

  // ---------------------------------------------------------------- runs

  /** A run: an initial state and any interleaving of steps. */
  ghost predicate Run(states: seq<State>, acts: seq<Action>) {
    && |states| == |acts| + 1
    && Init(states[0])
    && Steps(states, acts)
  }

  /** Consecutive states linked by steps, from anywhere. */
  ghost predicate Steps(states: seq<State>, acts: seq<Action>) {
    && |states| == |acts| + 1
    && forall i :: 0 <= i < |acts| ==> Next(states[i], acts[i]) == Some(states[i + 1])
  }

  /** A state some run passes through. */
  ghost predicate Reachable(s: State) {
    exists states, acts :: Run(states, acts) && states[|states| - 1] == s
  }

  /** Any step from a reachable state reaches another. */
  lemma Extend(s: State, a: Action)
    requires Reachable(s) && Next(s, a).Some?
    ensures Reachable(Next(s, a).value)
  {
    hide Next, Init;
    var states, acts :| Run(states, acts) && states[|states| - 1] == s;
    var longer, more := states + [Next(s, a).value], acts + [a];
    forall i | 0 <= i < |more|
      ensures Next(longer[i], more[i]) == Some(longer[i + 1])
    {
      if i < |acts| {
        assert Next(states[i], acts[i]) == Some(states[i + 1]);
      }
    }
    assert Run(longer, more);
  }

  /** At most `n` steps of the put call under way. */
  function PutSteps(s: State, n: nat): State
    decreases n
  {
    if n == 0 || s.put == Idle then s else PutSteps(NextPut(s).value, n - 1)
  }

  /** Left alone, a put call ends within three more steps and they add up to `on_put_frame`. */
  lemma PutRunsAlone(s: State, f: Offer)
    requires s.put == Idle
    ensures var t := PutSteps(PutCallStep(s, f), 3); t.put == Idle && t.tx == PutFrame(s.tx, f)
  {
    hide Encoded, BatchPacket, Rtp.Serialize;
    var t := PutCallStep(s, f);
    if s.tx.txActive {
      var u := NextPut(t).value;
      assert PutSteps(t, 3) == PutSteps(u, 2);
      if u.put != Idle {
        assert PutSteps(u, 2) == PutSteps(NextPut(u).value, 1);
      }
    }
  }
}
