/** The meeting of src/meeting.cpp: participants, and the conference bridge as a table of slots and
    one-way connections. */
module Meetings {
  import opened Basics

  /** Bridge slots, slot 0 being the bridge's own master port. */
  const MEETING_CONF_SLOTS: nat := 32

  /** A participant as its meeting knows it: its listen port, 0 if it only connects out, and its slot. */
  datatype Part = Part(port: uint16, slot: nat)

  /** A live room has its bridge; `stop` takes it away for good. */
  datatype Room = Room(live: bool, parts: map<string, Part>, slots: set<nat>, conns: set<(nat, nat)>)

  /** What start and the bridge answer during an add: whether the participant came up, and the
      slot the bridge would use; a slot out of range or in use stands for a refusal. */
  datatype Answer = Answer(started: bool, slot: nat)

  predicate SlotFree(r: Room, slot: nat) {
    0 < slot < MEETING_CONF_SLOTS && slot !in r.slots
  }

  predicate CanAdd(r: Room, id: string, a: Answer) {
    id !in r.parts && a.started && r.live && SlotFree(r, a.slot)
  }

  function SlotsOf(parts: map<string, Part>): set<nat> {
    set id | id in parts :: parts[id].slot
  }

  /** The two-way links between a new slot and each of some slots. */
  function Links(slot: nat, others: set<nat>): set<(nat, nat)> {
    (set o | o in others :: (slot, o)) + (set o | o in others :: (o, slot))
  }

  /** `add_participant`, `add_passive_participant` and `add_split_participant`. */
  function Add(r: Room, id: string, port: uint16, a: Answer): Room {
    if CanAdd(r, id, a) then
      Room(true, r.parts[id := Part(port, a.slot)], r.slots + {a.slot}, r.conns + Links(a.slot, SlotsOf(r.parts)))
    else r
  }

  /** Removing a port from the bridge drops its slot and every connection of it. */
  function DropSlot(r: Room, slot: nat): Room {
    r.(slots := r.slots - {slot}, conns := set c | c in r.conns && c.0 != slot && c.1 != slot)
  }

  function Remove(r: Room, id: string): Room {
    if id in r.parts then DropSlot(r.(parts := r.parts - {id}), r.parts[id].slot) else r
  }

  /** Participant slots are distinct and are the bridge's slots; the connections are all ordered
      pairs of distinct ones. */
  ghost predicate FullMesh(r: Room) {
    && (forall i, j :: i in r.parts && j in r.parts && r.parts[i].slot == r.parts[j].slot ==> i == j)
    && (forall i :: i in r.parts ==> 0 < r.parts[i].slot < MEETING_CONF_SLOTS)
    && r.slots == SlotsOf(r.parts)
    && (forall a, b :: (a, b) in r.conns <==> a in r.slots && b in r.slots && a != b)
    && (!r.live ==> r.parts == map[])
  }

  lemma AddKeepsMesh(r: Room, id: string, port: uint16, a: Answer)
    requires FullMesh(r)
    ensures FullMesh(Add(r, id, port, a))
  {
    hide Links;
    if CanAdd(r, id, a) {
      assert forall i :: i in r.parts ==> r.parts[i].slot in r.slots;
      AddedSlots(r.parts, id, Part(port, a.slot));
      AddedLinks(r.slots, r.conns, a.slot);
    }
  }

  lemma AddedLinks(slots: set<nat>, conns: set<(nat, nat)>, slot: nat)
    requires slot !in slots
    requires forall a, b :: (a, b) in conns <==> a in slots && b in slots && a != b
    ensures forall a, b :: (a, b) in conns + Links(slot, slots) <==>
              a in slots + {slot} && b in slots + {slot} && a != b
  {
  }

  lemma AddedSlots(parts: map<string, Part>, id: string, p: Part)
    requires id !in parts
    ensures SlotsOf(parts[id := p]) == SlotsOf(parts) + {p.slot}
  {
    var q := parts[id := p];
    assert q[id].slot == p.slot;
    forall s | s in SlotsOf(parts)
      ensures s in SlotsOf(q)
    {
      var i :| i in parts && parts[i].slot == s;
      assert q[i].slot == s;
    }
  }

  lemma RemoveKeepsMesh(r: Room, id: string)
    requires FullMesh(r)
    ensures FullMesh(Remove(r, id))
  {
    if id in r.parts {
      var q := Remove(r, id);
      assert forall i :: i in q.parts ==> i in r.parts && i != id && q.parts[i] == r.parts[i];
      assert q.slots == SlotsOf(q.parts) by {
        forall s | s in q.slots
          ensures s in SlotsOf(q.parts)
        {
          var i :| i in r.parts && r.parts[i].slot == s;
          assert i in q.parts;
        }
      }
    }
  }

  datatype Op = AddOp(id: string, port: uint16, answer: Answer) | RemoveOp(id: string) | StopOp

  function EmptyRoom(): Room {
    Room(true, map[], {}, {})
  }

  function StoppedRoom(): Room {
    EmptyRoom().(live := false)
  }

  function Apply(r: Room, op: Op): Room {
    match op
    case AddOp(id, port, a) => Add(r, id, port, a)
    case RemoveOp(id) => Remove(r, id)
    case StopOp => StoppedRoom()
  }

  function After(ops: seq<Op>): Room {
    if ops == [] then EmptyRoom() else Apply(After(ops[..|ops| - 1]), ops[|ops| - 1])
  }

  /** Full mesh after every sequence of adds, failed adds, removes and stops; and so at most 31 take
      part, and none once the meeting was stopped. */
  lemma {:induction false} MeshAlways(ops: seq<Op>)
    ensures FullMesh(After(ops)) && (After(ops).live <==> StopOp !in ops)
    ensures |After(ops).parts| < MEETING_CONF_SLOTS
  {
    if ops != [] {
      var op := ops[|ops| - 1];
      MeshAlways(ops[..|ops| - 1]);
      match op
      case AddOp(id, port, a) => AddKeepsMesh(After(ops[..|ops| - 1]), id, port, a);
      case RemoveOp(id) => RemoveKeepsMesh(After(ops[..|ops| - 1]), id);
      case StopOp =>
    }
    PartsFit(After(ops));
  }

  lemma PartsFit(r: Room)
    requires FullMesh(r)
    ensures |r.parts| < MEETING_CONF_SLOTS
  {
    Injected(r.parts, r.parts.Keys);
    SlotNumbers(MEETING_CONF_SLOTS - 1);
    assert SlotsOf(r.parts) == set id | id in r.parts.Keys :: r.parts[id].slot;
    SubsetSize(SlotsOf(r.parts), UpTo(MEETING_CONF_SLOTS - 1));
  }

  lemma {:induction false} Injected(parts: map<string, Part>, ids: set<string>)
    requires ids <= parts.Keys
    requires forall i, j :: i in ids && j in ids && parts[i].slot == parts[j].slot ==> i == j
    ensures |set id | id in ids :: parts[id].slot| == |ids|
  {
    if ids != {} {
      var x :| x in ids;
      var rest := ids - {x};
      Injected(parts, rest);
      assert (set id | id in ids :: parts[id].slot) == (set id | id in rest :: parts[id].slot) + {parts[x].slot};
    }
  }

  /** The numbers 1 to n. */
  function UpTo(n: nat): set<nat> {
    if n == 0 then {} else UpTo(n - 1) + {n}
  }

  lemma {:induction false} SlotNumbers(n: nat)
    ensures |UpTo(n)| == n
    ensures forall k :: k in UpTo(n) <==> 1 <= k <= n
  {
    if n > 0 {
      SlotNumbers(n - 1);
    }
  }

  lemma {:induction false} SubsetSize(a: set<nat>, b: set<nat>)
    requires a <= b
    ensures |a| <= |b|
  {
    if a != {} {
      var x :| x in a;
      SubsetSize(a - {x}, b - {x});
    }
  }

  // ---------------------------------------------------------------- the class

  class Meeting {
    /** Whether `conf_` and `pool_` are there. */
    var live: bool
    var participants: map<string, Part>
    var confSlots: set<nat>
    var connections: set<(nat, nat)>

    constructor ()
      ensures Value() == EmptyRoom()
    {
      live, participants, confSlots, connections := true, map[], {}, {};
    }

    function Value(): Room
      reads this
    {
      Room(live, participants, confSlots, connections)
    }

    /** `pjmedia_conf_connect_port`. */
    method Connect(src: nat, sink: nat)
      modifies this`connections
      ensures connections == old(connections) + {(src, sink)}
    {
      connections := connections + {(src, sink)};
    }

    /** `pjmedia_conf_remove_port`. */
    method RemovePort(slot: nat)
      modifies this`confSlots, this`connections
      ensures Value() == DropSlot(old(Value()), slot)
    {
      confSlots := confSlots - {slot};
      connections := set c | c in connections && c.0 != slot && c.1 != slot;
    }

    /** Each of the three add methods: they differ in how the participant starts, which `answer` gives.
        A participant that started is put on the bridge unasked, so the bridge must be there. */
    method AddParticipant(id: string, port: uint16, answer: Answer) returns (ok: bool)
      requires live || id in participants || !answer.started
      modifies this
      ensures ok == CanAdd(old(Value()), id, answer)
      ensures ok <==> old(live) && id !in old(participants) && answer.started
                      && 0 < answer.slot < 32 && answer.slot !in old(confSlots)
      ensures participants == if ok then old(participants)[id := Part(port, answer.slot)] else old(participants)
      ensures confSlots == if ok then old(confSlots) + {answer.slot} else old(confSlots)
      ensures ok ==> forall a, b :: (a, b) in connections <==>
                       || (a, b) in old(connections)
                       || (a == answer.slot && exists p :: p in old(participants) && old(participants)[p].slot == b)
                       || (b == answer.slot && exists p :: p in old(participants) && old(participants)[p].slot == a)
      ensures Value() == Add(old(Value()), id, port, answer)
    {
      if id in participants { return false; }
      if !answer.started { return false; }
      var slot := answer.slot;
      if !(0 < slot < MEETING_CONF_SLOTS && slot !in confSlots) { return false; }
      confSlots := confSlots + {slot};
      ConnectAll(slot);
      participants := participants[id := Part(port, slot)];
      return true;
    }

    /** The loop that connects a new slot with every participant, both ways. */
    method ConnectAll(slot: nat)
      modifies this`connections
      ensures connections == old(connections) + Links(slot, SlotsOf(participants))
    {
      var todo := participants.Keys;
      ghost var done: set<nat> := {};
      while todo != {}
        invariant todo <= participants.Keys
        invariant done == set id | id in participants.Keys - todo :: participants[id].slot
        invariant connections == old(connections) + Links(slot, done)
        decreases |todo|
      {
        var id :| id in todo;
        var existing := participants[id].slot;
        Connect(slot, existing);
        Connect(existing, slot);
        todo := todo - {id};
        LinksGrow(slot, done, existing);
        done := done + {existing};
      }
      assert done == SlotsOf(participants);
    }

    /** The removed participant's port, or -1. */
    method RemoveParticipant(id: string) returns (port: int)
      modifies this
      ensures port == if id in old(participants) then old(participants)[id].port else -1
      ensures Value() == Remove(old(Value()), id)
      ensures participants == old(participants) - {id}
      ensures id in old(participants) ==>
                var slot := old(participants)[id].slot;
                && confSlots == old(confSlots) - {slot}
                && forall a, b :: (a, b) in connections <==> (a, b) in old(connections) && a != slot && b != slot
    {
      if id !in participants { return -1; }
      port := participants[id].port;
      var slot := participants[id].slot;
      participants := participants - {id};
      RemovePort(slot);
    }

    /** The nonzero ports, in some order. */
    method ParticipantPorts() returns (ports: seq<uint16>)
      ensures PortSet(ports) == PortsOf(Value())
      ensures forall p :: p in ports <==> p != 0 && exists id :: id in participants && participants[id].port == p
    {
      ports := [];
      var todo := participants.Keys;
      while todo != {}
        invariant todo <= participants.Keys
        invariant forall p :: p in ports <==>
                    p != 0 && exists id :: id in participants.Keys - todo && participants[id].port == p
        decreases |todo|
      {
        var id :| id in todo;
        if participants[id].port != 0 {
          ports := ports + [participants[id].port];
        }
        todo := todo - {id};
      }
    }

    /** Every participant leaves the bridge, then the bridge goes. */
    method Stop()
      modifies this
      ensures Value() == StoppedRoom()
      ensures !live && participants == map[] && confSlots == {} && connections == {}
    {
      var todo := participants.Keys;
      while todo != {}
        invariant todo <= participants.Keys && participants == old(participants)
        decreases |todo|
      {
        var id :| id in todo;
        RemovePort(participants[id].slot);
        todo := todo - {id};
      }
      participants := map[];
      live, confSlots, connections := false, {}, {};
    }
  }

  lemma LinksGrow(slot: nat, others: set<nat>, o: nat)
    ensures Links(slot, others + {o}) == Links(slot, others) + {(slot, o)} + {(o, slot)}
  {
  }

  function PortSet(ports: seq<uint16>): set<uint16> {
    set p | p in ports
  }

  /** The ports a meeting's participants hold. */
  function PortsOf(r: Room): set<uint16> {
    set id | id in r.parts && r.parts[id].port != 0 :: r.parts[id].port
  }
}
