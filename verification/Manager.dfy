/** The classes behind the API: MeetingManager of src/meeting_manager.cpp and the request handlers of
    src/server.cpp, proved to do what Server.Handle says. */
module Manager {
  import opened Basics
  import opened Ports
  import Meetings
  import opened Server

  class MeetingManager {
    const allocator: PortAllocator
    var meetings: map<string, Meetings.Meeting>

    constructor (allocator: PortAllocator)
      requires ValidPool(allocator.Value())
      ensures Valid() && this.allocator == allocator
      ensures Value() == Site(allocator.Value(), map[])
    {
      this.allocator := allocator;
      meetings := map[];
    }

    /** Meetings are separate objects, and those on the books have not been stopped. */
    ghost predicate Valid()
      reads this, allocator, allocator.used, meetings.Values
    {
      && ValidPool(allocator.Value())
      && (forall a, b :: a in meetings && b in meetings && a != b ==> meetings[a] != meetings[b])
      && forall m :: m in meetings ==> meetings[m].live
    }

    ghost function Rooms(): map<string, Meetings.Room>
      reads this, meetings.Values
    {
      map m | m in meetings :: meetings[m].Value()
    }

    ghost function Value(): Site
      reads this, allocator, allocator.used, meetings.Values
    {
      Site(allocator.Value(), Rooms())
    }

    method CreateMeeting(id: string)
      requires Valid()
      modifies this`meetings
      ensures Valid() && Value() == Handle(old(Value()), Create(id))
      ensures forall m :: m in meetings ==>
                (m in old(meetings) && meetings[m] == old(meetings[m])) || fresh(meetings[m])
    {
      var meeting := new Meetings.Meeting();
      meetings := meetings[id := meeting];
      assert Rooms() == old(Rooms())[id := Meetings.EmptyRoom()];
    }

    /** Give back a list of ports one by one. */
    method ReleaseAll(ports: seq<uint16>)
      requires ValidPool(allocator.Value())
      modifies allocator.used
      ensures allocator.Value() == Release(old(allocator.Value()), Meetings.PortSet(ports))
    {
      ghost var pool := allocator.Value();
      assert Release(pool, {}).used == pool.used;
      var i := 0;
      while i < |ports|
        invariant 0 <= i <= |ports|
        invariant allocator.Value() == Release(pool, Meetings.PortSet(ports[..i]))
      {
        ReleaseMore(pool, Meetings.PortSet(ports[..i]), ports[i]);
        assert Meetings.PortSet(ports[..i + 1]) == Meetings.PortSet(ports[..i]) + {ports[i]};
        allocator.ReleasePort(ports[i]);
        i := i + 1;
      }
      assert ports[..i] == ports;
    }

    method DestroyMeeting(id: string) returns (ok: bool)
      requires Valid()
      modifies this`meetings, meetings.Values, allocator.used
      ensures Valid() && ok == (id in old(meetings))
      ensures Value() == Handle(old(Value()), Destroy(id))
    {
      hide Release, Meetings.PortsOf;
      if id !in meetings { return false; }
      var ports := EraseMeeting(id);
      ghost var rooms := Rooms();
      ReleaseAll(ports);
      assert Rooms() == rooms;
      return true;
    }

    /** Take a meeting off the books, note its ports and stop it. */
    method EraseMeeting(id: string) returns (ports: seq<uint16>)
      requires Valid() && id in meetings
      modifies this`meetings, meetings[id]
      ensures Valid() && allocator.Value() == old(allocator.Value())
      ensures Rooms() == old(Rooms()) - {id}
      ensures Meetings.PortSet(ports) == Meetings.PortsOf(old(Rooms())[id])
    {
      hide Meetings.PortsOf;
      var meeting := meetings[id];
      meetings := meetings - {id};
      ports := meeting.ParticipantPorts();
      meeting.Stop();
      assert Rooms() == old(Rooms()) - {id};
    }

    /** An add on a meeting that was looked up. */
    method AddTo(meet: string, part: string, port: uint16, answer: Meetings.Answer) returns (ok: bool)
      requires Valid() && meet in meetings
      modifies meetings.Values
      ensures Valid() && allocator.Value() == old(allocator.Value())
      ensures ok == Meetings.CanAdd(old(Rooms())[meet], part, answer)
      ensures Rooms() == old(Rooms())[meet := Meetings.Add(old(Rooms())[meet], part, port, answer)]
    {
      ok := meetings[meet].AddParticipant(part, port, answer);
    }

    /** What the handlers do with an allocated port: add, and give the port back if that fails. */
    method AddOrRelease(meet: string, part: string, port: uint16, answer: Meetings.Answer) returns (ok: bool)
      requires Valid() && meet in meetings
      modifies meetings.Values, allocator.used
      ensures Valid() && ok == Meetings.CanAdd(old(Rooms())[meet], part, answer)
      ensures allocator.Value() == if ok then old(allocator.Value()) else Release(old(allocator.Value()), {port})
      ensures Rooms() == if ok then old(Rooms())[meet := Meetings.Add(old(Rooms())[meet], part, port, answer)]
                         else old(Rooms())
    {
      hide Release, Meetings.Add, Meetings.CanAdd;
      ok := AddTo(meet, part, port, answer);
      if !ok {
        AddRefused(old(Rooms())[meet], part, port, answer);
        allocator.ReleasePort(port);
        assert Rooms() == old(Rooms());
      }
    }

    method AddPassiveParticipant(meet: string, part: string, answer: Meetings.Answer) returns (ok: bool)
      requires Valid()
      modifies meetings.Values
      ensures Valid() && Value() == Handle(old(Value()), AddPassive(meet, part, answer))
      ensures ok == (meet in meetings && Meetings.CanAdd(old(Rooms())[meet], part, answer))
    {
      if meet !in meetings { return false; }
      ok := AddTo(meet, part, 0, answer);
    }

    method DeleteParticipant(meet: string, part: string) returns (ok: bool)
      requires Valid()
      modifies meetings.Values, allocator.used
      ensures Valid() && Value() == Handle(old(Value()), DeletePart(meet, part))
      ensures ok == (meet in meetings && part in old(Rooms())[meet].parts)
    {
      if meet !in meetings { return false; }
      var port := meetings[meet].RemoveParticipant(part);
      assert Rooms() == old(Rooms())[meet := Meetings.Remove(old(Rooms())[meet], part)];
      if port < 0 {
        assert Rooms() == old(Rooms());
        return false;
      }
      if port > 0 {
        allocator.ReleasePort(port);
      }
      return true;
    }
  }

  lemma ReleaseMore(p: Pool, ports: set<uint16>, port: uint16)
    ensures Release(Release(p, ports), {port}) == Release(p, ports + {port})
  {
    assert Release(Release(p, ports), {port}).used == Release(p, ports + {port}).used;
  }

  lemma AddRefused(r: Meetings.Room, part: string, port: uint16, answer: Meetings.Answer)
    ensures !Meetings.CanAdd(r, part, answer) ==> Meetings.Add(r, part, port, answer) == r
  {
  }

  /** `handle_add_participant`, and `handle_add_passive_participant` in split mode, past their
      parameter checks. Codes: 0 done, 1 no such meeting, 2 not added, 3 no port. */
  method HandleAdd(manager: MeetingManager, meet: string, part: string, bindable: set<uint16>, answer: Meetings.Answer)
    returns (code: nat)
    requires manager.Valid()
    modifies manager.meetings.Values, manager.allocator, manager.allocator.used
    ensures manager.Valid()
    ensures manager.Value() == Handle(old(manager.Value()), AddPart(meet, part, bindable, answer))
    ensures var s := old(manager.Value());
            code == if meet !in s.meetings then 1
                    else if Allocate(s.pool, bindable).0 < 0 then 3
                    else if Meetings.CanAdd(s.meetings[meet], part, answer) then 0 else 2
  {
    hide Release, Allocate, Meetings.Add, Meetings.CanAdd;
    if meet !in manager.meetings { return 1; }
    ghost var rooms := manager.Rooms();
    AllocateTakes(manager.allocator.Value(), bindable);
    var port := manager.allocator.AllocatePort(bindable);
    assert manager.Rooms() == rooms;
    if port < 0 { return 3; }
    var ok := manager.AddOrRelease(meet, part, ToU16(port), answer);
    return if ok then 0 else 2;
  }

  /** `handle_del_participant`. Codes: 0 done, 1 no such meeting, 2 no such participant. */
  method HandleDelete(manager: MeetingManager, meet: string, part: string) returns (code: nat)
    requires manager.Valid()
    modifies manager.meetings.Values, manager.allocator.used
    ensures manager.Valid()
    ensures manager.Value() == Handle(old(manager.Value()), DeletePart(meet, part))
    ensures var s := old(manager.Value());
            code == if meet !in s.meetings then 1 else if part !in s.meetings[meet].parts then 2 else 0
  {
    if meet !in manager.meetings { return 1; }
    if part !in manager.meetings[meet].participants { return 2; }
    var ok := manager.DeleteParticipant(meet, part);
    return 0;
  }

  /** `handle_destroy_meeting`. Codes: 0 done, 1 no such meeting. */
  method HandleDestroy(manager: MeetingManager, meet: string) returns (code: nat)
    requires manager.Valid()
    modifies manager`meetings, manager.meetings.Values, manager.allocator.used
    ensures manager.Valid()
    ensures manager.Value() == Handle(old(manager.Value()), Destroy(meet))
    ensures code == if meet in old(manager.meetings) then 0 else 1
  {
    var ok := manager.DestroyMeeting(meet);
    return if ok then 0 else 1;
  }
}
