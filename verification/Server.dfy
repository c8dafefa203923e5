/** The manager and the API handlers of src/meeting_manager.cpp and src/server.cpp, each handler run
    to its end before the next, and who owns which port. */
module Server {
  import opened Basics
  import opened Ports
  import Meetings

  datatype Site = Site(pool: Pool, meetings: map<string, Meetings.Room>)

  /** One request. `bindable` holds the ports the allocator could probe, `answer` what starting the
      participant and the bridge reply. */
  datatype Request =
    | Create(meet: string)
    | AddPart(meet: string, part: string, bindable: set<uint16>, answer: Meetings.Answer)
    | AddPassive(meet: string, part: string, answer: Meetings.Answer)
    | DeletePart(meet: string, part: string)
    | Destroy(meet: string)

  function EmptySite(base: uint16, count: uint16): Site {
    Site(EmptyPool(base, count), map[])
  }

  /** Allocate a port, add the participant with it, give the port back if that fails. The same in
      `handle_add_participant` and, in split mode, `handle_add_passive_participant`. */
  function AddWithPort(s: Site, r: Request): Site
    requires r.AddPart? && ValidPool(s.pool)
  {
    if r.meet !in s.meetings then s
    else
      var (raw, pool) := Allocate(s.pool, r.bindable);
      if raw < 0 then s
      else
        var port := ToU16(raw);
        var room := s.meetings[r.meet];
        if Meetings.CanAdd(room, r.part, r.answer)
        then Site(pool, s.meetings[r.meet := Meetings.Add(room, r.part, port, r.answer)])
        else s.(pool := Release(pool, {port}))
  }

  function Handle(s: Site, r: Request): Site
    requires ValidPool(s.pool)
  {
    match r
    case Create(m) => s.(meetings := s.meetings[m := Meetings.EmptyRoom()])
    case AddPart(_, _, _, _) => AddWithPort(s, r)
    case AddPassive(m, p, a) =>
      if m !in s.meetings then s else s.(meetings := s.meetings[m := Meetings.Add(s.meetings[m], p, 0, a)])
    case DeletePart(m, p) =>
      if m !in s.meetings || p !in s.meetings[m].parts then s
      else
        var port := s.meetings[m].parts[p].port;
        var rest := s.meetings[m := Meetings.Remove(s.meetings[m], p)];
        if port > 0 then Site(Release(s.pool, {port}), rest) else s.(meetings := rest)
    case Destroy(m) =>
      if m !in s.meetings then s
      else Site(Release(s.pool, Meetings.PortsOf(s.meetings[m])), s.meetings - {m})
  }

  // ---------------------------------------------------------------- conservation

  /** Participant `p` of meeting `m` holds `port`. */
  predicate Holds(s: Site, m: string, p: string, port: int) {
    m in s.meetings && p in s.meetings[m].parts && s.meetings[m].parts[p].port == port
  }

  ghost predicate Held(s: Site, port: int) {
    exists m, p :: Holds(s, m, p, port)
  }

  predicate InUse(p: Pool, port: int) {
    p.base <= port < p.base + |p.used| && p.used[port - p.base]
  }

  /** No two participants hold the same nonzero port. */
  ghost predicate Disjoint(s: Site) {
    forall m, p, m', p', port: int ::
      Holds(s, m, p, port) && Holds(s, m', p', port) && port != 0 ==> m == m' && p == p'
  }

  /** The ports in use are exactly the nonzero ports that live participants hold, each held once. */
  ghost predicate Conserved(s: Site) {
    && (forall port: int {:trigger Held(s, port)} {:trigger InUse(s.pool, port)} ::
          InUse(s.pool, port) <==> port != 0 && Held(s, port))
    && Disjoint(s)
  }

  ghost predicate SiteInv(s: Site) {
    && ValidPool(s.pool) && Conserved(s)
    && forall m :: m in s.meetings ==> s.meetings[m].live && Meetings.FullMesh(s.meetings[m])
  }

  /** Every port of the pool is a real, nonzero port number. */
  predicate SaneRange(base: uint16, count: uint16) {
    count == 0 || (1 <= base && base + count <= 0x1_0000)
  }

  // ---------------------------------------------------------------- what each request does

  /** Two sites that differ in one meeting at most. */
  ghost predicate SameElsewhere(s: Site, t: Site, meet: string) {
    forall m :: m != meet ==> (m in t.meetings <==> m in s.meetings)
                              && (m in s.meetings ==> t.meetings[m] == s.meetings[m])
  }

  /** The pools differ in the marks of the given ports at most, and those are now free. */
  ghost predicate FreedExactly(p: Pool, q: Pool, ports: set<uint16>) {
    && q.base == p.base && q.count == p.count && q.next == p.next
    && forall port: int :: InUse(q, port) <==> InUse(p, port) && port !in ports
  }

  lemma ReleaseFrees(p: Pool, ports: set<uint16>)
    ensures FreedExactly(p, Release(p, ports), ports)
  {
  }

  /** A created meeting is live and empty; nothing else changes. */
  lemma CreateEffect(s: Site, m: string)
    requires ValidPool(s.pool)
    ensures var t := Handle(s, Create(m));
            && t.pool == s.pool && SameElsewhere(s, t, m)
            && m in t.meetings && t.meetings[m] == Meetings.Room(true, map[], {}, {})
  {
  }

  /** A deleted participant is gone with its slot and its connections, and its port, if it has one, is
      free again; nothing else changes. Deleting one that is not there changes nothing. */
  lemma DeleteEffect(s: Site, m: string, p: string)
    requires ValidPool(s.pool)
    ensures var t := Handle(s, DeletePart(m, p));
            && (m !in s.meetings || p !in s.meetings[m].parts ==> t == s)
            && (m in s.meetings && p in s.meetings[m].parts ==>
                  var room, part := s.meetings[m], s.meetings[m].parts[p];
                  && SameElsewhere(s, t, m) && m in t.meetings
                  && t.meetings[m].live == room.live && t.meetings[m].parts == room.parts - {p}
                  && t.meetings[m].slots == room.slots - {part.slot}
                  && (forall a, b :: (a, b) in t.meetings[m].conns <==>
                                       (a, b) in room.conns && a != part.slot && b != part.slot)
                  && FreedExactly(s.pool, t.pool, if part.port == 0 then {} else {part.port}))
  {
    if m in s.meetings && p in s.meetings[m].parts {
      ReleaseFrees(s.pool, {s.meetings[m].parts[p].port});
    }
  }

  /** A destroyed meeting is gone, and exactly the nonzero ports of its participants are free again. */
  lemma DestroyEffect(s: Site, m: string)
    requires ValidPool(s.pool)
    ensures var t := Handle(s, Destroy(m));
            && (m !in s.meetings ==> t == s)
            && (m in s.meetings ==>
                  && m !in t.meetings && SameElsewhere(s, t, m)
                  && t.pool.base == s.pool.base && t.pool.count == s.pool.count && t.pool.next == s.pool.next
                  && forall port: int :: InUse(t.pool, port) <==>
                       InUse(s.pool, port) && !(port != 0 && exists p :: Holds(s, m, p, port)))
  {
    if m in s.meetings {
      var gone := Meetings.PortsOf(s.meetings[m]);
      ReleaseFrees(s.pool, gone);
      forall port: int
        ensures port in gone <==> port != 0 && exists p :: Holds(s, m, p, port)
      {
        PortHeld(s, m, port);
      }
    }
  }

  lemma PortHeld(s: Site, m: string, port: int)
    requires m in s.meetings
    ensures port in Meetings.PortsOf(s.meetings[m]) <==> port != 0 && exists p :: Holds(s, m, p, port)
  {
    var parts := s.meetings[m].parts;
    if port in Meetings.PortsOf(s.meetings[m]) {
      var p :| p in parts && parts[p].port != 0 && parts[p].port == port;
      assert Holds(s, m, p, port);
    }
  }

  /** A room takes a participant: a live room, a new name, a start that succeeded, a slot from 1 to 31
      that no one has. */
  predicate Takes(room: Meetings.Room, p: string, a: Meetings.Answer) {
    room.live && p !in room.parts && a.started && 0 < a.slot < 32 && a.slot !in room.slots
  }

  /** The room after taking a participant: one more, on its slot, linked both ways with all others. */
  ghost predicate Joined(before: Meetings.Room, room: Meetings.Room, p: string, port: int, slot: nat) {
    && room.live && p in room.parts && room.parts[p].port == port && room.parts[p].slot == slot
    && (forall q :: q != p ==> (q in room.parts <==> q in before.parts)
                               && (q in before.parts ==> room.parts[q] == before.parts[q]))
    && room.slots == before.slots + {slot}
    && forall a, b :: (a, b) in room.conns <==>
         || (a, b) in before.conns
         || (a == slot && exists q :: q in before.parts && before.parts[q].slot == b)
         || (b == slot && exists q :: q in before.parts && before.parts[q].slot == a)
  }

  lemma AddJoins(room: Meetings.Room, p: string, port: uint16, a: Meetings.Answer)
    ensures Takes(room, p, a) ==> Joined(room, Meetings.Add(room, p, port, a), p, port, a.slot)
    ensures !Takes(room, p, a) ==> Meetings.Add(room, p, port, a) == room
    ensures Takes(room, p, a) <==> Meetings.CanAdd(room, p, a)
  {
  }

  /** Adding with a port: in a sane range it succeeds exactly if the meeting is there, some port is unused and
      bindable, and the room takes the participant. It then holds such a port, now marked used. Otherwise
      no meeting and no mark changes. */
  lemma AddEffect(s: Site, r: Request)
    requires ValidPool(s.pool) && SaneRange(s.pool.base, s.pool.count) && r.AddPart?
    ensures var t := Handle(s, r);
            var ok := && r.meet in s.meetings && Takes(s.meetings[r.meet], r.part, r.answer)
                      && exists i :: 0 <= i < s.pool.count && !s.pool.used[i] && s.pool.base + i in r.bindable;
            && t.pool.base == s.pool.base && t.pool.count == s.pool.count
            && (ok ==>
                  && SameElsewhere(s, t, r.meet) && r.meet in t.meetings && r.part in t.meetings[r.meet].parts
                  && var port: int := t.meetings[r.meet].parts[r.part].port;
                     && Joined(s.meetings[r.meet], t.meetings[r.meet], r.part, port, r.answer.slot)
                     && 0 <= port - s.pool.base < s.pool.count && port in r.bindable
                     && !s.pool.used[port - s.pool.base]
                     && t.pool.used == s.pool.used[port - s.pool.base := true])
            && (!ok ==> t.meetings == s.meetings && t.pool.used == s.pool.used)
  {
    hide Allocate, Meetings.Add, Meetings.CanAdd, Joined;
    if r.meet in s.meetings {
      PortGiven(s.pool, r.bindable);
      PlainPorts(s.pool, r.bindable);
      var (raw, pool) := Allocate(s.pool, r.bindable);
      AddJoins(s.meetings[r.meet], r.part, ToU16(raw), r.answer);
      if raw >= 0 {
        GiveBack(s.pool, pool, raw);
      }
    }
  }

  lemma PlainPorts(p: Pool, bindable: set<uint16>)
    requires ValidPool(p) && SaneRange(p.base, p.count)
    ensures forall i :: 0 <= i < p.count ==>
              (!p.used[i] && p.base + i in bindable <==> !(p.used[i] || (p.base + i) % 0x1_0000 !in bindable))
  {
  }

  lemma GiveBack(p: Pool, q: Pool, port: int)
    requires 0 <= port < 0x1_0000 && 0 <= port - p.base < |p.used| && !p.used[port - p.base]
    requires q.base == p.base && q.used == p.used[port - p.base := true]
    ensures Release(q, {port}).used == p.used
  {
  }

  /** Adding without a port takes the participant on the same terms, with port 0. */
  lemma AddPassiveEffect(s: Site, m: string, p: string, a: Meetings.Answer)
    requires ValidPool(s.pool)
    ensures var t := Handle(s, AddPassive(m, p, a));
            var ok := m in s.meetings && Takes(s.meetings[m], p, a);
            && t.pool == s.pool
            && (ok ==> SameElsewhere(s, t, m) && m in t.meetings && Joined(s.meetings[m], t.meetings[m], p, 0, a.slot))
            && (!ok ==> t == s)
  {
    if m in s.meetings {
      AddJoins(s.meetings[m], p, 0, a);
      assert s.meetings[m := s.meetings[m]] == s.meetings;
    }
  }

  lemma HeldIf(s: Site, t: Site, port: int)
    requires forall m, p :: Holds(t, m, p, port) ==> Holds(s, m, p, port)
    ensures Held(t, port) ==> Held(s, port)
  {
    if Held(t, port) {
      var m, p :| Holds(t, m, p, port);
      assert Holds(s, m, p, port);
    }
  }

  /** Changes that leave every nonzero holding and the used set alone. */
  lemma SameHolders(s: Site, t: Site)
    requires Conserved(s) && t.pool.used == s.pool.used && t.pool.base == s.pool.base
    requires forall m, p, port: int :: port != 0 ==> (Holds(t, m, p, port) <==> Holds(s, m, p, port))
    ensures Conserved(t)
  {
    forall port: int
      ensures InUse(t.pool, port) <==> port != 0 && Held(t, port)
    {
      if port != 0 {
        HeldIf(s, t, port);
        HeldIf(t, s, port);
      }
      assert InUse(t.pool, port) == InUse(s.pool, port);
    }
  }

  /** Participants go, and exactly their ports are released. */
  lemma ReleaseConserves(s: Site, t: Site, gone: set<uint16>)
    requires Conserved(s) && t.pool == Release(s.pool, gone)
    requires forall m, p, port: int :: Holds(t, m, p, port) ==> Holds(s, m, p, port) && (port == 0 || port !in gone)
    requires forall m, p, port: int :: Holds(s, m, p, port) && !Holds(t, m, p, port) ==> port == 0 || port in gone
    ensures Conserved(t)
  {
    forall port: int
      ensures InUse(t.pool, port) <==> port != 0 && Held(t, port)
    {
      ReleasedPort(s, t, gone, port);
    }
  }

  lemma ReleasedPort(s: Site, t: Site, gone: set<uint16>, port: int)
    requires Conserved(s) && t.pool == Release(s.pool, gone)
    requires forall m, p :: Holds(t, m, p, port) ==> Holds(s, m, p, port) && (port == 0 || port !in gone)
    requires forall m, p :: Holds(s, m, p, port) && !Holds(t, m, p, port) ==> port == 0 || port in gone
    ensures InUse(t.pool, port) <==> port != 0 && Held(t, port)
  {
    assert InUse(t.pool, port) <==> InUse(s.pool, port) && port !in gone;
    HeldIf(s, t, port);
    if port != 0 && Held(s, port) && port !in gone {
      var m, p :| Holds(s, m, p, port);
      assert Holds(t, m, p, port);
    }
  }

  /** One new participant comes with a port that was not in use. */
  lemma TakeConserves(s: Site, t: Site, i: nat, m: string, p: string)
    requires ValidPool(s.pool) && Conserved(s) && i < s.pool.count && !s.pool.used[i] && t.pool == Taken(s.pool, i)
    requires s.pool.base + i != 0 && Holds(t, m, p, s.pool.base + i)
    requires forall port: int :: !Holds(s, m, p, port)
    requires forall m', p', port: int :: (m', p') != (m, p) ==> (Holds(t, m', p', port) <==> Holds(s, m', p', port))
    ensures Conserved(t)
  {
    var taken := s.pool.base + i;
    assert !InUse(s.pool, taken);
    forall port: int
      ensures InUse(t.pool, port) <==> port != 0 && Held(t, port)
    {
      assert InUse(t.pool, port) <==> port == taken || InUse(s.pool, port);
      if port != taken {
        TakenPort(s, t, m, p, port);
      }
    }
    forall a, b, a', b', port: int | Holds(t, a, b, port) && Holds(t, a', b', port) && port != 0
      ensures a == a' && b == b'
    {
      assert Holds(s, a, b, port) || (a, b) == (m, p);
      assert Holds(s, a', b', port) || (a', b') == (m, p);
      assert Holds(s, a, b, port) || Holds(s, a', b', port) ==> Held(s, port);
    }
  }

  lemma TakenPort(s: Site, t: Site, m: string, p: string, port: int)
    requires !Holds(s, m, p, port) && !Holds(t, m, p, port)
    requires forall m', p' :: (m', p') != (m, p) ==> (Holds(t, m', p', port) <==> Holds(s, m', p', port))
    ensures Held(t, port) <==> Held(s, port)
  {
    HeldIf(s, t, port);
    HeldIf(t, s, port);
  }

  lemma AddSucceeds(s: Site, r: Request, raw: int, pool: Pool)
    requires SiteInv(s) && r.AddPart? && r.meet in s.meetings && Meetings.CanAdd(s.meetings[r.meet], r.part, r.answer)
    requires 1 <= raw < 0x1_0000 && 0 <= raw - s.pool.base < s.pool.count && !s.pool.used[raw - s.pool.base]
    requires pool == Taken(s.pool, raw - s.pool.base) && ValidPool(pool)
    ensures SiteInv(Site(pool, s.meetings[r.meet := Meetings.Add(s.meetings[r.meet], r.part, raw, r.answer)]))
  {
    var room := s.meetings[r.meet];
    var t := Site(pool, s.meetings[r.meet := Meetings.Add(room, r.part, raw, r.answer)]);
    Meetings.AddKeepsMesh(room, r.part, raw, r.answer);
    TakeConserves(s, t, raw - s.pool.base, r.meet, r.part);
  }

  lemma AddFails(s: Site, i: nat)
    requires SiteInv(s) && i < s.pool.count && !s.pool.used[i] && ValidPool(Taken(s.pool, i))
    requires s.pool.base + i < 0x1_0000
    ensures SiteInv(s.(pool := Release(Taken(s.pool, i), {s.pool.base + i})))
  {
    var t := s.(pool := Release(Taken(s.pool, i), {s.pool.base + i}));
    assert t.pool.used == s.pool.used;
    SameHolders(s, t);
  }

  lemma AddPartKeeps(s: Site, r: Request)
    requires SiteInv(s) && SaneRange(s.pool.base, s.pool.count) && r.AddPart?
    ensures SiteInv(AddWithPort(s, r))
  {
    hide Conserved, Meetings.FullMesh, Meetings.Add, Meetings.CanAdd, Release, Allocate;
    AllocateTakes(s.pool, r.bindable);
    var (raw, pool) := Allocate(s.pool, r.bindable);
    if r.meet in s.meetings && raw >= 0 {
      if Meetings.CanAdd(s.meetings[r.meet], r.part, r.answer) {
        AddSucceeds(s, r, raw, pool);
      } else {
        AddFails(s, raw - s.pool.base);
      }
    }
  }

  lemma AddPassiveKeeps(s: Site, r: Request)
    requires SiteInv(s) && r.AddPassive?
    ensures SiteInv(Handle(s, r))
  {
    var t := Handle(s, r);
    if r.meet in s.meetings {
      Meetings.AddKeepsMesh(s.meetings[r.meet], r.part, 0, r.answer);
      SameHolders(s, t);
    }
  }

  lemma DeleteKeeps(s: Site, r: Request)
    requires SiteInv(s) && r.DeletePart?
    ensures SiteInv(Handle(s, r))
  {
    hide Meetings.FullMesh, Conserved;
    if r.meet in s.meetings && r.part in s.meetings[r.meet].parts {
      Meetings.RemoveKeepsMesh(s.meetings[r.meet], r.part);
      DeleteConserves(s, r);
    }
  }

  lemma DeleteConserves(s: Site, r: Request)
    requires Conserved(s) && ValidPool(s.pool) && r.DeletePart?
    requires r.meet in s.meetings && r.part in s.meetings[r.meet].parts
    ensures Conserved(Handle(s, r))
  {
    var t := Handle(s, r);
    var port := s.meetings[r.meet].parts[r.part].port;
    forall m, p, held: int
      ensures Holds(t, m, p, held) <==> Holds(s, m, p, held) && (m, p) != (r.meet, r.part)
    {
      hide Conserved, Release;
    }
    if port > 0 {
      forall m, p, held: int | Holds(t, m, p, held)
        ensures held == 0 || held != port
      {
        hide Release, Handle, InUse;
        assert Holds(s, r.meet, r.part, port) && Holds(s, m, p, held);
      }
      ReleaseConserves(s, t, {port});
    } else {
      SameHolders(s, t);
    }
  }

  lemma OtherHolder(s: Site, m: string, p: string, meet: string, q: string, port: int)
    requires Disjoint(s) && Holds(s, m, p, port) && port != 0
    requires meet in s.meetings && m != meet && q in s.meetings[meet].parts
    ensures s.meetings[meet].parts[q].port != port
  {
    assert Holds(s, meet, q, s.meetings[meet].parts[q].port);
  }

  lemma DestroyKeeps(s: Site, r: Request)
    requires SiteInv(s) && r.Destroy?
    ensures SiteInv(Handle(s, r))
  {
    var t := Handle(s, r);
    if r.meet in s.meetings {
      var gone := Meetings.PortsOf(s.meetings[r.meet]);
      var parts := s.meetings[r.meet].parts;
      forall m, p, port: int | Holds(t, m, p, port) && port != 0
        ensures port !in gone
      {
        forall q | q in parts
          ensures parts[q].port != port
        {
          OtherHolder(s, m, p, r.meet, q, port);
        }
      }
      ReleaseConserves(s, t, gone);
    }
  }

  lemma HeldPort(s: Site, m: string, p: string, port: int)
    ensures Holds(s, m, p, port) && port != 0 ==> m in s.meetings && port in Meetings.PortsOf(s.meetings[m])
  {
  }

  /** A meeting id that collides replaces the old meeting without releasing its ports: the books
      survive exactly when the id is new or the old meeting held no port. */
  lemma CreateConserves(s: Site, m: string)
    requires SiteInv(s)
    ensures SiteInv(Handle(s, Create(m))) <==> (m in s.meetings ==> Meetings.PortsOf(s.meetings[m]) == {})
  {
    if m in s.meetings && Meetings.PortsOf(s.meetings[m]) != {} {
      CollisionLoses(s, m);
    } else {
      var t := Handle(s, Create(m));
      forall m', p, port: int | port != 0
        ensures Holds(t, m', p, port) <==> Holds(s, m', p, port)
      {
        HeldPort(s, m, p, port);
      }
      SameHolders(s, t);
    }
  }

  lemma CollisionLoses(s: Site, m: string)
    requires SiteInv(s) && m in s.meetings && Meetings.PortsOf(s.meetings[m]) != {}
    ensures !Conserved(Handle(s, Create(m)))
  {
    var t := Handle(s, Create(m));
    var port :| port in Meetings.PortsOf(s.meetings[m]);
    var p :| p in s.meetings[m].parts && s.meetings[m].parts[p].port == port;
    assert Holds(s, m, p, port);
    assert Held(s, port) && InUse(t.pool, port);
    forall m', p'
      ensures !Holds(t, m', p', port)
    {
      assert Holds(t, m', p', port) ==> Holds(s, m', p', port);
    }
    assert !Held(t, port);
  }

  lemma HandleKeeps(s: Site, r: Request)
    requires SiteInv(s) && SaneRange(s.pool.base, s.pool.count)
    requires r.Create? ==> r.meet !in s.meetings
    ensures SiteInv(Handle(s, r))
  {
    match r
    case Create(m) => CreateConserves(s, m);
    case AddPart(_, _, _, _) => AddPartKeeps(s, r);
    case AddPassive(_, _, _) => AddPassiveKeeps(s, r);
    case DeletePart(_, _) => DeleteKeeps(s, r);
    case Destroy(_) => DestroyKeeps(s, r);
  }

  lemma HandlePool(s: Site, r: Request)
    requires ValidPool(s.pool)
    ensures var p := Handle(s, r).pool; ValidPool(p) && p.base == s.pool.base && p.count == s.pool.count
  {
    if r.AddPart? {
      AllocateTakes(s.pool, r.bindable);
    }
  }

  /** A run of handlers from start-up in which every created meeting id is new. */
  ghost predicate FreshRun(base: uint16, count: uint16, sites: seq<Site>, reqs: seq<Request>) {
    && |sites| == |reqs| + 1 && sites[0] == EmptySite(base, count)
    && forall i :: 0 <= i < |reqs| ==>
         && ValidPool(sites[i].pool) && sites[i + 1] == Handle(sites[i], reqs[i])
         && (reqs[i].Create? ==> reqs[i].meet !in sites[i].meetings)
  }

  lemma EmptyConserved(base: uint16, count: uint16)
    ensures SiteInv(EmptySite(base, count))
  {
  }

  /** Over every run of create, add, split-add, passive-add, delete and destroy handlers, failures
      included: the ports in use are the ports held, and every meeting is a full mesh. */
  lemma {:induction false} PortsConserved(base: uint16, count: uint16, sites: seq<Site>, reqs: seq<Request>, i: nat)
    requires SaneRange(base, count) && FreshRun(base, count, sites, reqs) && i < |sites|
    ensures SiteInv(sites[i]) && sites[i].pool.base == base && sites[i].pool.count == count
  {
    if i == 0 {
      EmptyConserved(base, count);
    } else {
      PortsConserved(base, count, sites, reqs, i - 1);
      HandleKeeps(sites[i - 1], reqs[i - 1]);
      HandlePool(sites[i - 1], reqs[i - 1]);
    }
  }

  /** For a range that starts at 0 or runs past 65535, two requests lose a port: the participant gets
      the number cut to 16 bits, which is 0, while the pool counts the port as used. */
  lemma InsaneRangeLoses(base: uint16, count: uint16) returns (sites: seq<Site>, reqs: seq<Request>)
    requires !SaneRange(base, count)
    ensures FreshRun(base, count, sites, reqs) && !Conserved(sites[|reqs|])
  {
    var i := if base == 0 then 0 else 0x1_0000 - base;
    var s0 := EmptySite(base, count);
    var create := Create("m");
    var s1 := Handle(s0, create);
    var add := AddPart("m", "p", {0}, Meetings.Answer(true, 1));
    NextFit(s1.pool, {0});
    assert Free(s1.pool, i, {0});
    var (raw, pool) := Allocate(s1.pool, {0});
    var s2 := Handle(s1, add);
    sites, reqs := [s0, s1, s2], [create, add];
    assert ToU16(raw) == 0;
    assert s2.meetings["m"].parts == map["p" := Meetings.Part(0, 1)];
    assert InUse(s2.pool, raw);
    assert forall m, p, port: int :: Holds(s2, m, p, port) ==> port == 0;
    assert raw == 0 || !Held(s2, raw);
  }

  /** A colliding meeting id is no idle worry: in every range with a port, two requests from start-up
      reach a site where creating the same meeting again loses that port. */
  lemma CollisionHappens(base: uint16, count: uint16) returns (sites: seq<Site>, reqs: seq<Request>)
    requires SaneRange(base, count) && count > 0
    ensures FreshRun(base, count, sites, reqs) && ValidPool(sites[|reqs|].pool)
    ensures !Conserved(Handle(sites[|reqs|], Create("m")))
  {
    var s0 := EmptySite(base, count);
    var create := Create("m");
    var s1 := Handle(s0, create);
    var add := AddPart("m", "p", {base}, Meetings.Answer(true, 1));
    NextFit(s1.pool, {base});
    assert Free(s1.pool, 0, {base});
    var s2 := Handle(s1, add);
    sites, reqs := [s0, s1, s2], [create, add];
    PortsConserved(base, count, sites, reqs, 2);
    assert s2.meetings["m"].parts["p"].port in Meetings.PortsOf(s2.meetings["m"]);
    CollisionLoses(s2, "m");
  }

  /** The books hold over every run exactly for the port ranges that main should have insisted on. */
  lemma ConservationNeedsRange(base: uint16, count: uint16)
    ensures SaneRange(base, count) <==>
            forall sites, reqs :: FreshRun(base, count, sites, reqs) ==> Conserved(sites[|reqs|])
  {
    if SaneRange(base, count) {
      forall sites, reqs | FreshRun(base, count, sites, reqs)
        ensures Conserved(sites[|reqs|])
      {
        PortsConserved(base, count, sites, reqs, |reqs|);
      }
    } else {
      var sites, reqs := InsaneRangeLoses(base, count);
    }
  }
}
