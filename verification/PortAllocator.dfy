/** The port pool of src/port_allocator.cpp: circular next-fit over [base, base + count). */
module Ports {
  import opened Basics

  datatype Pool = Pool(base: uint16, count: uint16, next: nat, used: seq<bool>)

  ghost predicate ValidPool(p: Pool) {
    |p.used| == p.count && (p.next < p.count || (p.count == 0 && p.next == 0))
  }

  function EmptyPool(base: uint16, count: uint16): Pool {
    Pool(base, count, 0, seq(count, i => false))
  }

  /** The index looked at in round `j` of a scan. */
  function Slot(p: Pool, j: nat): nat
    requires p.count > 0
  {
    (p.next + j) % p.count
  }

  /** Index `i` could be given out now. `bindable` holds the ports a probe could bind. */
  predicate Free(p: Pool, i: nat, bindable: set<uint16>) {
    i < |p.used| && !p.used[i] && ToU16(p.base + i) in bindable
  }

  /** The first round from `j` on that finds a free index. */
  function Scan(p: Pool, j: nat, bindable: set<uint16>): Option<nat>
    decreases p.count - j
  {
    if j >= p.count then None
    else if Free(p, Slot(p, j), bindable) then Some(j)
    else Scan(p, j + 1, bindable)
  }

  function Taken(p: Pool, i: nat): Pool
    requires i < |p.used| && p.count > 0
  {
    p.(used := p.used[i := true], next := (i + 1) % p.count)
  }

  /** `allocate`: the port, or -1, and the pool after it. */
  function Allocate(p: Pool, bindable: set<uint16>): (int, Pool)
    requires ValidPool(p)
  {
    match Scan(p, 0, bindable)
    case None => (-1, p)
    case Some(j) => ScanFinds(p, 0, bindable); (p.base + Slot(p, j), Taken(p, Slot(p, j)))
  }

  /** `release` of a set of ports: indices outside the pool are ignored. */
  function Release(p: Pool, ports: set<uint16>): Pool {
    p.(used := seq(|p.used|, i requires 0 <= i < |p.used| => p.used[i] && p.base + i !in ports))
  }

  lemma {:induction false} ScanFinds(p: Pool, j: nat, bindable: set<uint16>)
    requires ValidPool(p)
    ensures match Scan(p, j, bindable)
            case None => forall k :: j <= k < p.count ==> !Free(p, Slot(p, k), bindable)
            case Some(r) =>
              && j <= r < p.count && Free(p, Slot(p, r), bindable)
              && forall k :: j <= k < r ==> !Free(p, Slot(p, k), bindable)
    decreases p.count - j
  {
    if j < p.count && !Free(p, Slot(p, j), bindable) {
      ScanFinds(p, j + 1, bindable);
    }
  }

  /** How many steps ahead of the scan start an index lies. */
  function Distance(p: Pool, i: nat): nat
    requires ValidPool(p) && i < p.count
  {
    if i >= p.next then i - p.next else i + p.count - p.next
  }

  lemma Wrap(a: nat, c: nat)
    requires a < 2 * c
    ensures a % c == if a < c then a else a - c
  {
    if a >= c {
      assert a == c + (a - c);
      assert a / c == 1;
    }
  }

  /** Rounds and distances are inverse to each other. */
  lemma SlotDistance(p: Pool, i: nat, j: nat)
    requires ValidPool(p) && i < p.count && j < p.count
    ensures Distance(p, i) < p.count && Slot(p, j) < p.count
    ensures Slot(p, j) == i <==> j == Distance(p, i)
  {
    Wrap(p.next + j, p.count);
  }

  /** Next fit: the port given out is free, bindable and the nearest such in cyclic order from
      `next`; it is -1 exactly when there is none; nothing else changes and `next` stays in range. */
  lemma NextFit(p: Pool, bindable: set<uint16>)
    requires ValidPool(p)
    ensures var (port, q) := Allocate(p, bindable);
            && ValidPool(q)
            && (port == -1 <==> forall i :: 0 <= i < p.count ==> !Free(p, i, bindable))
            && (port == -1 ==> q == p)
            && (port != -1 ==>
                  var i := port - p.base;
                  && 0 <= i < p.count && Free(p, i, bindable)
                  && (forall k :: 0 <= k < p.count && Free(p, k, bindable) ==> Distance(p, i) <= Distance(p, k))
                  && q == Taken(p, i))
  {
    ScanFinds(p, 0, bindable);
    forall k | 0 <= k < p.count
      ensures Distance(p, k) < p.count && Slot(p, Distance(p, k)) == k
    {
      SlotDistance(p, k, 0);
      SlotDistance(p, k, Distance(p, k));
    }
    match Scan(p, 0, bindable)
    case None =>
      forall i | 0 <= i < p.count
        ensures !Free(p, i, bindable)
      {
        assert !Free(p, Slot(p, Distance(p, i)), bindable);
      }
    case Some(j) =>
      forall k | 0 <= k < p.count && Free(p, k, bindable)
        ensures j <= Distance(p, k)
      {
        assert Free(p, Slot(p, Distance(p, k)), bindable);
      }
      SlotDistance(p, 0, j);
      SlotDistance(p, Slot(p, j), j);
      Wrap(Slot(p, j) + 1, p.count);
  }

  /** In terms of the pool's own fields: a port given out was unused and could be bound, exactly its mark is
      set and the next scan starts behind it; none is given exactly when every port is used or taken by
      another program. */
  lemma PortGiven(p: Pool, bindable: set<uint16>)
    requires ValidPool(p)
    ensures var (port, q) := Allocate(p, bindable);
            && (port == -1 <==> forall i :: 0 <= i < p.count ==> p.used[i] || (p.base + i) % 0x1_0000 !in bindable)
            && (port == -1 ==> q == p)
            && (port != -1 ==>
                  var i := port - p.base;
                  && 0 <= i < p.count && !p.used[i] && port % 0x1_0000 in bindable
                  && q == p.(used := p.used[i := true], next := if i + 1 == p.count then 0 else i + 1))
  {
    hide Allocate;
    NextFit(p, bindable);
    assert forall i :: 0 <= i < p.count ==>
        (Free(p, i, bindable) <==> !p.used[i] && (p.base + i) % 0x1_0000 in bindable);
    var i := Allocate(p, bindable).0 - p.base;
    if 0 <= i < p.count {
      Wrap(i + 1, p.count);
    }
  }

  /** The part of NextFit that bookkeeping needs. */
  lemma AllocateTakes(p: Pool, bindable: set<uint16>)
    requires ValidPool(p)
    ensures var (port, q) := Allocate(p, bindable);
            && ValidPool(q)
            && (port < 0 ==> q == p)
            && (port >= 0 ==> var i := port - p.base; 0 <= i < p.count && !p.used[i] && q == Taken(p, i))
  {
    NextFit(p, bindable);
  }

  // ---------------------------------------------------------------- fairness

  datatype Op = Ask(bindable: set<uint16>) | GiveBack(port: uint16)

  function Apply(p: Pool, op: Op): Pool
    requires ValidPool(p)
  {
    match op case Ask(b) => Allocate(p, b).1 case GiveBack(port) => Release(p, {port})
  }

  lemma ApplyValid(p: Pool, op: Op)
    requires ValidPool(p)
    ensures ValidPool(Apply(p, op)) && Apply(p, op).base == p.base && Apply(p, op).count == p.count
  {
    if op.Ask? {
      NextFit(p, op.bindable);
    }
  }

  /** What a list of calls hands out, in order, -1 included; releases hand out nothing. */
  function Handed(p: Pool, ops: seq<Op>): seq<int>
    requires ValidPool(p)
    decreases |ops|
  {
    if ops == [] then []
    else
      ApplyValid(p, ops[0]);
      (if ops[0].Ask? then [Allocate(p, ops[0].bindable).0] else []) + Handed(Apply(p, ops[0]), ops[1..])
  }

  /** One allocate that picks another port brings the scan closer to a waiting one. */
  lemma AllocateCloser(p: Pool, bindable: set<uint16>, i: nat)
    requires ValidPool(p) && i < p.count && Free(p, i, bindable)
    ensures var (port, q) := Allocate(p, bindable);
            port != p.base + i ==> ValidPool(q) && q.count == p.count && q.base == p.base
                                   && !q.used[i] && Distance(q, i) < Distance(p, i)
  {
    NextFit(p, bindable);
    var (port, q) := Allocate(p, bindable);
    var k := port - p.base;
    if k != i {
      Wrap(k + 1, p.count);
      SlotDistance(p, k, Distance(p, i));
    }
  }

  /** Fairness: a port that is free, and bindable whenever asked, is handed out within `count`
      allocate calls whatever other calls happen: without it, fewer than `count` allocates fit. */
  lemma {:induction false} Fairness(p: Pool, ops: seq<Op>, i: nat)
    requires ValidPool(p) && i < p.count && !p.used[i]
    requires forall k :: 0 <= k < |ops| && ops[k].Ask? ==> ToU16(p.base + i) in ops[k].bindable
    requires p.base + i !in Handed(p, ops)
    ensures |Handed(p, ops)| <= Distance(p, i) < p.count
    decreases |ops|
  {
    SlotDistance(p, i, 0);
    if ops != [] {
      var q := Apply(p, ops[0]);
      ApplyValid(p, ops[0]);
      if ops[0].Ask? {
        assert Handed(p, ops)[0] == Allocate(p, ops[0].bindable).0;
        AllocateCloser(p, ops[0].bindable, i);
      }
      assert forall x :: x in Handed(q, ops[1..]) ==> x in Handed(p, ops);
      Fairness(q, ops[1..], i);
    }
  }

  // ---------------------------------------------------------------- the class

  class PortAllocator {
    const base: uint16
    const count: uint16
    var next: nat
    const used: array<bool>

    constructor (base: uint16, count: uint16)
      ensures Value() == EmptyPool(base, count) && fresh(used)
      ensures this.base == base && this.count == count && next == 0
      ensures used.Length == count && forall i :: 0 <= i < count ==> !used[i]
    {
      this.base, this.count, next := base, count, 0;
      used := new bool[count](i => false);
    }

    function Value(): Pool
      reads this, used
    {
      Pool(base, count, next, used[..])
    }

    /** The scan loop; -1 when no index is free and bindable. */
    method AllocatePort(bindable: set<uint16>) returns (port: int)
      requires ValidPool(Value())
      modifies this, used
      ensures (port, Value()) == Allocate(old(Value()), bindable)
    {
      hide ToU16;
      ghost var p := Value();
      var j := 0;
      while j < count
        invariant 0 <= j <= count && Value() == p
        invariant Scan(p, 0, bindable) == Scan(p, j, bindable)
      {
        var i := (next + j) % count;
        assert i == Slot(p, j);
        if !used[i] && ToU16(base + i) in bindable {
          used[i] := true;
          next := (i + 1) % count;
          return base + i;
        }
        j := j + 1;
      }
      return -1;
    }

    method ReleasePort(port: uint16)
      requires ValidPool(Value())
      modifies used
      ensures Value() == Release(old(Value()), {port})
      ensures used[..] == if base <= port < base + count then old(used[..])[port - base := false] else old(used[..])
    {
      if port < base || port >= base + count {
        assert used[..] == Release(Value(), {port}).used;
        return;
      }
      used[port - base] := false;
      assert used[..] == Release(old(Value()), {port}).used;
    }
  }
}
