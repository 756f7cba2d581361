/** Connection state and the free-list slab that stores it. */
module ConnSlab {
  import opened Bytes

  datatype Lifecycle = WaitingForRequest | Parsing | Routed | Processing | Sending | Closed

  /** One connection; `stream` names the peer the socket belongs to. */
  datatype ConnState = ConnState(
    readBuf: Data,
    writeBuf: Data,
    state: Lifecycle,
    routeId: Option<nat>,
    requestMethod: Option<Data>,
    requestPath: Option<Data>,
    stream: Option<nat>,
    bytesWritten: nat)

  function NewConnState(peer: nat): ConnState
  {
    ConnState([], [], WaitingForRequest, None, None, None, Some(peer), 0)
  }

  type Slots = seq<Option<ConnState>>

  datatype Slab = Slab(slots: Slots, freeList: seq<nat>)

  function CountDown(n: nat): (s: seq<nat>)
    ensures |s| == n && forall i :: 0 <= i < n ==> s[i] == n - 1 - i
  {
    if n == 0 then [] else [n - 1] + CountDown(n - 1)
  }

  /** Every slot empty; the free list ends with slot 0, which is handed out first. */
  function NewSlab(capacity: nat): Slab
  {
    Slab(seq(capacity, _ => None), CountDown(capacity))
  }

  predicate Occupied(s: Slab, id: nat) { id < |s.slots| && s.slots[id].Some? }

  function OccupiedCount(slots: Slots): (n: nat)
    ensures n <= |slots|
  {
    if slots == [] then 0 else OccupiedCount(slots[..|slots| - 1]) + if slots[|slots| - 1].Some? then 1 else 0
  }

  predicate Distinct(xs: seq<nat>) { forall i, j :: 0 <= i < j < |xs| ==> xs[i] != xs[j] }

  /** The free list is duplicate-free and lists exactly the empty slots. */
  predicate SlabInv(s: Slab)
  {
    && Distinct(s.freeList)
    && (forall i :: 0 <= i < |s.freeList| ==> s.freeList[i] < |s.slots| && s.slots[s.freeList[i]].None?)
    && (forall id :: 0 <= id < |s.slots| && s.slots[id].None? ==> id in s.freeList)
  }

  function ActiveCount(s: Slab): int { |s.slots| - |s.freeList| }

  lemma {:induction false} CountUpdate(slots: Slots, id: nat, c: Option<ConnState>)
    requires id < |slots|
    ensures OccupiedCount(slots[id := c]) + (if slots[id].Some? then 1 else 0)
         == OccupiedCount(slots) + if c.Some? then 1 else 0
    decreases |slots|
  {
    var n := |slots| - 1;
    if id == n {
      assert slots[id := c][..n] == slots[..n];
    } else {
      assert slots[id := c][..n] == slots[..n][id := c];
      CountUpdate(slots[..n], id, c);
    }
  }

  lemma {:induction false} EmptyCount(n: nat)
    ensures OccupiedCount(seq(n, _ => None)) == 0
  {
    if n > 0 {
      var s: Slots := seq(n, _ => None);
      assert s[..n - 1] == seq(n - 1, _ => None);
      EmptyCount(n - 1);
    }
  }

  lemma NewSlabInv(capacity: nat)
    ensures SlabInv(NewSlab(capacity))
  {
    var s := NewSlab(capacity);
    forall id | 0 <= id < capacity
      ensures id in s.freeList
    {
      assert s.freeList[capacity - 1 - id] == id;
    }
  }

  /** The empty slots below n. */
  function Vacant(slots: Slots, n: nat): set<nat>
    requires n <= |slots|
  {
    set id | 0 <= id < n && slots[id].None?
  }

  lemma {:induction false} VacantCount(slots: Slots)
    ensures |Vacant(slots, |slots|)| + OccupiedCount(slots) == |slots|
    decreases |slots|
  {
    if slots != [] {
      var n := |slots| - 1;
      VacantCount(slots[..n]);
      assert Vacant(slots, n) == Vacant(slots[..n], n);
      if slots[n].None? {
        assert Vacant(slots, |slots|) == Vacant(slots, n) + {n};
      } else {
        assert Vacant(slots, |slots|) == Vacant(slots, n);
      }
    }
  }

  function Elements(xs: seq<nat>): set<nat> { set x | x in xs }

  lemma {:induction false} DistinctCount(xs: seq<nat>)
    requires Distinct(xs)
    ensures |Elements(xs)| == |xs|
    decreases |xs|
  {
    if xs != [] {
      var n := |xs| - 1;
      DistinctCount(xs[..n]);
      assert xs[n] !in xs[..n];
      assert Elements(xs) == Elements(xs[..n]) + {xs[n]};
    }
  }

  /** Being duplicate-free and listing exactly the empty slots, the free list has the right length:
      `active_count` is the number of occupied slots. */
  lemma ActiveCountIsOccupied(s: Slab)
    requires SlabInv(s)
    ensures ActiveCount(s) == OccupiedCount(s.slots)
  {
    DistinctCount(s.freeList);
    VacantCount(s.slots);
    assert Elements(s.freeList) == Vacant(s.slots, |s.slots|);
  }

  datatype Inserted = Inserted(slab: Slab, id: Option<nat>)

  function InsertConn(s: Slab, c: ConnState): (r: Inserted)
    requires SlabInv(s)
    ensures r.id.None? <==> s.freeList == []
    ensures r.id.None? ==> r.slab == s
    ensures r.id.Some? ==> r.id.value < |s.slots| && !Occupied(s, r.id.value)
  {
    if s.freeList == [] then Inserted(s, None)
    else
      var id := s.freeList[|s.freeList| - 1];
      Inserted(Slab(s.slots[id := Some(c)], s.freeList[..|s.freeList| - 1]), Some(id))
  }

  lemma InsertKeepsInv(s: Slab, c: ConnState)
    requires SlabInv(s)
    ensures SlabInv(InsertConn(s, c).slab)
  {
    if s.freeList != [] {
      var n := |s.freeList| - 1;
      var id := s.freeList[n];
      var s' := InsertConn(s, c).slab;
      forall k | 0 <= k < |s'.slots| && s'.slots[k].None?
        ensures k in s'.freeList
      {
        assert k in s.freeList;
        var i :| 0 <= i < |s.freeList| && s.freeList[i] == k;
        assert s'.freeList[i] == k;
      }
    }
  }

  function RemoveConn(s: Slab, id: nat): Slab
  {
    if id < |s.slots| then Slab(s.slots[id := None], s.freeList + [id]) else s
  }

  /** Removing an occupied slot keeps the free list exact. */
  lemma RemoveKeepsInv(s: Slab, id: nat)
    requires SlabInv(s) && Occupied(s, id)
    ensures SlabInv(RemoveConn(s, id))
  {
    var s' := RemoveConn(s, id);
    forall k | 0 <= k < |s'.slots| && s'.slots[k].None?
      ensures k in s'.freeList
    {
      if k == id {
        assert s'.freeList[|s.freeList|] == id;
      } else {
        assert k in s.freeList;
        var i :| 0 <= i < |s.freeList| && s.freeList[i] == k;
        assert s'.freeList[i] == k;
      }
    }
  }

  /** Removing an empty slot breaks it: the condition `remove` needs from its callers is exact. */
  lemma RemoveNeedsOccupied(s: Slab, id: nat)
    requires SlabInv(s) && id < |s.slots|
    ensures SlabInv(RemoveConn(s, id)) <==> Occupied(s, id)
  {
    if Occupied(s, id) {
      RemoveKeepsInv(s, id);
    } else {
      var i :| 0 <= i < |s.freeList| && s.freeList[i] == id;
      var f := RemoveConn(s, id).freeList;
      assert f[i] == f[|s.freeList|] == id;
    }
  }

  /** The same for any id: `remove` ignores one that is out of range. */
  lemma RemoveKeepsInvIff(s: Slab, id: nat)
    requires SlabInv(s)
    ensures SlabInv(RemoveConn(s, id)) <==> Occupied(s, id) || id >= |s.slots|
  {
    if id < |s.slots| {
      RemoveNeedsOccupied(s, id);
    }
  }

  /** Slots are handed out from 0, and the one freed last is the next to be reused. */
  lemma NextSlot(s: Slab, id: nat, c: ConnState, capacity: nat)
    requires SlabInv(s) && Occupied(s, id) && capacity > 0
    ensures SlabInv(RemoveConn(s, id)) && InsertConn(RemoveConn(s, id), c).id == Some(id)
    ensures SlabInv(NewSlab(capacity)) && InsertConn(NewSlab(capacity), c).id == Some(0)
  {
    RemoveKeepsInv(s, id);
    NewSlabInv(capacity);
  }

  /** Writing a borrowed connection back to its slot. */
  function PutConn(s: Slab, id: nat, c: ConnState): Slab
    requires Occupied(s, id)
  {
    s.(slots := s.slots[id := Some(c)])
  }

  lemma PutKeepsInv(s: Slab, id: nat, c: ConnState)
    requires SlabInv(s) && Occupied(s, id)
    ensures SlabInv(PutConn(s, id, c)) && OccupiedCount(PutConn(s, id, c).slots) == OccupiedCount(s.slots)
  {
    CountUpdate(s.slots, id, Some(c));
  }

  // ---- the class -----------------------------------------------------------------------------------

  class ConnTable {
    var slots: Slots
    var freeList: seq<nat>
    const capacity: nat

    function Abstract(): Slab
      reads this
    {
      Slab(slots, freeList)
    }

    ghost predicate Valid()
      reads this
    {
      SlabInv(Abstract()) && |slots| == capacity
    }

    constructor (capacity: nat)
      ensures Valid() && Abstract() == NewSlab(capacity) && this.capacity == capacity
    {
      var slots: Slots, freeList: seq<nat> := [], [];
      var i := capacity;
      while i > 0
        invariant 0 <= i <= capacity && |slots| == |freeList| == capacity - i
        invariant forall k :: 0 <= k < capacity - i ==> slots[k].None? && freeList[k] == capacity - 1 - k
      {
        i := i - 1;
        slots := slots + [None];
        freeList := freeList + [i];
      }
      this.slots := slots;
      this.freeList := freeList;
      this.capacity := capacity;
      assert freeList == CountDown(capacity) && slots == NewSlab(capacity).slots;
      NewSlabInv(capacity);
    }

    method Insert(conn: ConnState) returns (id: Option<nat>)
      requires Valid()
      modifies this
      ensures Valid()
      ensures Inserted(Abstract(), id) == InsertConn(old(Abstract()), conn)
      ensures id.Some? ==> !Occupied(old(Abstract()), id.value) && Occupied(Abstract(), id.value)
    {
      InsertKeepsInv(Abstract(), conn);
      if |freeList| > 0 {
        var idx := freeList[|freeList| - 1];
        freeList := freeList[..|freeList| - 1];
        slots := slots[idx := Some(conn)];
        return Some(idx);
      }
      return None;
    }

    method GetMut(id: nat) returns (c: Option<ConnState>)
      ensures c == if Occupied(Abstract(), id) then Some(slots[id].value) else None
    {
      if id < |slots| {
        return slots[id];
      }
      return None;
    }

    method WriteBack(id: nat, c: ConnState)
      requires Valid() && Occupied(Abstract(), id)
      modifies this
      ensures Valid() && Abstract() == PutConn(old(Abstract()), id, c)
    {
      PutKeepsInv(Abstract(), id, c);
      slots := slots[id := Some(c)];
    }

    /** Any id is accepted; an id out of range changes nothing, an empty slot spoils the list. */
    method Remove(id: nat)
      requires Valid()
      modifies this
      ensures Abstract() == RemoveConn(old(Abstract()), id)
      ensures Valid() <==> Occupied(old(Abstract()), id) || id >= capacity
      ensures !Occupied(Abstract(), id)
    {
      RemoveKeepsInvIff(Abstract(), id);
      if id < capacity {
        slots := slots[id := None];
        freeList := freeList + [id];
      }
    }

    method Active() returns (n: nat)
      requires Valid()
      ensures n == OccupiedCount(slots)
    {
      ActiveCountIsOccupied(Abstract());
      n := capacity - |freeList|;
    }
  }
}
