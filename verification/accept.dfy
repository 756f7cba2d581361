/** The accept loop of the main thread, and its place in the pipeline. */
module Accept {
  import opened Bytes
  import opened ConnSlab
  import opened Stages
  import opened Pipeline
  import opened PipelineTheorems
  import RingQueue

  /** What the accept loop works on: the slab, the parse queue, and `total_conns`. */
  datatype Door = Door(slab: Slab, queue: seq<nat>, conns: int)

  /** One accepted stream: a slot if there is one, then counted, then queued if there is room. */
  function AcceptOne(room: nat, d: Door, peer: nat): (r: Door)
    requires SlabInv(d.slab)
    ensures SlabInv(r.slab) && |r.slab.slots| == |d.slab.slots|
  {
    InsertKeepsInv(d.slab, NewConnState(peer));
    var ins := InsertConn(d.slab, NewConnState(peer));
    if ins.id.None? then d
    else Door(ins.slab, if |d.queue| + 1 < room then d.queue + [ins.id.value] else d.queue, d.conns + 1)
  }

  function AcceptSpec(room: nat, d: Door, peers: seq<nat>): (r: Door)
    requires SlabInv(d.slab)
    ensures SlabInv(r.slab) && |r.slab.slots| == |d.slab.slots|
    decreases |peers|
  {
    if peers == [] then d else AcceptOne(room, AcceptSpec(room, d, peers[..|peers| - 1]), peers[|peers| - 1])
  }

  function Spare(room: nat, q: seq<nat>): nat { if |q| + 1 < room then room - 1 - |q| else 0 }

  /** The last n ids of the free list, the last one first. */
  function LastOnes(free: seq<nat>, n: nat): (ids: seq<nat>)
    requires n <= |free|
    ensures |ids| == n
  {
    if n == 0 then [] else LastOnes(free, n - 1) + [free[|free| - n]]
  }

  /** How `r` follows from `d` when `taken` streams got slots. */
  predicate Took(room: nat, d: Door, r: Door, taken: nat)
  {
    var free := d.slab.freeList;
    && taken <= |free|
    && r.conns == d.conns + taken
    && OccupiedCount(r.slab.slots) == OccupiedCount(d.slab.slots) + taken
    && r.slab.freeList == free[..|free| - taken]
    && r.queue == d.queue + LastOnes(free, Min(taken, Spare(room, d.queue)))
  }

  lemma TakeAnother(room: nat, d: Door, r: Door, taken: nat, peer: nat)
    requires SlabInv(r.slab) && Took(room, d, r, taken)
    ensures Took(room, d, AcceptOne(room, r, peer), Min(taken + 1, |d.slab.freeList|))
  {
    hide SlabInv, OccupiedCount, AcceptOne, InsertConn;
    var free := d.slab.freeList;
    if taken < |free| {
      var id := free[|free| - 1 - taken];
      TakenSlot(room, r, id, peer);
      assert free[..|free| - taken][..|free| - taken - 1] == free[..|free| - taken - 1];
      var queued := LastOnes(free, Min(taken, Spare(room, d.queue)));
      assert d.queue + queued + [id] == d.queue + (queued + [id]);
    } else {
      RefusedStream(room, r, peer);
    }
  }

  lemma RefusedStream(room: nat, r: Door, peer: nat)
    requires SlabInv(r.slab) && r.slab.freeList == []
    ensures AcceptOne(room, r, peer) == r
  {
    hide SlabInv;
  }

  lemma TakenSlot(room: nat, r: Door, id: nat, peer: nat)
    requires SlabInv(r.slab) && |r.slab.freeList| > 0 && r.slab.freeList[|r.slab.freeList| - 1] == id
    ensures var t := AcceptOne(room, r, peer);
            && t.conns == r.conns + 1 && t.slab.freeList == r.slab.freeList[..|r.slab.freeList| - 1]
            && t.queue == (if |r.queue| + 1 < room then r.queue + [id] else r.queue)
            && OccupiedCount(t.slab.slots) == OccupiedCount(r.slab.slots) + 1
  {
    CountUpdate(r.slab.slots, id, Some(NewConnState(peer)));
    hide OccupiedCount, Distinct;
  }

  /** A batch of streams with no stage running in between: as many are taken as there are free
      slots, each counted once; the first of them are queued in order, as many as the queue has
      room for, behind what waited. */
  lemma {:induction false} AcceptTakesWhatFits(room: nat, d: Door, peers: seq<nat>)
    requires SlabInv(d.slab)
    ensures Took(room, d, AcceptSpec(room, d, peers), Min(|peers|, |d.slab.freeList|))
    decreases |peers|
  {
    hide AcceptOne, SlabInv;
    if peers == [] {
      TookNone(room, d);
    } else {
      var n := |peers| - 1;
      AcceptTakesWhatFits(room, d, peers[..n]);
      TakeAnother(room, d, AcceptSpec(room, d, peers[..n]), Min(n, |d.slab.freeList|), peers[n]);
    }
  }

  lemma TookNone(room: nat, d: Door)
    ensures Took(room, d, d, 0)
  {
  }

  /** The loop: insert, count and push under the contract of each part. */
  method AcceptStreams(streams: seq<nat>, slab: ConnTable, metrics: Counter, queue: RingQueue.SpscRing)
    requires slab.Valid() && queue.Valid()
    modifies slab, metrics, queue, queue.buffer
    ensures slab.Valid() && queue.Valid()
    ensures Door(slab.Abstract(), queue.Contents(), metrics.totalConns)
         == AcceptSpec(queue.capacity, old(Door(slab.Abstract(), queue.Contents(), metrics.totalConns)), streams)
  {
    hide SlabInv, InsertConn, RingQueue.Inv, RingQueue.Queue;
    ghost var start := Door(slab.Abstract(), queue.Contents(), metrics.totalConns);
    SlabOk(slab);
    for i := 0 to |streams|
      invariant slab.Valid() && queue.Valid()
      invariant Door(slab.Abstract(), queue.Contents(), metrics.totalConns)
             == AcceptSpec(queue.capacity, start, streams[..i])
    {
      assert streams[..i + 1][..i] == streams[..i];
      var id := slab.Insert(NewConnState(streams[i]));
      if id.Some? {
        metrics.totalConns := metrics.totalConns + 1;
        var ok := queue.Push(id.value);
      }
    }
    assert streams[..|streams|] == streams;
  }

  /** The steps of the accept thread for one stream; those that do not apply do nothing. */
  function AcceptSteps(): seq<Step>
  {
    [Arrive, AcceptLock, AcceptInsert, AcceptCount, AcceptUnlock, AcceptPush]
  }

  lemma SlabOk(slab: ConnTable)
    requires slab.Valid()
    ensures SlabInv(slab.Abstract())
  {
  }

  /** Accepting the next stream without interruption is this run of the accept thread. */
  lemma AcceptIsARun(cfg: Config, s: Sys)
    requires Inv(cfg, s) && s.lock.None? && s.acceptor.AIdle?
    ensures var t := Moves(cfg, s, AcceptSteps());
            && Shape(s) && Shape(t)
            && Door(t.slab, t.queues[0], t.totalConns)
               == AcceptOne(cfg.queueCapacity, Door(s.slab, s.queues[0], s.totalConns), |s.peers|)
            && t.acceptor.AIdle? && t.lock.None? && t.hands == s.hands && |t.peers| == |s.peers| + 1
            && (Room(cfg, s.queues[0]) ==> t.dropped == s.dropped)
  {
    hide Inv, SlabInv, InsertConn, Moves;
    ShapeOf(cfg, s);
    var m1, m2, m3, m4, m5 := SixMoves(cfg, s);
  }

  function ManySteps(n: nat): seq<Step>
  {
    if n == 0 then [] else ManySteps(n - 1) + AcceptSteps()
  }

  /** The next n peers. */
  function NextPeers(s: Sys, n: nat): (peers: seq<nat>)
    ensures |peers| == n
  {
    if n == 0 then [] else NextPeers(s, n - 1) + [|s.peers| + n - 1]
  }

  /** A whole batch, uninterrupted, is a run of the accept thread. */
  lemma {:induction false} BatchOfAcceptsIsARun(cfg: Config, s: Sys, n: nat)
    requires Inv(cfg, s) && s.lock.None? && s.acceptor.AIdle?
    ensures var t := Moves(cfg, s, ManySteps(n));
            && Shape(s) && Shape(t)
            && Door(t.slab, t.queues[0], t.totalConns)
               == AcceptSpec(cfg.queueCapacity, Door(s.slab, s.queues[0], s.totalConns), NextPeers(s, n))
            && t.acceptor.AIdle? && t.lock.None? && t.hands == s.hands && |t.peers| == |s.peers| + n
  {
    hide Inv, SlabInv, Move, AcceptOne, AcceptSteps;
    ShapeOf(cfg, s);
    if n > 0 {
      BatchOfAcceptsIsARun(cfg, s, n - 1);
      MovesConcat(cfg, s, ManySteps(n - 1), AcceptSteps());
      AcceptIsARun(cfg, Moves(cfg, s, ManySteps(n - 1)));
    }
  }

  lemma AcceptMoves(cfg: Config, s: Sys, steps: seq<Step>, step: Step)
    requires Inv(cfg, s) && !StageStep(step)
    ensures var m := Moves(cfg, s, steps);
            Shape(m) && Moves(cfg, s, steps + [step]) == AcceptMove(cfg, m, step)
  {
    hide AcceptMove, StageMove, Inv;
    MovesOne(cfg, s, steps, step);
  }

  lemma SixMoves(cfg: Config, s: Sys) returns (m1: Sys, m2: Sys, m3: Sys, m4: Sys, m5: Sys)
    requires Inv(cfg, s)
    ensures Shape(s) && Shape(m1) && Shape(m2) && Shape(m3) && Shape(m4) && Shape(m5)
    ensures m1 == AcceptMove(cfg, s, Arrive) && m2 == AcceptMove(cfg, m1, AcceptLock)
    ensures m3 == AcceptMove(cfg, m2, AcceptInsert) && m4 == AcceptMove(cfg, m3, AcceptCount)
    ensures m5 == AcceptMove(cfg, m4, AcceptUnlock)
    ensures var t := Moves(cfg, s, AcceptSteps());
            Shape(t) && t == AcceptMove(cfg, m5, AcceptPush)
  {
    hide Inv, AcceptMove, Shape;
    var a := AcceptSteps();
    assert Moves(cfg, s, []) == s;
    assert [] + [a[0]] == a[..1];
    assert a[..1] + [a[1]] == a[..2];
    assert a[..2] + [a[2]] == a[..3];
    assert a[..3] + [a[3]] == a[..4];
    assert a[..4] + [a[4]] == a[..5];
    assert a[..5] + [a[5]] == a;
    AcceptMoves(cfg, s, [], a[0]);
    AcceptMoves(cfg, s, a[..1], a[1]);
    AcceptMoves(cfg, s, a[..2], a[2]);
    AcceptMoves(cfg, s, a[..3], a[3]);
    AcceptMoves(cfg, s, a[..4], a[4]);
    AcceptMoves(cfg, s, a[..5], a[5]);
    ShapeOf(cfg, Moves(cfg, s, a));
    m1, m2, m3 := Moves(cfg, s, a[..1]), Moves(cfg, s, a[..2]), Moves(cfg, s, a[..3]);
    m4, m5 := Moves(cfg, s, a[..4]), Moves(cfg, s, a[..5]);
  }
}
