/**
  The multi-core pipeline: the accept thread and five stage threads over one locked slab and the
  queues between them, any interleaving.  A queue operation is one step, the bounded FIFO that
  `RingQueue` proves its interleavings to be; locking, the body of `process_one`, each counter
  update and unlocking are steps of their own.
*/
module Pipeline {
  import opened Bytes
  import opened ConnSlab
  import opened Stages

  const STAGES: nat := 5
  const ACCEPTOR: nat := 5

  /** The accept loop: a stream in hand, inside the lock, or about to push. */
  datatype Acceptor =
    | AIdle
    | AHasStream(peer: nat)
    | ALocked(peer: nat)
    | AInserted(id: nat)
    | ACounted(id: nat)
    | ARefused
    | APushing(id: nat)

  /** A stage thread: from `Working` to `Leaving` it holds the slab lock. */
  datatype Hand =
    | Free
    | Popped(id: nat)
    | Working(id: nat)
    | Pushing(id: nat)
    | Closing(id: nat)
    | Removing(id: nat)
    | Leaving
    | Dead

  /** The far end of a socket: what was read from it and what it has accepted. */
  datatype Peer = Peer(received: Data, sent: Data)

  /** `dropped` are the ids that no queue and no thread will ever hold again, `answered` the peers
      whose connection was closed after a complete write. */
  datatype Sys = Sys(
    slab: Slab,
    lock: Option<nat>,
    queues: seq<seq<nat>>,
    hands: seq<Hand>,
    acceptor: Acceptor,
    totalConns: int,
    dropped: set<nat>,
    peers: seq<Peer>,
    answered: set<nat>)

  function NewSys(cfg: Config): Sys
  {
    Sys(NewSlab(cfg.slabCapacity), None, [[], [], [], [], []], [Free, Free, Free, Free, Free],
        AIdle, 0, {}, [], {})
  }

  datatype Step =
    | Arrive
    | AcceptLock
    | AcceptInsert
    | AcceptCount
    | AcceptUnlock
    | AcceptPush
    | PopNext(stage: nat)
    | TakeLock(stage: nat)
    | Work(stage: nat, io: Io)
    | PushNext(stage: nat)
    | CountDown(stage: nat)
    | FreeSlot(stage: nat)
    | Unlock(stage: nat)

  predicate Shape(s: Sys)
  {
    |s.queues| == STAGES && |s.hands| == STAGES && SlabInv(s.slab)
  }

  // ---- the steps -------------------------------------------------------------------------------------

  predicate Room(cfg: Config, q: seq<nat>) { |q| + 1 < cfg.queueCapacity }

  function AcceptMove(cfg: Config, s: Sys, step: Step): Sys
    requires Shape(s)
  {
    match (step, s.acceptor)
    case (Arrive, AIdle) => s.(acceptor := AHasStream(|s.peers|), peers := s.peers + [Peer([], [])])
    case (AcceptLock, AHasStream(k)) =>
      if s.lock.None? then s.(lock := Some(ACCEPTOR), acceptor := ALocked(k)) else s
    case (AcceptInsert, ALocked(k)) =>
      var r := InsertConn(s.slab, NewConnState(k));
      s.(slab := r.slab, acceptor := if r.id.Some? then AInserted(r.id.value) else ARefused)
    case (AcceptCount, AInserted(id)) => s.(totalConns := s.totalConns + 1, acceptor := ACounted(id))
    case (AcceptUnlock, ACounted(id)) => s.(lock := None, acceptor := APushing(id))
    case (AcceptUnlock, ARefused) => s.(lock := None, acceptor := AIdle)
    case (AcceptPush, APushing(id)) =>
      if Room(cfg, s.queues[0]) then s.(queues := s.queues[0 := s.queues[0] + [id]], acceptor := AIdle)
      else s.(dropped := s.dropped + {id}, acceptor := AIdle)
    case _ => s
  }

  /** What the socket of the connection in hand saw of one `process_one`. */
  function PeerAfter(stage: nat, p: Peer, c: ConnState, io: Io): Peer
  {
    if stage == PARSE && io.Read? then p.(received := p.received + io.input)
    else if stage == NET_OUT && Taken(c, io) > 0 then
      p.(sent := p.sent + c.writeBuf[c.bytesWritten..c.bytesWritten + Taken(c, io)])
    else p
  }

  function WorkMove(cfg: Config, s: Sys, i: nat, id: nat, io: Io): Sys
    requires Shape(s) && i < STAGES
  {
    if i == ENCODE then s.(hands := s.hands[i := Pushing(id)])
    else if !Occupied(s.slab, id) then s.(hands := s.hands[i := Leaving])
    else
      var c := s.slab.slots[id].value;
      var o := ProcessOne(cfg, i, c, io);
      var s' := s.(slab := PutConn(s.slab, id, o.conn),
                   peers := if c.stream.Some? && c.stream.value < |s.peers|
                            then s.peers[c.stream.value := PeerAfter(i, s.peers[c.stream.value], c, io)]
                            else s.peers);
      match o.verdict
      case Forward => s'.(hands := s.hands[i := Pushing(id)])
      case Lose => s'.(hands := s.hands[i := Leaving], dropped := s.dropped + {id})
      case Abort => s'.(hands := s.hands[i := Dead], dropped := s.dropped + {id}, lock := None)
      case Close => s'.(hands := s.hands[i := Closing(id)])
  }

  function FreeMove(s: Sys, i: nat, id: nat): Sys
    requires Shape(s) && i < STAGES
  {
    var done := Occupied(s.slab, id) && s.slab.slots[id].value.stream.Some?
                && s.slab.slots[id].value.bytesWritten >= |s.slab.slots[id].value.writeBuf|;
    s.(slab := RemoveConn(s.slab, id), hands := s.hands[i := Leaving],
       answered := if done then s.answered + {s.slab.slots[id].value.stream.value} else s.answered)
  }

  function PushMove(cfg: Config, s: Sys, i: nat, id: nat): Sys
    requires Shape(s) && i < STAGES
  {
    if i + 1 < STAGES && Room(cfg, s.queues[i + 1]) then
      s.(queues := s.queues[i + 1 := s.queues[i + 1] + [id]], hands := s.hands[i := Leaving])
    else s.(hands := s.hands[i := Leaving], dropped := s.dropped + {id})
  }

  function StageMove(cfg: Config, s: Sys, step: Step, i: nat): Sys
    requires Shape(s) && i < STAGES
  {
    match (step, s.hands[i])
    case (PopNext(_), Free) =>
      if s.queues[i] == [] then s
      else s.(queues := s.queues[i := s.queues[i][1..]], hands := s.hands[i := Popped(s.queues[i][0])])
    case (TakeLock(_), Popped(id)) =>
      if s.lock.None? then s.(lock := Some(i), hands := s.hands[i := Working(id)]) else s
    case (Work(_, io), Working(id)) => WorkMove(cfg, s, i, id, io)
    case (PushNext(_), Pushing(id)) => PushMove(cfg, s, i, id)
    case (CountDown(_), Closing(id)) => s.(totalConns := s.totalConns - 1, hands := s.hands[i := Removing(id)])
    case (FreeSlot(_), Removing(id)) => FreeMove(s, i, id)
    case (Unlock(_), Leaving) => s.(lock := None, hands := s.hands[i := Free])
    case _ => s
  }

  predicate StageStep(step: Step)
  {
    step.PopNext? || step.TakeLock? || step.Work? || step.PushNext? || step.CountDown? || step.FreeSlot? || step.Unlock?
  }

  /** One step of one thread; a step its thread is not ready for does nothing. */
  function Move(cfg: Config, s: Sys, step: Step): Sys
    requires Shape(s)
  {
    if !StageStep(step) then AcceptMove(cfg, s, step)
    else if step.stage < STAGES then StageMove(cfg, s, step, step.stage)
    else s
  }

  // ---- who holds an id -----------------------------------------------------------------------------------

  predicate HandHolds(h: Hand, id: nat)
  {
    match h
    case Popped(x) => x == id
    case Working(x) => x == id
    case Pushing(x) => x == id
    case Closing(x) => x == id
    case Removing(x) => x == id
    case _ => false
  }

  predicate AcceptorHolds(a: Acceptor, id: nat)
  {
    match a
    case AInserted(x) => x == id
    case ACounted(x) => x == id
    case APushing(x) => x == id
    case _ => false
  }

  function QueueCount(qs: seq<seq<nat>>, id: nat): nat
    decreases |qs|
  {
    if qs == [] then 0 else QueueCount(qs[..|qs| - 1], id) + multiset(qs[|qs| - 1])[id]
  }

  function One01(b: bool): nat { if b then 1 else 0 }

  function HandCount(hs: seq<Hand>, id: nat): nat
    decreases |hs|
  {
    if hs == [] then 0 else HandCount(hs[..|hs| - 1], id) + One01(HandHolds(hs[|hs| - 1], id))
  }

  /** In how many queues and hands an id is, counted with multiplicity. */
  function InTransit(s: Sys, id: nat): nat
  {
    QueueCount(s.queues, id) + HandCount(s.hands, id) + One01(AcceptorHolds(s.acceptor, id))
  }

  lemma {:induction false} QueueCountUpdate(qs: seq<seq<nat>>, i: nat, q: seq<nat>, id: nat)
    requires i < |qs|
    ensures QueueCount(qs[i := q], id) + multiset(qs[i])[id] == QueueCount(qs, id) + multiset(q)[id]
    decreases |qs|
  {
    var n := |qs| - 1;
    if i == n {
      assert qs[i := q][..n] == qs[..n];
    } else {
      assert qs[i := q][..n] == qs[..n][i := q];
      QueueCountUpdate(qs[..n], i, q, id);
    }
  }

  lemma {:induction false} HandCountUpdate(hs: seq<Hand>, i: nat, h: Hand, id: nat)
    requires i < |hs|
    ensures HandCount(hs[i := h], id) + One01(HandHolds(hs[i], id)) == HandCount(hs, id) + One01(HandHolds(h, id))
    decreases |hs|
  {
    var n := |hs| - 1;
    if i == n {
      assert hs[i := h][..n] == hs[..n];
    } else {
      assert hs[i := h][..n] == hs[..n][i := h];
      HandCountUpdate(hs[..n], i, h, id);
    }
  }

  lemma {:induction false} QueueCountAtLeast(qs: seq<seq<nat>>, i: nat, id: nat)
    requires i < |qs|
    ensures QueueCount(qs, id) >= multiset(qs[i])[id]
    decreases |qs|
  {
    if i < |qs| - 1 {
      QueueCountAtLeast(qs[..|qs| - 1], i, id);
    }
  }

  lemma HandCountAtLeast(hs: seq<Hand>, i: nat, id: nat)
    requires i < |hs| && HandHolds(hs[i], id)
    ensures HandCount(hs, id) >= 1
    ensures forall j :: 0 <= j < |hs| && j != i && HandHolds(hs[j], id) ==> HandCount(hs, id) >= 2
  {
    HandCountUpdate(hs, i, Free, id);
    forall j | 0 <= j < |hs| && j != i && HandHolds(hs[j], id)
      ensures HandCount(hs, id) >= 2
    {
      HandCountUpdate(hs[i := Free], j, Free, id);
    }
  }

  // ---- what is true of a connection at each place -------------------------------------------------------

  /** The exact state of a connection between two stages, from what was read on its own socket. */
  function Expected(cfg: Config, peer: nat, received: Data, level: nat): ConnState
    requires level > 0 ==> cfg.parse(received).Good?
  {
    var c0 := NewConnState(peer);
    if level == 0 then c0
    else
      var Good(m, p) := cfg.parse(received);
      var c1 := c0.(requestMethod := Some(m), requestPath := Some(p), state := Routed);
      if level == 1 then c1
      else
        var c2 := c1.(routeId := Some(RouteOf(p)), state := Processing);
        if level == 2 then c2 else c2.(writeBuf := cfg.page(RouteOf(p)), state := Sending)
  }

  /** The response a peer should get for the bytes read from it. */
  function ResponseTo(cfg: Config, received: Data): Data
    requires cfg.parse(received).Good?
  {
    cfg.page(RouteOf(cfg.parse(received).path))
  }

  /** Levels 0 to 3 are the places before Parse, Route, App and after App; level 4 is closing. */
  predicate ConnAt(cfg: Config, peers: seq<Peer>, c: ConnState, level: nat)
  {
    && c.stream.Some? && c.stream.value < |peers|
    && (var p := peers[c.stream.value];
        && (level > 0 ==> cfg.parse(p.received).Good?)
        && (if level < 4 then
              p.sent == [] && (level == 0 ==> p.received == []) && c == Expected(cfg, c.stream.value, p.received, level)
            else
              && c.state == Closed && c.writeBuf == ResponseTo(cfg, p.received)
              && p.sent <= c.writeBuf && (c.bytesWritten >= |c.writeBuf| ==> p.sent == c.writeBuf)))
  }

  predicate At(cfg: Config, slab: Slab, peers: seq<Peer>, id: nat, level: nat)
  {
    Occupied(slab, id) && ConnAt(cfg, peers, slab.slots[id].value, level)
  }

  /** Which level queue q, and the hand that pops from it, deals in. */
  function LevelOf(q: nat): nat { if q <= 3 then q else 3 }

  predicate HandOk(cfg: Config, slab: Slab, peers: seq<Peer>, i: nat, h: Hand)
  {
    match h
    case Popped(id) => At(cfg, slab, peers, id, LevelOf(i))
    case Working(id) => At(cfg, slab, peers, id, LevelOf(i))
    case Pushing(id) => i < 4 && At(cfg, slab, peers, id, LevelOf(i + 1))
    case Closing(id) => i == NET_OUT && At(cfg, slab, peers, id, 4)
    case Removing(id) => i == NET_OUT && At(cfg, slab, peers, id, 4)
    case _ => true
  }

  predicate NoSlotHas(slab: Slab, k: nat)
  {
    forall a :: 0 <= a < |slab.slots| && slab.slots[a].Some? ==> slab.slots[a].value.stream != Some(k)
  }

  predicate AcceptorOk(cfg: Config, slab: Slab, peers: seq<Peer>, answered: set<nat>, a: Acceptor)
  {
    match a
    case AHasStream(k) => k < |peers| && peers[k] == Peer([], []) && NoSlotHas(slab, k) && k !in answered
    case ALocked(k) => k < |peers| && peers[k] == Peer([], []) && NoSlotHas(slab, k) && k !in answered
    case AInserted(id) => At(cfg, slab, peers, id, 0)
    case ACounted(id) => At(cfg, slab, peers, id, 0)
    case APushing(id) => At(cfg, slab, peers, id, 0)
    case _ => true
  }

  ghost predicate Levels(cfg: Config, s: Sys)
    requires Shape(s)
  {
    && (forall q, k :: 0 <= q < STAGES && 0 <= k < |s.queues[q]| ==>
          At(cfg, s.slab, s.peers, s.queues[q][k], LevelOf(q)))
    && (forall i :: 0 <= i < STAGES ==> HandOk(cfg, s.slab, s.peers, i, s.hands[i]))
    && AcceptorOk(cfg, s.slab, s.peers, s.answered, s.acceptor)
  }

  predicate CountAt(s: Sys, id: nat)
  {
    InTransit(s, id) + One01(id in s.dropped) == One01(Occupied(s.slab, id))
  }

  /** Every occupied slot is in exactly one queue, one hand, or dropped; no other id is anywhere. */
  ghost predicate Counting(s: Sys) { forall id: nat :: CountAt(s, id) }

  predicate HandLocked(h: Hand) { h.Working? || h.Pushing? || h.Closing? || h.Removing? || h.Leaving? }

  predicate AcceptorLocked(a: Acceptor) { a.ALocked? || a.AInserted? || a.ACounted? || a.ARefused? }

  /** The lock word names the one thread that is inside. */
  predicate Locking(s: Sys)
    requires |s.hands| == STAGES
  {
    && (forall i :: 0 <= i < STAGES ==> (HandLocked(s.hands[i]) <==> s.lock == Some(i)))
    && (AcceptorLocked(s.acceptor) <==> s.lock == Some(ACCEPTOR))
  }

  /** Occupied slots the counter does not include at the moment: inserted and not yet counted, or
      counted down and not yet removed. */
  function Uncounted(s: Sys): nat
    requires |s.hands| == STAGES
  {
    One01(s.acceptor.AInserted?) + One01(s.hands[NET_OUT].Removing?)
  }

  predicate Counters(s: Sys)
    requires Shape(s)
  {
    && s.totalConns + Uncounted(s) == OccupiedCount(s.slab.slots)
    && (forall i :: 0 <= i < NET_OUT ==> !s.hands[i].Removing? && !s.hands[i].Closing?)
  }

  /** Each peer belongs to at most one slot. */
  predicate StreamsDistinct(slab: Slab, peers: seq<Peer>)
  {
    && (forall a :: 0 <= a < |slab.slots| && slab.slots[a].Some? ==>
          slab.slots[a].value.stream.Some? && slab.slots[a].value.stream.value < |peers|)
    && (forall a, b ::
          0 <= a < |slab.slots| && 0 <= b < |slab.slots| && slab.slots[a].Some? && slab.slots[b].Some? && a != b ==>
          slab.slots[a].value.stream != slab.slots[b].value.stream)
  }

  /** A peer has been sent nothing, or part of the one response to its own request. */
  predicate SentOk(cfg: Config, p: Peer)
  {
    p.sent == [] || (cfg.parse(p.received).Good? && p.sent <= ResponseTo(cfg, p.received))
  }

  predicate AnsweredOk(cfg: Config, slab: Slab, peers: seq<Peer>, k: nat)
  {
    && k < |peers| && NoSlotHas(slab, k)
    && cfg.parse(peers[k].received).Good? && peers[k].sent == ResponseTo(cfg, peers[k].received)
  }

  ghost predicate PeersInv(cfg: Config, s: Sys)
  {
    && StreamsDistinct(s.slab, s.peers)
    && (forall k :: 0 <= k < |s.peers| ==> SentOk(cfg, s.peers[k]))
    && (forall k :: k in s.answered ==> AnsweredOk(cfg, s.slab, s.peers, k))
  }

  ghost predicate Inv(cfg: Config, s: Sys)
  {
    && Shape(s) && Counting(s) && Levels(cfg, s) && Locking(s) && Counters(s) && PeersInv(cfg, s)
    && |s.slab.slots| == cfg.slabCapacity
  }
}
