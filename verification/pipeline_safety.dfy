/**
  Safety of the pipeline over every interleaving: the invariant of `Pipeline`, step by step, and
  what it says about ids, slots, counters and the bytes a peer receives.
*/
module PipelineSafety {
  import opened Bytes
  import opened ConnSlab
  import opened Stages
  import opened Pipeline

  // ---- uniqueness --------------------------------------------------------------------------------------

  lemma HandUnique(s: Sys, i: nat, id: nat)
    requires Shape(s) && CountAt(s, id) && i < STAGES && HandHolds(s.hands[i], id)
    ensures Occupied(s.slab, id) && id !in s.dropped && !AcceptorHolds(s.acceptor, id)
    ensures forall q :: 0 <= q < STAGES ==> id !in s.queues[q]
    ensures forall j :: 0 <= j < STAGES && j != i ==> !HandHolds(s.hands[j], id)
  {
    hide SlabInv;
    HandCountAtLeast(s.hands, i, id);
    forall q | 0 <= q < STAGES
      ensures id !in s.queues[q]
    {
      QueueCountAtLeast(s.queues, q, id);
    }
  }

  lemma AcceptorUnique(s: Sys, id: nat)
    requires Shape(s) && CountAt(s, id) && AcceptorHolds(s.acceptor, id)
    ensures Occupied(s.slab, id) && id !in s.dropped
    ensures forall q :: 0 <= q < STAGES ==> id !in s.queues[q]
    ensures forall j :: 0 <= j < STAGES ==> !HandHolds(s.hands[j], id)
  {
    hide SlabInv;
    forall q | 0 <= q < STAGES
      ensures id !in s.queues[q]
    {
      QueueCountAtLeast(s.queues, q, id);
    }
    forall j | 0 <= j < STAGES
      ensures !HandHolds(s.hands[j], id)
    {
      if HandHolds(s.hands[j], id) {
        HandCountAtLeast(s.hands, j, id);
      }
    }
  }

  /** An id without a slot is nowhere. */
  lemma EmptyIsNowhere(s: Sys, id: nat)
    requires Shape(s) && CountAt(s, id) && !Occupied(s.slab, id)
    ensures id !in s.dropped && !AcceptorHolds(s.acceptor, id)
    ensures forall q :: 0 <= q < STAGES ==> id !in s.queues[q]
    ensures forall j :: 0 <= j < STAGES ==> !HandHolds(s.hands[j], id)
  {
    hide SlabInv;
    forall q | 0 <= q < STAGES
      ensures id !in s.queues[q]
    {
      QueueCountAtLeast(s.queues, q, id);
    }
    forall j | 0 <= j < STAGES
      ensures !HandHolds(s.hands[j], id)
    {
      if HandHolds(s.hands[j], id) {
        HandCountAtLeast(s.hands, j, id);
      }
    }
  }

  // ---- frames --------------------------------------------------------------------------------------------

  lemma AtFrame(cfg: Config, slab: Slab, peers: seq<Peer>, slab': Slab, peers': seq<Peer>, id: nat, level: nat)
    requires At(cfg, slab, peers, id, level)
    requires id < |slab'.slots| && slab'.slots[id] == slab.slots[id] && |peers| <= |peers'|
    requires peers'[slab.slots[id].value.stream.value] == peers[slab.slots[id].value.stream.value]
    ensures At(cfg, slab', peers', id, level)
  {
    hide Expected, ResponseTo;
  }

  predicate PeerKept(s: Sys, s': Sys, k: Option<nat>)
  {
    k.Some? && k.value < |s.peers| ==> k.value < |s'.peers| && s'.peers[k.value] == s.peers[k.value]
  }

  /** Slots other than id0, with the peers they belong to, are as before. */
  predicate OthersKept(s: Sys, s': Sys, id0: nat)
  {
    && |s'.slab.slots| == |s.slab.slots| && |s.peers| <= |s'.peers|
    && (forall a :: 0 <= a < |s.slab.slots| && a != id0 ==> s'.slab.slots[a] == s.slab.slots[a])
    && (forall a :: 0 <= a < |s.slab.slots| && a != id0 && s.slab.slots[a].Some? ==>
          PeerKept(s, s', s.slab.slots[a].value.stream))
  }

  lemma AtOther(cfg: Config, s: Sys, s': Sys, id0: nat, id: nat, level: nat)
    requires OthersKept(s, s', id0) && id != id0 && At(cfg, s.slab, s.peers, id, level)
    ensures At(cfg, s'.slab, s'.peers, id, level)
  {
    hide Expected, ResponseTo;
    AtFrame(cfg, s.slab, s.peers, s'.slab, s'.peers, id, level);
  }

  lemma HandOkOther(cfg: Config, s: Sys, s': Sys, id0: nat, j: nat, h: Hand)
    requires OthersKept(s, s', id0) && !HandHolds(h, id0) && HandOk(cfg, s.slab, s.peers, j, h)
    ensures HandOk(cfg, s'.slab, s'.peers, j, h)
  {
    hide At, OthersKept;
    match h
    case Popped(id) => AtOther(cfg, s, s', id0, id, LevelOf(j));
    case Working(id) => AtOther(cfg, s, s', id0, id, LevelOf(j));
    case Pushing(id) => AtOther(cfg, s, s', id0, id, LevelOf(j + 1));
    case Closing(id) => AtOther(cfg, s, s', id0, id, 4);
    case Removing(id) => AtOther(cfg, s, s', id0, id, 4);
    case _ =>
  }

  /** The queues, and every hand but the one that changed slot id0. */
  lemma LevelsOfOthers(cfg: Config, s: Sys, s': Sys, id0: nat, i: nat)
    requires Shape(s) && Shape(s') && Levels(cfg, s) && OthersKept(s, s', id0)
    requires s'.queues == s.queues
    requires forall q :: 0 <= q < STAGES ==> id0 !in s.queues[q]
    requires forall j :: 0 <= j < STAGES && j != i ==> s'.hands[j] == s.hands[j] && !HandHolds(s.hands[j], id0)
    requires i < STAGES ==> HandOk(cfg, s'.slab, s'.peers, i, s'.hands[i])
    requires AcceptorOk(cfg, s'.slab, s'.peers, s'.answered, s'.acceptor)
    ensures Levels(cfg, s')
  {
    hide At, HandOk, OthersKept, AcceptorOk, SlabInv, HandHolds;
    forall q, k | 0 <= q < STAGES && 0 <= k < |s'.queues[q]|
      ensures At(cfg, s'.slab, s'.peers, s'.queues[q][k], LevelOf(q))
    {
      assert s.queues[q][k] in s.queues[q];
      AtOther(cfg, s, s', id0, s.queues[q][k], LevelOf(q));
    }
    forall j | 0 <= j < STAGES
      ensures HandOk(cfg, s'.slab, s'.peers, j, s'.hands[j])
    {
      if j != i {
        HandOkOther(cfg, s, s', id0, j, s.hands[j]);
      }
    }
  }

  // ---- counting --------------------------------------------------------------------------------------------

  /** Nothing moved between places: same queues, hands and drops, and the same slots occupied. */
  lemma CountingSame(s: Sys, s': Sys)
    requires Counting(s) && s'.queues == s.queues && s'.dropped == s.dropped
    requires |s'.hands| == |s.hands| && forall j :: 0 <= j < |s.hands| ==> SameHolder(s.hands[j], s'.hands[j])
    requires forall id: nat :: AcceptorHolds(s'.acceptor, id) == AcceptorHolds(s.acceptor, id)
    requires forall id: nat :: Occupied(s'.slab, id) == Occupied(s.slab, id)
    ensures Counting(s')
  {
    hide Occupied, AcceptorHolds, HandHolds, SameHolder;
    forall id: nat
      ensures CountAt(s', id)
    {
      assert CountAt(s, id);
      HandCountSame(s.hands, s'.hands, id);
    }
  }

  /** Two hands hold the same id, or none. */
  ghost predicate SameHolder(a: Hand, b: Hand) { forall id: nat :: HandHolds(a, id) == HandHolds(b, id) }

  lemma {:induction false} HandCountSame(a: seq<Hand>, b: seq<Hand>, id: nat)
    requires |a| == |b| && forall j :: 0 <= j < |a| ==> SameHolder(a[j], b[j])
    ensures HandCount(a, id) == HandCount(b, id)
    decreases |a|
  {
    hide HandHolds;
    if a != [] {
      var n := |a| - 1;
      assert SameHolder(a[n], b[n]);
      HandCountSame(a[..n], b[..n], id);
    }
  }

  /** Hand i changed from holding x to holding y, or from or to nothing. */
  lemma HandMoved(s: Sys, i: nat, h: Hand, id: nat)
    requires |s.hands| == STAGES && i < STAGES
    ensures HandCount(s.hands[i := h], id)
         == HandCount(s.hands, id) - One01(HandHolds(s.hands[i], id)) + One01(HandHolds(h, id))
  {
    hide HandHolds;
    HandCountUpdate(s.hands, i, h, id);
  }

  // ---- the accept thread -------------------------------------------------------------------------------------

  lemma LockingWithAcceptor(s: Sys, s': Sys)
    requires |s.hands| == STAGES && Locking(s) && s'.hands == s.hands
    requires || s'.lock == s.lock
             || (s.lock.None? && s'.lock == Some(ACCEPTOR))
             || (s.lock == Some(ACCEPTOR) && s'.lock.None?)
    requires AcceptorLocked(s'.acceptor) <==> s'.lock == Some(ACCEPTOR)
    ensures Locking(s')
  {
  }

  lemma ArriveKeepsInv(cfg: Config, s: Sys)
    requires Inv(cfg, s) && s.acceptor.AIdle?
    ensures Inv(cfg, AcceptMove(cfg, s, Arrive))
  {
    hide At, HandOk, SlabInv, SentOk, ResponseTo, HandHolds, CountAt;
    var s' := AcceptMove(cfg, s, Arrive);
    var k := |s.peers|;
    FreshPeer(cfg, s);
    var nobody := |s.slab.slots|;
    assert CountAt(s, nobody);
    OutOfRangeIsNowhere(s, nobody);
    LevelsOfOthers(cfg, s, s', nobody, STAGES);
    CountingSameAcceptor(s, s');
    NewPeerOk(cfg);
    forall k | 0 <= k < |s'.peers|
      ensures SentOk(cfg, s'.peers[k])
    {
      if k < |s.peers| {
        assert SentOk(cfg, s.peers[k]);
      }
    }
    forall k | k in s'.answered
      ensures AnsweredOk(cfg, s'.slab, s'.peers, k)
    {
      assert AnsweredOk(cfg, s.slab, s.peers, k);
    }
  }

  lemma FreshPeer(cfg: Config, s: Sys)
    requires PeersInv(cfg, s)
    ensures |s.peers| !in s.answered && NoSlotHas(s.slab, |s.peers|)
  {
    hide SentOk, ResponseTo;
    forall k | k in s.answered
      ensures k < |s.peers|
    {
      assert AnsweredOk(cfg, s.slab, s.peers, k);
    }
  }

  lemma NewPeerOk(cfg: Config)
    ensures SentOk(cfg, Peer([], []))
  {
  }

  lemma OutOfRangeIsNowhere(s: Sys, id: nat)
    requires Shape(s) && CountAt(s, id) && id >= |s.slab.slots|
    ensures forall q :: 0 <= q < STAGES ==> id !in s.queues[q]
    ensures forall j :: 0 <= j < STAGES ==> !HandHolds(s.hands[j], id)
  {
    hide SlabInv, HandHolds;
    EmptyIsNowhere(s, id);
  }

  lemma CountingSameAcceptor(s: Sys, s': Sys)
    requires Counting(s) && s'.queues == s.queues && s'.dropped == s.dropped && s'.hands == s.hands
    requires forall id: nat :: AcceptorHolds(s'.acceptor, id) == AcceptorHolds(s.acceptor, id)
    requires forall id: nat :: Occupied(s'.slab, id) == Occupied(s.slab, id)
    ensures Counting(s')
  {
    hide HandHolds;
    forall j | 0 <= j < |s.hands|
      ensures SameHolder(s.hands[j], s'.hands[j])
    {
    }
    CountingSame(s, s');
  }

  /** Steps of the accept loop that touch neither slab nor queues. */
  lemma QuietAcceptKeepsInv(cfg: Config, s: Sys, step: Step)
    requires Inv(cfg, s) && (step.AcceptLock? || step.AcceptCount? || step.AcceptUnlock?)
    ensures Inv(cfg, AcceptMove(cfg, s, step))
  {
    hide At, HandOk, SlabInv, CountAt, HandHolds, StreamsDistinct;
    var s' := AcceptMove(cfg, s, step);
    CountingSameAcceptor(s, s');
    LockingWithAcceptor(s, s');
  }

  lemma InsertKeepsPipeline(cfg: Config, s: Sys)
    requires Inv(cfg, s) && s.acceptor.ALocked?
    ensures Inv(cfg, AcceptMove(cfg, s, AcceptInsert))
  {
    hide HandOk, SlabInv, CountAt, HandHolds, StreamsDistinct, InsertConn, NoSlotHas, ConnAt, AnsweredOk, SentOk;
    var k := s.acceptor.peer;
    var r := InsertConn(s.slab, NewConnState(k));
    var s' := AcceptMove(cfg, s, AcceptInsert);
    InsertFacts(s.slab, k);
    if r.id.None? {
      CountingSameAcceptor(s, s');
    } else {
      var id := r.id.value;
      assert CountAt(s, id);
      EmptyIsNowhere(s, id);
      NewConnAtStart(cfg, s'.peers, k);
      LevelsOfOthers(cfg, s, s', id, STAGES);
      InsertCounting(s, s', id);
      InsertPeers(cfg, s, s', id, k);
    }
  }

  lemma InsertFacts(slab: Slab, k: nat)
    requires SlabInv(slab)
    ensures var r := InsertConn(slab, NewConnState(k));
            && SlabInv(r.slab) && |r.slab.slots| == |slab.slots|
            && (r.id.None? ==> r.slab == slab)
            && (r.id.Some? ==>
                  && r.id.value < |slab.slots| && slab.slots[r.id.value].None?
                  && r.slab.slots == slab.slots[r.id.value := Some(NewConnState(k))]
                  && OccupiedCount(r.slab.slots) == OccupiedCount(slab.slots) + 1)
  {
    var r := InsertConn(slab, NewConnState(k));
    InsertKeepsInv(slab, NewConnState(k));
    if r.id.Some? {
      CountUpdate(slab.slots, r.id.value, Some(NewConnState(k)));
    }
  }

  lemma NewConnAtStart(cfg: Config, peers: seq<Peer>, k: nat)
    requires k < |peers| && peers[k] == Peer([], [])
    ensures ConnAt(cfg, peers, NewConnState(k), 0)
  {
  }

  lemma InsertCounting(s: Sys, s': Sys, id: nat)
    requires Shape(s) && Counting(s) && !Occupied(s.slab, id)
    requires s'.queues == s.queues && s'.hands == s.hands && s'.dropped == s.dropped
    requires s.acceptor.ALocked? && s'.acceptor == AInserted(id)
    requires forall x: nat :: Occupied(s'.slab, x) <==> Occupied(s.slab, x) || x == id
    ensures Counting(s')
  {
    hide SlabInv, Occupied, HandHolds;
    forall x: nat
      ensures CountAt(s', x)
    {
      assert CountAt(s, x);
    }
  }

  lemma InsertPeers(cfg: Config, s: Sys, s': Sys, id: nat, k: nat)
    requires PeersInv(cfg, s) && NoSlotHas(s.slab, k) && k < |s.peers| && k !in s.answered
    requires s'.peers == s.peers && s'.answered == s.answered
    requires id < |s.slab.slots| && s'.slab.slots == s.slab.slots[id := Some(NewConnState(k))]
    ensures PeersInv(cfg, s')
  {
    hide SentOk, ResponseTo;
    forall k | k in s'.answered
      ensures AnsweredOk(cfg, s'.slab, s'.peers, k)
    {
      assert AnsweredOk(cfg, s.slab, s.peers, k);
    }
  }

  lemma AcceptPushKeepsInv(cfg: Config, s: Sys)
    requires Inv(cfg, s) && s.acceptor.APushing?
    ensures Inv(cfg, AcceptMove(cfg, s, AcceptPush))
  {
    hide At, HandOk, SlabInv, CountAt, HandHolds, StreamsDistinct, Room;
    var id := s.acceptor.id;
    var s' := AcceptMove(cfg, s, AcceptPush);
    AcceptPushCounting(cfg, s);
    forall q, k | 0 <= q < STAGES && 0 <= k < |s'.queues[q]|
      ensures At(cfg, s'.slab, s'.peers, s'.queues[q][k], LevelOf(q))
    {
      if q == 0 && k == |s.queues[0]| {
        assert s'.queues[q][k] == id;
      } else {
        assert s'.queues[q][k] == s.queues[q][k];
      }
    }
    assert Levels(cfg, s');
    LockingWithAcceptor(s, s');
  }

  lemma AcceptPushCounting(cfg: Config, s: Sys)
    requires Shape(s) && Counting(s) && s.acceptor.APushing?
    ensures Counting(AcceptMove(cfg, s, AcceptPush))
  {
    hide SlabInv, Occupied, HandHolds, Room;
    var s' := AcceptMove(cfg, s, AcceptPush);
    var id := s.acceptor.id;
    assert CountAt(s, id);
    AcceptorUnique(s, id);
    forall x: nat
      ensures CountAt(s', x)
    {
      assert CountAt(s, x);
      QueueCountUpdate(s.queues, 0, s.queues[0] + [id], x);
    }
  }

  // ---- the stage threads -----------------------------------------------------------------------------------

  lemma PopCounting(s: Sys, i: nat)
    requires Shape(s) && Counting(s) && i < STAGES && s.hands[i].Free? && s.queues[i] != []
    ensures Counting(s.(queues := s.queues[i := s.queues[i][1..]], hands := s.hands[i := Popped(s.queues[i][0])]))
  {
    hide SlabInv, Occupied, AcceptorHolds;
    var s' := s.(queues := s.queues[i := s.queues[i][1..]], hands := s.hands[i := Popped(s.queues[i][0])]);
    var id := s.queues[i][0];
    assert s.queues[i] == [id] + s.queues[i][1..];
    forall x: nat
      ensures CountAt(s', x)
    {
      assert CountAt(s, x);
      QueueCountUpdate(s.queues, i, s.queues[i][1..], x);
      HandMoved(s, i, Popped(id), x);
    }
  }

  lemma PopKeepsInv(cfg: Config, s: Sys, i: nat)
    requires Inv(cfg, s) && i < STAGES && s.hands[i].Free? && s.queues[i] != []
    ensures Inv(cfg, StageMove(cfg, s, PopNext(i), i))
  {
    hide At, SlabInv, CountAt, HandHolds, StreamsDistinct, PeersInv, AcceptorOk;
    var s' := StageMove(cfg, s, PopNext(i), i);
    PopCounting(s, i);
    forall q, k | 0 <= q < STAGES && 0 <= k < |s'.queues[q]|
      ensures At(cfg, s'.slab, s'.peers, s'.queues[q][k], LevelOf(q))
    {
      if q == i {
        assert s'.queues[q][k] == s.queues[q][k + 1];
      } else {
        assert s'.queues[q][k] == s.queues[q][k];
      }
    }
    PeersSame(cfg, s, s');
  }

  lemma PeersSame(cfg: Config, s: Sys, s': Sys)
    requires PeersInv(cfg, s) && s'.slab == s.slab && s'.peers == s.peers && s'.answered == s.answered
    ensures PeersInv(cfg, s')
  {
  }

  /** Steps of a stage thread that change only its own hand, the lock word and the counter. */
  lemma QuietStageKeepsInv(cfg: Config, s: Sys, step: Step, i: nat)
    requires Inv(cfg, s) && i < STAGES && (step.TakeLock? || step.CountDown? || step.Unlock?)
    ensures Inv(cfg, StageMove(cfg, s, step, i))
  {
    hide At, SlabInv, CountAt, StreamsDistinct, PeersInv, AcceptorOk;
    var s' := StageMove(cfg, s, step, i);
    forall j | 0 <= j < STAGES
      ensures SameHolder(s.hands[j], s'.hands[j])
    {
    }
    CountingSame(s, s');
    PeersSame(cfg, s, s');
  }

  lemma PushCounting(cfg: Config, s: Sys, i: nat, id: nat)
    requires Shape(s) && Counting(s) && i < STAGES && s.hands[i] == Pushing(id)
    ensures Counting(PushMove(cfg, s, i, id))
  {
    hide SlabInv, Occupied, AcceptorHolds, Room;
    var s' := PushMove(cfg, s, i, id);
    assert CountAt(s, id);
    HandUnique(s, i, id);
    forall x: nat
      ensures CountAt(s', x)
    {
      assert CountAt(s, x);
      if i + 1 < STAGES {
        QueueCountUpdate(s.queues, i + 1, s.queues[i + 1] + [id], x);
      }
      HandMoved(s, i, Leaving, x);
    }
  }

  lemma PushKeepsInv(cfg: Config, s: Sys, i: nat, id: nat)
    requires Inv(cfg, s) && i < STAGES && s.hands[i] == Pushing(id)
    ensures Inv(cfg, PushMove(cfg, s, i, id))
  {
    hide At, SlabInv, CountAt, HandHolds, StreamsDistinct, PeersInv, AcceptorOk, Room;
    var s' := PushMove(cfg, s, i, id);
    PushCounting(cfg, s, i, id);
    assert HandOk(cfg, s.slab, s.peers, i, s.hands[i]);
    forall q, k | 0 <= q < STAGES && 0 <= k < |s'.queues[q]|
      ensures At(cfg, s'.slab, s'.peers, s'.queues[q][k], LevelOf(q))
    {
      if k == |s.queues[q]| {
        assert s'.queues[q][k] == id && q == i + 1;
      } else {
        assert s'.queues[q][k] == s.queues[q][k];
      }
    }
    PeersSame(cfg, s, s');
  }

  lemma FreeKeepsInv(cfg: Config, s: Sys, i: nat, id: nat)
    requires Inv(cfg, s) && i < STAGES && s.hands[i] == Removing(id)
    ensures Inv(cfg, FreeMove(s, i, id))
  {
    hide SlabInv, CountAt, StreamsDistinct, ConnAt, AnsweredOk, SentOk, RemoveConn, NoSlotHas;
    var s' := FreeMove(s, i, id);
    assert CountAt(s, id);
    HandUnique(s, i, id);
    RemoveFacts(s.slab, id);
    FreeCounting(s, i, id);
    FreePeers(cfg, s, i, id);
    AcceptorAfterFree(cfg, s, i, id);
    LevelsOfOthers(cfg, s, s', id, i);
  }

  lemma RemoveFacts(slab: Slab, id: nat)
    requires SlabInv(slab) && Occupied(slab, id)
    ensures SlabInv(RemoveConn(slab, id)) && RemoveConn(slab, id).slots == slab.slots[id := None]
    ensures OccupiedCount(RemoveConn(slab, id).slots) + 1 == OccupiedCount(slab.slots)
  {
    RemoveKeepsInv(slab, id);
    CountUpdate(slab.slots, id, None);
  }

  lemma FreeCounting(s: Sys, i: nat, id: nat)
    requires Shape(s) && Counting(s) && i < STAGES && s.hands[i] == Removing(id)
    ensures Counting(FreeMove(s, i, id))
  {
    hide SlabInv, AcceptorHolds;
    var s' := FreeMove(s, i, id);
    assert CountAt(s, id);
    HandUnique(s, i, id);
    forall x: nat
      ensures CountAt(s', x)
    {
      assert CountAt(s, x);
      HandMoved(s, i, Leaving, x);
    }
  }

  lemma FreePeers(cfg: Config, s: Sys, i: nat, id: nat)
    requires Shape(s) && PeersInv(cfg, s) && i < STAGES && At(cfg, s.slab, s.peers, id, 4)
    ensures PeersInv(cfg, FreeMove(s, i, id))
  {
    hide SlabInv, SentOk;
    var s' := FreeMove(s, i, id);
    forall k | k in s'.answered
      ensures AnsweredOk(cfg, s'.slab, s'.peers, k)
    {
      if k in s.answered {
        assert AnsweredOk(cfg, s.slab, s.peers, k);
      }
    }
  }

  lemma AcceptorAfterFree(cfg: Config, s: Sys, i: nat, id: nat)
    requires Inv(cfg, s) && i < STAGES && s.hands[i] == Removing(id)
    ensures var s' := FreeMove(s, i, id); AcceptorOk(cfg, s'.slab, s'.peers, s'.answered, s'.acceptor)
  {
    hide SlabInv, ConnAt, SentOk, StreamsDistinct;
    assert CountAt(s, id);
    HandUnique(s, i, id);
    assert HandOk(cfg, s.slab, s.peers, i, s.hands[i]);
    assert !AcceptorHolds(s.acceptor, id);
    assert AcceptorOk(cfg, s.slab, s.peers, s.answered, s.acceptor);
  }

  // ---- process_one ---------------------------------------------------------------------------------------------

  function PeersAfter(peers: seq<Peer>, i: nat, c: ConnState, io: Io): (ps: seq<Peer>)
    requires c.stream.Some? && c.stream.value < |peers|
    ensures |ps| == |peers|
  {
    peers[c.stream.value := PeerAfter(i, peers[c.stream.value], c, io)]
  }

  /** What one call of a stage makes of a connection at its level, and of the connection's peer. */
  predicate WorkOk(cfg: Config, peers: seq<Peer>, i: nat, c: ConnState, io: Io)
    requires c.stream.Some? && c.stream.value < |peers|
  {
    var o := ProcessOne(cfg, i, c, io);
    var peers' := PeersAfter(peers, i, c, io);
    && o.conn.stream == c.stream
    && SentOk(cfg, peers'[c.stream.value])
    && (o.verdict.Forward? ==> i < NET_OUT && ConnAt(cfg, peers', o.conn, LevelOf(i + 1)))
    && (o.verdict.Close? ==> i == NET_OUT && ConnAt(cfg, peers', o.conn, 4))
  }

  lemma ParseWork(cfg: Config, peers: seq<Peer>, c: ConnState, io: Io)
    requires ConnAt(cfg, peers, c, 0)
    ensures WorkOk(cfg, peers, PARSE, c, io)
  {
    var p := PeersAfter(peers, PARSE, c, io)[c.stream.value];
    assert p.received == ReadInto(c, io);
  }

  lemma RouteWork(cfg: Config, peers: seq<Peer>, c: ConnState, io: Io)
    requires ConnAt(cfg, peers, c, 1)
    ensures WorkOk(cfg, peers, ROUTE, c, io)
  {
    assert PeersAfter(peers, ROUTE, c, io) == peers;
  }

  lemma AppWork(cfg: Config, peers: seq<Peer>, c: ConnState, io: Io)
    requires ConnAt(cfg, peers, c, 2)
    ensures WorkOk(cfg, peers, APP, c, io)
  {
    assert PeersAfter(peers, APP, c, io) == peers;
    assert forall d: Data :: [] + d == d;
  }

  lemma NetOutWork(cfg: Config, peers: seq<Peer>, c: ConnState, io: Io)
    requires ConnAt(cfg, peers, c, 3)
    ensures WorkOk(cfg, peers, NET_OUT, c, io)
  {
    hide RouteOf;
    var p := peers[c.stream.value];
    var p' := PeersAfter(peers, NET_OUT, c, io)[c.stream.value];
    assert c.bytesWritten == 0 && c.writeBuf == ResponseTo(cfg, p.received);
    assert p'.sent == c.writeBuf[..Taken(c, io)];
  }

  lemma AnyWork(cfg: Config, peers: seq<Peer>, i: nat, c: ConnState, io: Io)
    requires i < STAGES && i != ENCODE && ConnAt(cfg, peers, c, LevelOf(i))
    ensures WorkOk(cfg, peers, i, c, io)
  {
    hide ConnAt, WorkOk;
    if i == PARSE {
      ParseWork(cfg, peers, c, io);
    } else if i == ROUTE {
      RouteWork(cfg, peers, c, io);
    } else if i == APP {
      AppWork(cfg, peers, c, io);
    } else {
      NetOutWork(cfg, peers, c, io);
    }
  }

  /** The slab and peers after the call, as far as other slots and peers can tell. */
  predicate SlotReplaced(s: Sys, s': Sys, id: nat, c': ConnState, p': Peer)
  {
    && Occupied(s.slab, id) && s.slab.slots[id].value.stream.Some? && s.slab.slots[id].value.stream.value < |s.peers|
    && c'.stream == s.slab.slots[id].value.stream
    && s'.slab == PutConn(s.slab, id, c')
    && s'.peers == s.peers[c'.stream.value := p']
    && s'.answered == s.answered && s'.queues == s.queues && s'.acceptor == s.acceptor
  }

  lemma ReplacedPeers(cfg: Config, s: Sys, s': Sys, id: nat, c': ConnState, p': Peer)
    requires PeersInv(cfg, s) && SlotReplaced(s, s', id, c', p') && SentOk(cfg, p')
    ensures PeersInv(cfg, s') && OthersKept(s, s', id)
  {
    hide SentOk, ResponseTo;
    forall k | k in s'.answered
      ensures AnsweredOk(cfg, s'.slab, s'.peers, k)
    {
      assert AnsweredOk(cfg, s.slab, s.peers, k);
    }
  }

  lemma ReplacedAcceptor(cfg: Config, s: Sys, s': Sys, id: nat, c': ConnState, p': Peer)
    requires AcceptorOk(cfg, s.slab, s.peers, s.answered, s.acceptor) && SlotReplaced(s, s', id, c', p')
    requires !AcceptorHolds(s.acceptor, id) && OthersKept(s, s', id)
    ensures AcceptorOk(cfg, s'.slab, s'.peers, s'.answered, s'.acceptor)
  {
    hide ConnAt, OthersKept;
    match s.acceptor
    case AInserted(x) => AtOther(cfg, s, s', id, x, 0);
    case ACounted(x) => AtOther(cfg, s, s', id, x, 0);
    case APushing(x) => AtOther(cfg, s, s', id, x, 0);
    case _ =>
  }

  /** The id stays in the hand or is dropped from it. */
  lemma WorkCounting(s: Sys, s': Sys, i: nat, id: nat)
    requires Shape(s) && Counting(s) && i < STAGES && s.hands[i] == Working(id)
    requires s'.queues == s.queues && s'.acceptor == s.acceptor && |s'.hands| == STAGES
    requires s'.hands == s.hands[i := s'.hands[i]]
    requires forall x: nat :: Occupied(s'.slab, x) == Occupied(s.slab, x)
    requires (HandHolds(s'.hands[i], id) && s'.dropped == s.dropped && SameHolder(s.hands[i], s'.hands[i]))
          || ((s'.hands[i].Leaving? || s'.hands[i].Dead?) && s'.dropped == s.dropped + {id})
    ensures Counting(s')
  {
    hide SlabInv, Occupied, AcceptorHolds;
    assert CountAt(s, id);
    HandUnique(s, i, id);
    forall x: nat
      ensures CountAt(s', x)
    {
      assert CountAt(s, x);
      HandMoved(s, i, s'.hands[i], x);
    }
  }

  lemma EncodeKeepsInv(cfg: Config, s: Sys, id: nat, io: Io)
    requires Inv(cfg, s) && s.hands[ENCODE] == Working(id)
    ensures Inv(cfg, WorkMove(cfg, s, ENCODE, id, io))
  {
    hide At, SlabInv, CountAt, StreamsDistinct, PeersInv, AcceptorOk;
    var s' := WorkMove(cfg, s, ENCODE, id, io);
    assert HandOk(cfg, s.slab, s.peers, ENCODE, s.hands[ENCODE]);
    WorkCounting(s, s', ENCODE, id);
    PeersSame(cfg, s, s');
  }

  lemma WorkMoveShape(cfg: Config, s: Sys, i: nat, id: nat, io: Io)
    requires Shape(s) && i < STAGES && i != ENCODE && At(cfg, s.slab, s.peers, id, LevelOf(i))
    ensures var c := s.slab.slots[id].value;
            var o := ProcessOne(cfg, i, c, io);
            var s' := WorkMove(cfg, s, i, id, io);
            && c.stream.Some? && c.stream.value < |s.peers|
            && WorkOk(cfg, s.peers, i, c, io)
            && SlotReplaced(s, s', id, o.conn, PeerAfter(i, s.peers[c.stream.value], c, io))
            && Shape(s') && OccupiedCount(s'.slab.slots) == OccupiedCount(s.slab.slots)
            && (forall x: nat :: Occupied(s'.slab, x) == Occupied(s.slab, x))
  {
    hide ProcessOne, SlabInv, PeerAfter, Expected, OccupiedCount, SentOk;
    var c := s.slab.slots[id].value;
    AnyWork(cfg, s.peers, i, c, io);
    PutKeepsInv(s.slab, id, ProcessOne(cfg, i, c, io).conn);
  }

  lemma WorkKeepsInv(cfg: Config, s: Sys, i: nat, id: nat, io: Io)
    requires Inv(cfg, s) && i < STAGES && i != ENCODE && s.hands[i] == Working(id)
    ensures Inv(cfg, WorkMove(cfg, s, i, id, io))
  {
    hide ProcessOne, SlabInv, PeerAfter, ConnAt, OccupiedCount, SentOk, CountAt, StreamsDistinct, AcceptorOk,
         OthersKept, PeersInv;
    var s' := WorkMove(cfg, s, i, id, io);
    assert HandOk(cfg, s.slab, s.peers, i, s.hands[i]);
    WorkMoveShape(cfg, s, i, id, io);
    var c := s.slab.slots[id].value;
    var o := ProcessOne(cfg, i, c, io);
    var p' := PeerAfter(i, s.peers[c.stream.value], c, io);
    ReplacedPeers(cfg, s, s', id, o.conn, p');
    assert CountAt(s, id);
    HandUnique(s, i, id);
    ReplacedAcceptor(cfg, s, s', id, o.conn, p');
    WorkCounting(s, s', i, id);
    LevelsOfOthers(cfg, s, s', id, i);
  }
}
