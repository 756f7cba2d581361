/** What the pipeline's invariant says about every run. */
module PipelineTheorems {
  import opened Bytes
  import opened ConnSlab
  import opened Stages
  import opened Pipeline
  import opened PipelineSafety

  /** Any step of any thread keeps the invariant. */
  lemma MoveKeepsInv(cfg: Config, s: Sys, step: Step)
    requires Inv(cfg, s)
    ensures Inv(cfg, Move(cfg, s, step))
  {
    hide Inv, WorkMove, FreeMove, PushMove, InsertConn;
    ShapeOf(cfg, s);
    match step
    case Arrive => if s.acceptor.AIdle? { ArriveKeepsInv(cfg, s); }
    case AcceptInsert => if s.acceptor.ALocked? { InsertKeepsPipeline(cfg, s); }
    case AcceptPush => if s.acceptor.APushing? { AcceptPushKeepsInv(cfg, s); }
    case AcceptLock => QuietAcceptKeepsInv(cfg, s, step);
    case AcceptCount => QuietAcceptKeepsInv(cfg, s, step);
    case AcceptUnlock => QuietAcceptKeepsInv(cfg, s, step);
    case _ => if step.stage < STAGES { StageKeepsInv(cfg, s, step, step.stage); }
  }

  lemma ShapeOf(cfg: Config, s: Sys)
    requires Inv(cfg, s)
    ensures Shape(s)
  {
  }

  lemma StageKeepsInv(cfg: Config, s: Sys, step: Step, i: nat)
    requires Inv(cfg, s) && StageStep(step) && i < STAGES && step.stage == i
    ensures Inv(cfg, StageMove(cfg, s, step, i))
  {
    hide Inv, WorkMove, FreeMove, PushMove;
    ShapeOf(cfg, s);
    match (step, s.hands[i])
    case (PopNext(_), Free) => if s.queues[i] != [] { PopKeepsInv(cfg, s, i); }
    case (Work(_, io), Working(id)) =>
      if i == ENCODE {
        EncodeKeepsInv(cfg, s, id, io);
      } else {
        WorkKeepsInv(cfg, s, i, id, io);
      }
    case (PushNext(_), Pushing(id)) => PushKeepsInv(cfg, s, i, id);
    case (FreeSlot(_), Removing(id)) => FreeKeepsInv(cfg, s, i, id);
    case (TakeLock(_), _) => QuietStageKeepsInv(cfg, s, step, i);
    case (CountDown(_), _) => QuietStageKeepsInv(cfg, s, step, i);
    case (Unlock(_), _) => QuietStageKeepsInv(cfg, s, step, i);
    case _ =>
  }

  lemma StartsSafe(cfg: Config)
    ensures Inv(cfg, NewSys(cfg))
  {
    hide SlabInv, OccupiedCount, QueueCount, HandCount, ConnAt;
    NewSlabInv(cfg.slabCapacity);
    EmptyCount(cfg.slabCapacity);
    var s := NewSys(cfg);
    forall id: nat
      ensures CountAt(s, id)
    {
      NothingHeld(id);
    }
  }

  lemma NothingHeld(id: nat)
    ensures QueueCount([[], [], [], [], []], id) == 0
    ensures HandCount([Free, Free, Free, Free, Free], id) == 0
  {
    var q: seq<nat> := [];
    assert [q, q, q, q, q][..4] == [q, q, q, q] && [q, q, q, q][..3] == [q, q, q] && [q, q, q][..2] == [q, q];
    assert [q, q][..1] == [q] && [q][..0] == [];
    assert QueueCount([], id) == 0 && QueueCount([q], id) == 0 && QueueCount([q, q], id) == 0;
    assert QueueCount([q, q, q], id) == 0 && QueueCount([q, q, q, q], id) == 0;
    assert [Free, Free, Free, Free, Free][..4] == [Free, Free, Free, Free];
    assert [Free, Free, Free, Free][..3] == [Free, Free, Free] && [Free, Free, Free][..2] == [Free, Free];
    assert [Free, Free][..1] == [Free] && [Free][..0] == [];
    assert HandCount([], id) == 0 && HandCount([Free], id) == 0 && HandCount([Free, Free], id) == 0;
    assert HandCount([Free, Free, Free], id) == 0 && HandCount([Free, Free, Free, Free], id) == 0;
  }

  function Moves(cfg: Config, s: Sys, steps: seq<Step>): (s': Sys)
    requires Inv(cfg, s)
    ensures Inv(cfg, s')
    decreases |steps|
  {
    if steps == [] then s
    else
      var m := Moves(cfg, s, steps[..|steps| - 1]);
      MoveKeepsInv(cfg, m, steps[|steps| - 1]);
      Move(cfg, m, steps[|steps| - 1])
  }

  /** Runs concatenate. */
  lemma {:induction false} MovesConcat(cfg: Config, s: Sys, a: seq<Step>, b: seq<Step>)
    requires Inv(cfg, s)
    ensures Moves(cfg, s, a + b) == Moves(cfg, Moves(cfg, s, a), b)
    decreases |b|
  {
    hide Inv, Move;
    if b == [] {
      assert a + b == a;
    } else {
      var n := |b| - 1;
      assert (a + b)[..|a + b| - 1] == a + b[..n];
      MovesConcat(cfg, s, a, b[..n]);
    }
  }

  /** Running one more step. */
  lemma MovesOne(cfg: Config, s: Sys, steps: seq<Step>, step: Step)
    requires Inv(cfg, s)
    ensures var m := Moves(cfg, s, steps);
            Shape(m) && Moves(cfg, s, steps + [step]) == Move(cfg, m, step)
  {
    hide Move;
    ShapeOf(cfg, Moves(cfg, s, steps));
    assert (steps + [step])[..|steps|] == steps;
  }

  /** A run: any sequence of steps of the six threads from the start. */
  function Run(cfg: Config, steps: seq<Step>): (s: Sys)
    ensures Shape(s)
    ensures Inv(cfg, s)
  {
    StartsSafe(cfg);
    Moves(cfg, NewSys(cfg), steps)
  }

  // ---- ids and slots --------------------------------------------------------------------------------------

  /** In every run an id is in at most one queue or hand; the occupied slots are exactly the ids in
      transit and the dropped ones, no id is both, and every id is below the slab's capacity, so
      none is the empty-slot mark of a queue. */
  lemma IdsAreExclusive(cfg: Config, steps: seq<Step>, id: nat)
    ensures var s := Run(cfg, steps);
            && InTransit(s, id) <= 1
            && (InTransit(s, id) == 1 ==> Occupied(s.slab, id) && id !in s.dropped && id < cfg.slabCapacity)
            && (Occupied(s.slab, id) <==> InTransit(s, id) == 1 || id in s.dropped)
  {
    hide InTransit, Run, SlabInv;
    assert CountAt(Run(cfg, steps), id);
  }

  function QueueState(q: nat): Lifecycle
  {
    match q
    case 0 => WaitingForRequest
    case 1 => Routed
    case 2 => Processing
    case _ => Sending
  }

  /** The queue that holds an id fixes its connection: the lifecycle state, an empty write buffer
      before App, and afterwards exactly one response, the one for the path read from that
      connection's own peer, of which nothing has been sent. */
  lemma QueueFixesConnection(cfg: Config, steps: seq<Step>, q: nat, k: nat)
    requires q < STAGES && k < |Run(cfg, steps).queues[q]|
    ensures var s := Run(cfg, steps);
            var id := s.queues[q][k];
            && Occupied(s.slab, id)
            && (var c := s.slab.slots[id].value;
                && c.state == QueueState(q) && c.bytesWritten == 0 && c.readBuf == []
                && c.stream.Some? && c.stream.value < |s.peers|
                && (var p := s.peers[c.stream.value];
                    && p.sent == []
                    && (q <= 2 ==> c.writeBuf == [])
                    && (q >= 1 ==>
                          && cfg.parse(p.received).Good? && c.requestPath == Some(cfg.parse(p.received).path)
                          && c.requestMethod == Some(cfg.parse(p.received).requestMethod))
                    && (q >= 2 ==> c.routeId == Some(RouteOf(cfg.parse(p.received).path)))
                    && (q >= 3 ==> c.writeBuf == ResponseTo(cfg, p.received))))
  {
    hide Run, SlabInv, RouteOf;
    var s := Run(cfg, steps);
    assert At(cfg, s.slab, s.peers, s.queues[q][k], LevelOf(q));
  }

  /** A slot that is occupied before and after a step belongs to the same peer: no slot is reused
      while its id is anywhere in the pipeline. */
  lemma NoReuseWhileOccupied(cfg: Config, s: Sys, step: Step, id: nat)
    requires Inv(cfg, s) && Occupied(s.slab, id) && Occupied(Move(cfg, s, step).slab, id)
    ensures Move(cfg, s, step).slab.slots[id].value.stream == s.slab.slots[id].value.stream
  {
    hide SlabInv, Counting, Levels, PeersInv, Counters, Locking, ProcessOne, PeerAfter;
    match step
    case AcceptInsert => if s.acceptor.ALocked? { InsertFacts(s.slab, s.acceptor.peer); }
    case Work(i, io) => if i < STAGES { WorkKeepsStream(cfg, s, i, io, id); }
    case _ =>
  }

  predicate OccupiedAt(cfg: Config, steps: seq<Step>, n: nat, id: nat)
    requires n <= |steps|
  {
    Occupied(Run(cfg, steps[..n]).slab, id)
  }

  /** Between any two moments of a run throughout which an id stays occupied, its slot belongs to
      the same peer. */
  lemma {:induction false} NoReuseDuringRun(cfg: Config, steps: seq<Step>, n: nat, id: nat)
    requires n <= |steps| && forall k :: n <= k <= |steps| ==> OccupiedAt(cfg, steps, k, id)
    ensures Occupied(Run(cfg, steps).slab, id) && OccupiedAt(cfg, steps, n, id)
    ensures Run(cfg, steps).slab.slots[id].value.stream == Run(cfg, steps[..n]).slab.slots[id].value.stream
    decreases |steps|
  {
    hide Move, Inv, Run;
    assert steps[..|steps|] == steps;
    assert OccupiedAt(cfg, steps, |steps|, id);
    if n < |steps| {
      var before := steps[..|steps| - 1];
      assert before[..n] == steps[..n];
      forall k | n <= k <= |before|
        ensures OccupiedAt(cfg, before, k, id)
      {
        assert before[..k] == steps[..k];
        assert OccupiedAt(cfg, steps, k, id);
      }
      NoReuseDuringRun(cfg, before, n, id);
      RunOne(cfg, steps);
      NoReuseWhileOccupied(cfg, Run(cfg, before), steps[|steps| - 1], id);
    }
  }

  lemma RunOne(cfg: Config, steps: seq<Step>)
    requires steps != []
    ensures Run(cfg, steps) == Move(cfg, Run(cfg, steps[..|steps| - 1]), steps[|steps| - 1])
  {
    hide Move, Inv;
  }

  lemma WorkKeepsStream(cfg: Config, s: Sys, i: nat, io: Io, id: nat)
    requires Inv(cfg, s) && i < STAGES && Occupied(s.slab, id)
    ensures Occupied(Move(cfg, s, Work(i, io)).slab, id)
    ensures Move(cfg, s, Work(i, io)).slab.slots[id].value.stream == s.slab.slots[id].value.stream
  {
    hide SlabInv, Counting, PeersInv, Counters, Locking, ProcessOne, PeerAfter, ConnAt, OccupiedCount;
    if s.hands[i].Working? && i != ENCODE {
      assert HandOk(cfg, s.slab, s.peers, i, s.hands[i]);
      WorkMoveShape(cfg, s, i, s.hands[i].id, io);
    }
  }

  /** `remove` is only ever applied to an occupied slot, and the counter is positive when it is
      counted down. */
  lemma RemovesOccupiedSlots(cfg: Config, steps: seq<Step>, i: nat)
    requires i < STAGES
    ensures var s := Run(cfg, steps);
            && (s.hands[i].Removing? ==> Occupied(s.slab, s.hands[i].id))
            && (s.hands[i].Closing? ==> Occupied(s.slab, s.hands[i].id) && s.totalConns > 0)
  {
    hide Run, SlabInv, ConnAt;
    var s := Run(cfg, steps);
    assert HandOk(cfg, s.slab, s.peers, i, s.hands[i]);
    if s.hands[i].Closing? {
      OccupiedIsCounted(s.slab.slots, s.hands[i].id);
      assert HandLocked(s.hands[i]) && s.lock == Some(i);
      assert !AcceptorLocked(s.acceptor);
    }
  }

  lemma OccupiedIsCounted(slots: Slots, id: nat)
    requires id < |slots| && slots[id].Some?
    ensures OccupiedCount(slots) > 0
  {
    CountUpdate(slots, id, None);
  }

  /** Whenever the slab lock is free, `total_conns` is the number of active connections. */
  lemma CounterMatchesSlab(cfg: Config, steps: seq<Step>)
    requires Run(cfg, steps).lock.None?
    ensures Run(cfg, steps).totalConns == ActiveCount(Run(cfg, steps).slab)
  {
    hide Run, OccupiedCount;
    var s := Run(cfg, steps);
    ActiveCountIsOccupied(s.slab);
    assert !HandLocked(s.hands[NET_OUT]) && !AcceptorLocked(s.acceptor);
  }

  // ---- peers ----------------------------------------------------------------------------------------------

  /** Whatever a peer has received at any moment of any run is a prefix of the one response to the
      request read from that same peer, and the whole of it once the connection was closed after
      a complete write. */
  lemma PeersGetOwnResponse(cfg: Config, steps: seq<Step>, k: nat)
    requires k < |Run(cfg, steps).peers|
    ensures var s := Run(cfg, steps);
            var p := s.peers[k];
            && (p.sent != [] ==> cfg.parse(p.received).Good? && p.sent <= cfg.page(RouteOf(cfg.parse(p.received).path)))
            && (k in s.answered ==>
                  cfg.parse(p.received).Good? && p.sent == cfg.page(RouteOf(cfg.parse(p.received).path)))
  {
    hide Run, SlabInv, RouteOf;
    var s := Run(cfg, steps);
    assert SentOk(cfg, s.peers[k]);
    if k in s.answered {
      assert AnsweredOk(cfg, s.slab, s.peers, k);
    }
  }

  // ---- dropped connections ----------------------------------------------------------------------------------

  /** Nothing ever happens again to a dropped id: not to its slot, not to its peer. */
  predicate StillDropped(s: Sys, s': Sys, id: nat)
  {
    && id in s.dropped && id in s'.dropped
    && id < |s.slab.slots| && id < |s'.slab.slots| && s'.slab.slots[id] == s.slab.slots[id] && s.slab.slots[id].Some?
    && s.slab.slots[id].value.stream.Some?
    && s.slab.slots[id].value.stream.value < |s.peers| <= |s'.peers|
    && s'.peers[s.slab.slots[id].value.stream.value] == s.peers[s.slab.slots[id].value.stream.value]
  }

  lemma DroppedFacts(cfg: Config, s: Sys, id: nat)
    requires Inv(cfg, s) && id in s.dropped
    ensures Occupied(s.slab, id) && !AcceptorHolds(s.acceptor, id)
    ensures forall j :: 0 <= j < STAGES ==> !HandHolds(s.hands[j], id)
    ensures s.slab.slots[id].value.stream.Some? && s.slab.slots[id].value.stream.value < |s.peers|
  {
    hide SlabInv, Levels, Locking, Counters, HandHolds;
    assert CountAt(s, id);
    forall j | 0 <= j < STAGES
      ensures !HandHolds(s.hands[j], id)
    {
      if HandHolds(s.hands[j], id) {
        HandCountAtLeast(s.hands, j, id);
      }
    }
  }

  lemma DroppedStaysDropped(cfg: Config, s: Sys, step: Step, id: nat)
    requires Inv(cfg, s) && id in s.dropped
    ensures StillDropped(s, Move(cfg, s, step), id)
  {
    hide SlabInv, Counting, Levels, Counters, Locking, ProcessOne, PeerAfter, PeersInv, StageMove;
    DroppedFacts(cfg, s, id);
    if StageStep(step) {
      if step.stage < STAGES {
        DroppedInStage(cfg, s, step, step.stage, id);
      }
    } else if step.AcceptInsert? && s.acceptor.ALocked? {
      InsertFacts(s.slab, s.acceptor.peer);
    }
  }

  lemma DroppedInStage(cfg: Config, s: Sys, step: Step, i: nat, id: nat)
    requires Inv(cfg, s) && id in s.dropped && i < STAGES && StageStep(step) && step.stage == i
    ensures StillDropped(s, StageMove(cfg, s, step, i), id)
  {
    hide SlabInv, Counting, Locking, Counters, ProcessOne, PeerAfter, ConnAt, OccupiedCount, Room;
    DroppedFacts(cfg, s, id);
    if step.Work? && s.hands[i].Working? && i != ENCODE {
      assert HandOk(cfg, s.slab, s.peers, i, s.hands[i]);
      WorkMoveShape(cfg, s, i, s.hands[i].id, step.io);
    }
  }

  /** The multi-core pipeline leaks what it drops: once an id was lost - its request incomplete at
      its only read, malformed, its queue full, or its response written only in part - the slot
      stays occupied and the peer hears nothing more, for the rest of the run. */
  lemma {:induction false} DroppedForever(cfg: Config, steps: seq<Step>, n: nat, id: nat)
    requires n <= |steps| && id in Run(cfg, steps[..n]).dropped
    ensures StillDropped(Run(cfg, steps[..n]), Run(cfg, steps), id)
    decreases |steps| - n
  {
    hide StillDropped, Move, Inv;
    if n == |steps| {
      assert steps[..n] == steps;
      DroppedReflexive(cfg, Run(cfg, steps), id);
    } else {
      assert steps[..n + 1][..n] == steps[..n];
      var a, b, c := Run(cfg, steps[..n]), Run(cfg, steps[..n + 1]), Run(cfg, steps);
      DroppedStaysDropped(cfg, a, steps[n], id);
      assert b == Move(cfg, a, steps[n]);
      DroppedIn(a, b, id);
      DroppedForever(cfg, steps, n + 1, id);
      DroppedTransitive(a, b, c, id);
    }
  }

  lemma DroppedReflexive(cfg: Config, s: Sys, id: nat)
    requires Inv(cfg, s) && id in s.dropped
    ensures StillDropped(s, s, id)
  {
    DroppedFacts(cfg, s, id);
  }

  lemma DroppedIn(s: Sys, s': Sys, id: nat)
    requires StillDropped(s, s', id)
    ensures id in s'.dropped
  {
  }

  lemma DroppedTransitive(a: Sys, b: Sys, c: Sys, id: nat)
    requires StillDropped(a, b, id) && StillDropped(b, c, id)
    ensures StillDropped(a, c, id)
  {
  }
}
