/** When exactly the multi-core pipeline loses a connection. */
module PipelineDrops {
  import opened Bytes
  import opened ConnSlab
  import opened Stages
  import opened Pipeline
  import opened PipelineTheorems
  import opened ExecutorRuns
  import opened Accept

  /** The guards of the branches that drop an id: no room in the next queue; the one read of Parse
      does not hold a complete request, or not a valid one; a write that is neither complete nor
      an error. */
  predicate Loses(cfg: Config, s: Sys, step: Step, id: nat)
    requires Shape(s)
  {
    match step
    case AcceptPush => s.acceptor == APushing(id) && !Room(cfg, s.queues[0])
    case PushNext(i) => i + 1 < STAGES && s.hands[i] == Pushing(id) && !Room(cfg, s.queues[i + 1])
    case Work(i, io) =>
      && i < STAGES && s.hands[i] == Working(id) && Occupied(s.slab, id)
      && (var c := s.slab.slots[id].value;
          || (i == PARSE && !cfg.parse(ReadInto(c, io)).Good?)
          || (i == NET_OUT && !io.WriteFailed? && Taken(c, io) < |c.writeBuf|))
    case _ => false
  }

  /** A step drops an id if and only if it takes one of these branches with that id in hand. */
  lemma DropsIff(cfg: Config, s: Sys, step: Step, id: nat)
    requires Inv(cfg, s) && id !in s.dropped
    ensures Shape(s) && (id in Move(cfg, s, step).dropped <==> Loses(cfg, s, step, id))
  {
    hide SlabInv, Counting, PeersInv, Counters, Locking, PeerAfter, OccupiedCount, Room, RemoveConn, InsertConn;
    if StageStep(step) && step.stage < STAGES {
      assert HandOk(cfg, s.slab, s.peers, step.stage, s.hands[step.stage]);
    }
  }

  predicate LosesAt(cfg: Config, steps: seq<Step>, n: nat, id: nat)
  {
    n < |steps| && Loses(cfg, Run(cfg, steps[..n]), steps[n], id)
  }

  /** Whoever loses an id has it in hand. */
  lemma LosersHold(cfg: Config, s: Sys, step: Step, id: nat)
    requires Inv(cfg, s) && Loses(cfg, s, step, id)
    ensures id !in s.dropped
  {
    hide Room, SlabInv, Levels, Locking, Counters, Taken, ReadInto;
    if id in s.dropped {
      DroppedFacts(cfg, s, id);
    }
  }

  /** In every run: the dropped ids are exactly those that some step of it lost. */
  lemma {:induction false} DroppedIffLost(cfg: Config, steps: seq<Step>, id: nat)
    ensures id in Run(cfg, steps).dropped <==> exists n: nat :: LosesAt(cfg, steps, n, id)
    decreases |steps|
  {
    hide Run, Inv, Move, Loses;
    if steps == [] {
      NothingDroppedYet(cfg);
    } else {
      var last := |steps| - 1;
      var before, s := steps[..last], Run(cfg, steps[..last]);
      DroppedIffLost(cfg, before, id);
      RunOne(cfg, steps);
      forall n: nat | n < last
        ensures LosesAt(cfg, before, n, id) == LosesAt(cfg, steps, n, id)
      {
        assert before[..n] == steps[..n];
      }
      assert LosesAt(cfg, steps, last, id) == Loses(cfg, s, steps[last], id);
      if id in s.dropped {
        DroppedStaysDropped(cfg, s, steps[last], id);
        DroppedIn(s, Run(cfg, steps), id);
        var n: nat :| LosesAt(cfg, before, n, id);
        assert LosesAt(cfg, steps, n, id);
      } else {
        DropsIff(cfg, s, steps[last], id);
      }
    }
  }

  /** An id is lost at most once in a run. */
  lemma LostOnce(cfg: Config, steps: seq<Step>, a: nat, b: nat, id: nat)
    requires LosesAt(cfg, steps, a, id) && LosesAt(cfg, steps, b, id)
    ensures a == b
  {
    hide Run, Loses, Inv;
    if a < b {
      NotLostAgain(cfg, steps, a, b, id);
    } else if b < a {
      NotLostAgain(cfg, steps, b, a, id);
    }
  }

  lemma NotLostAgain(cfg: Config, steps: seq<Step>, a: nat, b: nat, id: nat)
    requires a < b && LosesAt(cfg, steps, a, id) && b < |steps|
    ensures !LosesAt(cfg, steps, b, id)
  {
    hide Run, Loses, Inv;
    assert steps[..b][..a] == steps[..a];
    assert LosesAt(cfg, steps[..b], a, id);
    DroppedIffLost(cfg, steps[..b], id);
    if LosesAt(cfg, steps, b, id) {
      LosersHold(cfg, Run(cfg, steps[..b]), steps[b], id);
    }
  }

  lemma NothingDroppedYet(cfg: Config)
    ensures Run(cfg, []).dropped == {}
  {
  }

  // ---- it happens --------------------------------------------------------------------------------------------

  /** A peer whose first bytes come after Parse has looked is lost at once: nine steps from the
      start its id is in no queue and no hand, and its slot occupied. */
  lemma EmptyReadIsDropped(cfg: Config)
    requires cfg.slabCapacity >= 1 && cfg.queueCapacity >= 2 && cfg.parse([]).NeedMore?
    ensures var s := Run(cfg, AcceptSteps() + FirstSteps(PARSE, Read([])));
            s.dropped == {0} && Occupied(s.slab, 0) && InTransit(s, 0) == 0
  {
    hide Inv, SlabInv, WorkMove, Moves, Run;
    var s0 := NewSys(cfg);
    StartsSafe(cfg);
    AcceptIsARun(cfg, s0);
    var s1 := Moves(cfg, s0, AcceptSteps());
    FirstAccepted(cfg, s0, s1);
    Taking(cfg, s1, PARSE, Read([]));
    RunIsMoves(cfg, AcceptSteps() + FirstSteps(PARSE, Read([])));
    MovesConcat(cfg, s0, AcceptSteps(), FirstSteps(PARSE, Read([])));
    LostAtParse(cfg, AtWork(s1, PARSE), 0);
    IdsAreExclusive(cfg, AcceptSteps() + FirstSteps(PARSE, Read([])), 0);
  }

  lemma RunIsMoves(cfg: Config, steps: seq<Step>)
    ensures Inv(cfg, NewSys(cfg)) && Run(cfg, steps) == Moves(cfg, NewSys(cfg), steps)
  {
    hide Inv, Moves;
    StartsSafe(cfg);
  }

  lemma FirstAccepted(cfg: Config, s0: Sys, s1: Sys)
    requires cfg.slabCapacity >= 1 && cfg.queueCapacity >= 2 && s0 == NewSys(cfg) && Shape(s0)
    requires Door(s1.slab, if |s1.queues| == STAGES then s1.queues[0] else [], s1.totalConns)
          == AcceptOne(cfg.queueCapacity, Door(s0.slab, s0.queues[0], s0.totalConns), 0)
    requires |s1.queues| == STAGES
    ensures s1.queues[0] == [0] && Occupied(s1.slab, 0) && s1.slab.slots[0] == Some(NewConnState(0))
    ensures Room(cfg, s0.queues[0])
  {
    hide SlabInv;
  }

  lemma LostAtParse(cfg: Config, s: Sys, id: nat)
    requires Shape(s) && Occupied(s.slab, id) && s.slab.slots[id] == Some(NewConnState(0))
    requires cfg.parse([]).NeedMore?
    ensures WorkMove(cfg, s, PARSE, id, Read([])).dropped == s.dropped + {id}
  {
    hide SlabInv;
    var nothing: Data := [];
    assert nothing + nothing == nothing;
  }
}
