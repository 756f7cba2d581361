/** When a stage thread of the multi-core pipeline dies, and what that leaves behind. */
module PipelineDeath {
  import opened Bytes
  import opened ConnSlab
  import opened Stages
  import opened Pipeline
  import opened PipelineTheorems

  /** Parse is at work on a buffer on which its parser panics. */
  predicate Panicking(cfg: Config, s: Sys, step: Step)
    requires Shape(s)
  {
    && step.Work? && step.stage == PARSE && s.hands[PARSE].Working? && Occupied(s.slab, s.hands[PARSE].id)
    && cfg.parse(ReadInto(s.slab.slots[s.hands[PARSE].id].value, step.io)).Panics?
  }

  /** A thread dies in a step if and only if it is Parse and its parser panics. */
  lemma DiesIff(cfg: Config, s: Sys, step: Step, i: nat)
    requires Inv(cfg, s) && i < STAGES && !s.hands[i].Dead?
    ensures Shape(s) && |Move(cfg, s, step).hands| == STAGES
    ensures Move(cfg, s, step).hands[i].Dead? <==> i == PARSE && Panicking(cfg, s, step)
  {
    hide SlabInv, Counting, PeersInv, Counters, Locking, Levels, PeerAfter, OccupiedCount, Room, RemoveConn, InsertConn;
  }

  /** A dead thread stays dead, and its input queue only grows. */
  lemma DeadStays(cfg: Config, s: Sys, step: Step, i: nat)
    requires Inv(cfg, s) && i < STAGES && s.hands[i].Dead?
    ensures var t := Move(cfg, s, step);
            |t.hands| == STAGES && |t.queues| == STAGES && t.hands[i].Dead? && s.queues[i] <= t.queues[i]
  {
    hide SlabInv, Counting, PeersInv, Counters, Locking, Levels, PeerAfter, OccupiedCount, Room, RemoveConn, InsertConn,
         ProcessOne;
  }

  predicate PanicsAt(cfg: Config, steps: seq<Step>, n: nat)
  {
    n < |steps| && Panicking(cfg, Run(cfg, steps[..n]), steps[n])
  }

  /** In every run: a thread is dead if and only if it is Parse and its parser has panicked. */
  lemma {:induction false} DeadIff(cfg: Config, steps: seq<Step>, i: nat)
    requires i < STAGES
    ensures Run(cfg, steps).hands[i].Dead? <==> i == PARSE && exists n: nat :: PanicsAt(cfg, steps, n)
    decreases |steps|
  {
    hide Run, Inv, Move, Panicking;
    if steps == [] {
      AllAliveYet(cfg, i);
    } else {
      var last := |steps| - 1;
      var before, s := steps[..last], Run(cfg, steps[..last]);
      DeadIff(cfg, before, i);
      RunOne(cfg, steps);
      forall n: nat | n < last
        ensures PanicsAt(cfg, before, n) == PanicsAt(cfg, steps, n)
      {
        assert before[..n] == steps[..n];
      }
      assert PanicsAt(cfg, steps, last) == Panicking(cfg, s, steps[last]);
      if s.hands[i].Dead? {
        DeadStays(cfg, s, steps[last], i);
        var n: nat :| PanicsAt(cfg, before, n);
        assert PanicsAt(cfg, steps, n);
      } else {
        DiesIff(cfg, s, steps[last], i);
      }
    }
  }

  lemma AllAliveYet(cfg: Config, i: nat)
    requires i < STAGES
    ensures Run(cfg, []).hands[i].Free?
  {
  }

  /** From then on, for the rest of every run, nothing is taken from its queue: whoever waits there
      waits for ever. */
  lemma {:induction false} DeadForever(cfg: Config, steps: seq<Step>, n: nat, i: nat)
    requires i < STAGES && n <= |steps| && Run(cfg, steps[..n]).hands[i].Dead?
    ensures Run(cfg, steps).hands[i].Dead?
    ensures Run(cfg, steps[..n]).queues[i] <= Run(cfg, steps).queues[i]
    decreases |steps|
  {
    hide Run, Inv, Move;
    if n == |steps| {
      assert steps[..n] == steps;
    } else {
      var before := steps[..|steps| - 1];
      assert before[..n] == steps[..n];
      DeadForever(cfg, before, n, i);
      RunOne(cfg, steps);
      DeadStays(cfg, Run(cfg, before), steps[|steps| - 1], i);
    }
  }
}
