/**
  The pipeline over its rings, load by load: a queue call is no longer one step but the single
  loads and stores of `RingQueue`, between which all other threads run.  Every such run looks, from
  the rings' contents, like a run of the pipeline over atomic queues, so all its theorems hold.
*/
module PipelineRings {
  import opened Bytes
  import opened ConnSlab
  import opened Stages
  import opened Pipeline
  import opened PipelineTheorems
  import opened ExecutorRuns
  import RingQueue

  /** The threads and the slab of `sys`, whose `queues` are ignored, and one ring per queue. */
  datatype Fine = Fine(sys: Sys, rings: seq<RingQueue.Ring>)

  predicate RingsOk(rings: seq<RingQueue.Ring>)
  {
    |rings| == STAGES && forall i :: 0 <= i < STAGES ==> RingQueue.Inv(rings[i])
  }

  function Contents(rings: seq<RingQueue.Ring>): (qs: seq<seq<nat>>)
    requires RingsOk(rings)
    ensures |qs| == STAGES
  {
    seq(STAGES, i requires 0 <= i < STAGES => RingQueue.Queue(rings[i]))
  }

  /** The system with what its rings hold as queues. */
  function Abs(f: Fine): Sys
    requires RingsOk(f.rings)
  {
    f.sys.(queues := Contents(f.rings))
  }

  function NewFine(cfg: Config): Fine
    requires cfg.queueCapacity >= 1
  {
    var r := RingQueue.NewRing(cfg.queueCapacity);
    Fine(NewSys(cfg), [r, r, r, r, r])
  }

  /** Whole steps of a thread, and the loads and stores of a pop from, or a push to, a queue. */
  datatype FineStep =
    | Whole(step: Step)
    | StartPop(stage: nat)
    | StepPop(stage: nat)
    | StartPush(queue: nat)
    | StepPush(queue: nat)

  predicate QueueCall(step: Step) { step.AcceptPush? || step.PopNext? || step.PushNext? }

  /** The id that the one producer of queue q is about to push. */
  function Pusher(s: Sys, q: nat): Option<nat>
    requires |s.hands| == STAGES && q < STAGES
  {
    if q == 0 then (if s.acceptor.APushing? then Some(s.acceptor.id) else None)
    else if s.hands[q - 1].Pushing? then Some(s.hands[q - 1].id)
    else None
  }

  /** The producer of queue q goes on, its push returned. */
  function PushReturned(s: Sys, q: nat): Sys
    requires |s.hands| == STAGES && q < STAGES
  {
    if q == 0 then s.(acceptor := AIdle) else s.(hands := s.hands[q - 1 := Leaving])
  }

  predicate FineShape(f: Fine)
  {
    RingsOk(f.rings) && Shape(Abs(f))
  }

  function FineMove(cfg: Config, f: Fine, step: FineStep): Fine
    requires FineShape(f)
  {
    match step
    case Whole(st) => if QueueCall(st) then f else f.(sys := Move(cfg, Abs(f), st))
    case StartPop(i) =>
      if i < STAGES && f.sys.hands[i].Free? then
        f.(rings := f.rings[i := RingQueue.Move(f.rings[i], RingQueue.BeginPop).ring])
      else f
    case StepPop(i) =>
      if i < STAGES && !f.rings[i].consumer.CIdle? then
        var e := RingQueue.Move(f.rings[i], RingQueue.ConsumerStep);
        match e.returned
        case Some(Popped(id)) =>
          Fine(f.sys.(hands := f.sys.hands[i := Hand.Popped(id)]), f.rings[i := e.ring])
        case _ => f.(rings := f.rings[i := e.ring])
      else f
    case StartPush(q) =>
      if q < STAGES && Pusher(f.sys, q).Some? then
        f.(rings := f.rings[q := RingQueue.Move(f.rings[q], RingQueue.BeginPush(Pusher(f.sys, q).value)).ring])
      else f
    case StepPush(q) =>
      if q < STAGES && !f.rings[q].producer.PIdle? then
        var e := RingQueue.Move(f.rings[q], RingQueue.ProducerStep);
        var rings := f.rings[q := e.ring];
        match e.returned
        case Some(Pushed(_)) => Fine(PushReturned(f.sys, q), rings)
        case Some(PushedFull(id)) => Fine(PushReturned(f.sys, q).(dropped := f.sys.dropped + {id}), rings)
        case _ => f.(rings := rings)
      else f
  }

  /** The step of the atomic pipeline that a fine step amounts to: a queue call happens when it
      returns, everything before it is invisible. */
  function Seen(f: Fine, step: FineStep): Option<Step>
    requires FineShape(f)
  {
    match step
    case Whole(st) => if QueueCall(st) then None else Some(st)
    case StepPop(i) =>
      if i < STAGES && !f.rings[i].consumer.CIdle? then
        match RingQueue.Move(f.rings[i], RingQueue.ConsumerStep).returned
        case Some(Popped(_)) => Some(PopNext(i))
        case _ => None
      else None
    case StepPush(q) =>
      if q < STAGES && !f.rings[q].producer.PIdle?
         && RingQueue.Move(f.rings[q], RingQueue.ProducerStep).returned.Some? then
        Some(if q == 0 then AcceptPush else PushNext(q - 1))
      else None
    case _ => None
  }

  // ---- one ring -----------------------------------------------------------------------------------------

  lemma PopFacts(r: RingQueue.Ring)
    requires RingQueue.Inv(r) && !r.consumer.CIdle?
    ensures RingQueue.Sound(r) && |r.popped| <= |r.pushed|
    ensures var r' := RingQueue.Move(r, RingQueue.ConsumerStep).ring; RingQueue.Inv(r') && |r'.popped| <= |r'.pushed|
    ensures var e := RingQueue.Move(r, RingQueue.ConsumerStep);
            var q, q' := RingQueue.Queue(r), RingQueue.Queue(e.ring);
            && RingQueue.Inv(e.ring) && e.ring.capacity == r.capacity && e.ring.producer == r.producer
            && (match e.returned
                case None => !e.ring.consumer.CIdle? && q' == q
                case Some(Popped(id)) => e.ring.consumer.CIdle? && q != [] && q[0] == id && q' == q[1..]
                case Some(PoppedNone) => e.ring.consumer.CIdle? && q' == q
                case Some(PoppedMark) => q != [] && q[0] == RingQueue.EMPTY_SLOT
                case _ => false)
  {
    hide RingQueue.Slot, RingQueue.Next;
    RingQueue.MoveRefinesFifo(r, RingQueue.ConsumerStep);
  }

  lemma PushFacts(r: RingQueue.Ring)
    requires RingQueue.Inv(r) && !r.producer.PIdle?
    ensures RingQueue.Sound(r) && |r.popped| <= |r.pushed|
    ensures var r' := RingQueue.Move(r, RingQueue.ProducerStep).ring; RingQueue.Inv(r') && |r'.popped| <= |r'.pushed|
    ensures var e := RingQueue.Move(r, RingQueue.ProducerStep);
            var q, q' := RingQueue.Queue(r), RingQueue.Queue(e.ring);
            && RingQueue.Inv(e.ring) && e.ring.capacity == r.capacity && e.ring.consumer == r.consumer
            && (match e.returned
                case None => !e.ring.producer.PIdle? && e.ring.producer.id == r.producer.id && q' == q
                case Some(Pushed(id)) =>
                  e.ring.producer.PIdle? && id == r.producer.id && |q| + 1 < r.capacity && q' == q + [id]
                case Some(PushedFull(id)) =>
                  e.ring.producer.PIdle? && id == r.producer.id && |q| + 1 == r.capacity && q' == q
                case _ => false)
  {
    hide RingQueue.Slot, RingQueue.Next;
    RingQueue.MoveRefinesFifo(r, RingQueue.ProducerStep);
  }

  lemma StartFacts(r: RingQueue.Ring, s: RingQueue.Step)
    requires RingQueue.Inv(r) && (s.BeginPop? || s.BeginPush?)
    ensures RingQueue.Sound(r)
    ensures var r' := RingQueue.Move(r, s).ring;
            && RingQueue.Inv(r') && r'.capacity == r.capacity && RingQueue.Queue(r') == RingQueue.Queue(r)
            && (s.BeginPop? ==> r'.producer == r.producer)
            && (s.BeginPush? ==> r'.consumer == r.consumer
                                 && r'.producer == if r.producer.PIdle? then r'.producer else r.producer)
            && (s.BeginPush? && r.producer.PIdle? ==> !r'.producer.PIdle? && r'.producer.id == s.id)
  {
    hide RingQueue.Slot, RingQueue.Next;
    RingQueue.MoveRefinesFifo(r, s);
  }

  lemma ContentsUpdate(rings: seq<RingQueue.Ring>, i: nat, r: RingQueue.Ring)
    requires RingsOk(rings) && i < STAGES && RingQueue.Inv(r)
    ensures RingsOk(rings[i := r])
    ensures Contents(rings[i := r]) == Contents(rings)[i := RingQueue.Queue(r)]
    ensures RingQueue.Queue(r) == RingQueue.Queue(rings[i]) ==> Contents(rings[i := r]) == Contents(rings)
  {
    hide RingQueue.Inv, RingQueue.Queue;
    QueuesReadable(rings);
    QueuesReadable(rings[i := r]);
  }

  lemma QueuesReadable(rings: seq<RingQueue.Ring>)
    requires RingsOk(rings)
    ensures forall i :: 0 <= i < STAGES ==> |rings[i].popped| <= |rings[i].pushed|
  {
    hide RingQueue.Slot;
  }

  // ---- the refinement -----------------------------------------------------------------------------------

  /** A pop is under way only in a thread that is free for it, a push only of the id in hand. */
  predicate Linked(cfg: Config, s: Sys, rings: seq<RingQueue.Ring>, i: nat)
    requires |s.hands| == STAGES && |rings| == STAGES && i < STAGES
  {
    && rings[i].capacity == cfg.queueCapacity
    && (!rings[i].consumer.CIdle? ==> s.hands[i].Free?)
    && (!rings[i].producer.PIdle? ==> Pusher(s, i) == Some(rings[i].producer.id))
  }

  ghost predicate FineInv(cfg: Config, f: Fine)
  {
    && FineShape(f) && Inv(cfg, Abs(f))
    && forall i :: 0 <= i < STAGES ==> Linked(cfg, f.sys, f.rings, i)
  }

  /** Steps that are no queue calls leave queues, waiting threads and pushing threads alone. */
  lemma WholeLeavesQueues(cfg: Config, s: Sys, step: Step)
    requires Shape(s) && !QueueCall(step)
    ensures var t := Move(cfg, s, step);
            && t.queues == s.queues && |t.hands| == STAGES
            && (s.acceptor.APushing? ==> t.acceptor == s.acceptor)
            && forall i :: 0 <= i < STAGES ==> (s.hands[i].Free? || s.hands[i].Pushing? ==> t.hands[i] == s.hands[i])
  {
    hide SlabInv, ProcessOne, PeerAfter, InsertConn, RemoveConn, OccupiedCount;
  }

  /** What is to be shown of a step. */
  ghost predicate Refines(cfg: Config, f: Fine, step: FineStep)
    requires FineInv(cfg, f)
  {
    var f' := FineMove(cfg, f, step);
    FineInv(cfg, f') && Abs(f') == match Seen(f, step) case Some(st) => Move(cfg, Abs(f), st) case None => Abs(f)
  }

  lemma WholeRefines(cfg: Config, f: Fine, st: Step)
    requires FineInv(cfg, f)
    ensures Refines(cfg, f, Whole(st))
  {
    hide RingQueue.Inv, RingQueue.Queue, Inv, Move, SlabInv, Contents;
    if !QueueCall(st) {
      var s := Abs(f);
      MoveKeepsInv(cfg, s, st);
      ShapeOf(cfg, Move(cfg, s, st));
      WholeLeavesQueues(cfg, s, st);
      forall i | 0 <= i < STAGES
        ensures Linked(cfg, Move(cfg, s, st), f.rings, i)
      {
        assert Linked(cfg, f.sys, f.rings, i);
      }
    }
  }

  lemma StartPopRefines(cfg: Config, f: Fine, i: nat)
    requires FineInv(cfg, f) && i < STAGES
    ensures Refines(cfg, f, StartPop(i))
  {
    hide RingQueue.Inv, RingQueue.Queue, RingQueue.Move, RingQueue.Sound, Inv, Move, SlabInv, Contents;
    if f.sys.hands[i].Free? {
      StartFacts(f.rings[i], RingQueue.BeginPop);
      assert Linked(cfg, f.sys, f.rings, i);
      RingChanged(cfg, f, i, RingQueue.Move(f.rings[i], RingQueue.BeginPop).ring);
    }
  }

  lemma StartPushRefines(cfg: Config, f: Fine, q: nat)
    requires FineInv(cfg, f) && q < STAGES
    ensures Refines(cfg, f, StartPush(q))
  {
    hide RingQueue.Inv, RingQueue.Queue, RingQueue.Move, RingQueue.Sound, Inv, Move, SlabInv, Contents;
    if Pusher(f.sys, q).Some? {
      var begin := RingQueue.BeginPush(Pusher(f.sys, q).value);
      StartFacts(f.rings[q], begin);
      assert Linked(cfg, f.sys, f.rings, q);
      RingChanged(cfg, f, q, RingQueue.Move(f.rings[q], begin).ring);
    }
  }

  /** A ring went on without its queue changing, and stays linked to its threads. */
  lemma RingChanged(cfg: Config, f: Fine, i: nat, r: RingQueue.Ring)
    requires FineInv(cfg, f) && i < STAGES && RingQueue.Inv(r)
    requires RingQueue.Queue(r) == RingQueue.Queue(f.rings[i]) && r.capacity == f.rings[i].capacity
    requires !r.consumer.CIdle? ==> f.sys.hands[i].Free?
    requires !r.producer.PIdle? ==> Pusher(f.sys, i) == Some(r.producer.id)
    ensures var f' := f.(rings := f.rings[i := r]);
            RingsOk(f'.rings) && FineInv(cfg, f') && Abs(f') == Abs(f)
  {
    hide RingQueue.Inv, RingQueue.Queue, Inv, SlabInv, Contents;
    ContentsUpdate(f.rings, i, r);
    var rings := f.rings[i := r];
    forall k | 0 <= k < STAGES
      ensures Linked(cfg, f.sys, rings, k)
    {
      assert Linked(cfg, f.sys, f.rings, k);
    }
  }

  lemma StepPopRefines(cfg: Config, f: Fine, i: nat)
    requires FineInv(cfg, f) && i < STAGES && cfg.slabCapacity <= RingQueue.EMPTY_SLOT
    ensures Refines(cfg, f, StepPop(i))
  {
    hide RingQueue.Inv, RingQueue.Queue, RingQueue.Move, RingQueue.Sound, Inv, SlabInv, Contents, WorkMove, FreeMove;
    var r := f.rings[i];
    assert Linked(cfg, f.sys, f.rings, i);
    if !r.consumer.CIdle? {
      PopFacts(r);
      var e := RingQueue.Move(r, RingQueue.ConsumerStep);
      ContentsAt(f.rings, i);
      if e.returned.Some? && e.returned.value.Popped? {
        PopReturned(cfg, f, i, e.ring, e.returned.value.id);
      } else {
        if e.returned == Some(RingQueue.PoppedMark) {
          QueuedIdsAreReal(cfg, Abs(f), i, 0);
        }
        RingChanged(cfg, f, i, e.ring);
      }
    }
  }

  lemma ContentsAt(rings: seq<RingQueue.Ring>, i: nat)
    requires RingsOk(rings) && i < STAGES
    ensures |rings[i].popped| <= |rings[i].pushed| && Contents(rings)[i] == RingQueue.Queue(rings[i])
  {
    hide RingQueue.Slot;
  }

  lemma PopReturned(cfg: Config, f: Fine, i: nat, r: RingQueue.Ring, id: nat)
    requires FineInv(cfg, f) && i < STAGES && f.sys.hands[i].Free? && RingQueue.Inv(r)
    requires r.capacity == f.rings[i].capacity && r.producer == f.rings[i].producer && r.consumer.CIdle?
    requires Contents(f.rings)[i] != [] && Contents(f.rings)[i][0] == id
    requires |r.popped| <= |r.pushed| && RingQueue.Queue(r) == Contents(f.rings)[i][1..]
    ensures var f' := Fine(f.sys.(hands := f.sys.hands[i := Hand.Popped(id)]), f.rings[i := r]);
            RingsOk(f'.rings) && FineInv(cfg, f') && Abs(f') == Move(cfg, Abs(f), PopNext(i))
  {
    hide RingQueue.Inv, RingQueue.Queue, Inv, SlabInv, Contents, WorkMove, FreeMove;
    ContentsUpdate(f.rings, i, r);
    MoveKeepsInv(cfg, Abs(f), PopNext(i));
    ShapeOf(cfg, Move(cfg, Abs(f), PopNext(i)));
    var s', rings := f.sys.(hands := f.sys.hands[i := Hand.Popped(id)]), f.rings[i := r];
    forall k | 0 <= k < STAGES
      ensures Linked(cfg, s', rings, k)
    {
      assert Linked(cfg, f.sys, f.rings, k);
    }
  }

  lemma StepPushRefines(cfg: Config, f: Fine, q: nat)
    requires FineInv(cfg, f) && q < STAGES
    ensures Refines(cfg, f, StepPush(q))
  {
    hide RingQueue.Inv, RingQueue.Queue, RingQueue.Move, RingQueue.Sound, Inv, SlabInv, Contents, Move;
    var r := f.rings[q];
    assert Linked(cfg, f.sys, f.rings, q);
    if !r.producer.PIdle? {
      PushFacts(r);
      var e := RingQueue.Move(r, RingQueue.ProducerStep);
      ContentsAt(f.rings, q);
      if e.returned.Some? {
        PushDone(cfg, f, q, e.ring);
      } else {
        RingChanged(cfg, f, q, e.ring);
      }
    }
  }

  lemma PushDone(cfg: Config, f: Fine, q: nat, r: RingQueue.Ring)
    requires FineInv(cfg, f) && q < STAGES && RingQueue.Inv(r) && |r.popped| <= |r.pushed|
    requires Pusher(f.sys, q).Some?
    requires r.capacity == f.rings[q].capacity && r.consumer == f.rings[q].consumer && r.producer.PIdle?
    ensures var id, queue := Pusher(f.sys, q).value, Contents(f.rings)[q];
            var step := if q == 0 then AcceptPush else PushNext(q - 1);
            var s' := PushReturned(f.sys, q);
            && (|queue| + 1 < cfg.queueCapacity && RingQueue.Queue(r) == queue + [id] ==>
                  var f' := Fine(s', f.rings[q := r]);
                  RingsOk(f'.rings) && FineInv(cfg, f') && Abs(f') == Move(cfg, Abs(f), step))
            && (|queue| + 1 == cfg.queueCapacity && RingQueue.Queue(r) == queue ==>
                  var f' := Fine(s'.(dropped := f.sys.dropped + {id}), f.rings[q := r]);
                  RingsOk(f'.rings) && FineInv(cfg, f') && Abs(f') == Move(cfg, Abs(f), step))
  {
    hide RingQueue.Inv, RingQueue.Queue, Inv, SlabInv, Contents, WorkMove, FreeMove;
    var step := if q == 0 then AcceptPush else PushNext(q - 1);
    ContentsAt(f.rings, q);
    ContentsUpdate(f.rings, q, r);
    MoveKeepsInv(cfg, Abs(f), step);
    ShapeOf(cfg, Move(cfg, Abs(f), step));
    var s', rings := PushReturned(f.sys, q), f.rings[q := r];
    var s'' := s'.(dropped := f.sys.dropped + {Pusher(f.sys, q).value});
    forall k | 0 <= k < STAGES
      ensures Linked(cfg, s', rings, k) && Linked(cfg, s'', rings, k)
    {
      assert Linked(cfg, f.sys, f.rings, k);
    }
  }

  /** Every load and store of every thread is invisible, or one step of the atomic pipeline. */
  lemma FineStepRefines(cfg: Config, f: Fine, step: FineStep)
    requires FineInv(cfg, f) && cfg.slabCapacity <= RingQueue.EMPTY_SLOT
    ensures Refines(cfg, f, step)
  {
    hide FineInv, Refines;
    match step
    case Whole(st) => WholeRefines(cfg, f, st);
    case StartPop(i) => if i < STAGES { StartPopRefines(cfg, f, i); } else { IdleRefines(cfg, f, step); }
    case StepPop(i) => if i < STAGES { StepPopRefines(cfg, f, i); } else { IdleRefines(cfg, f, step); }
    case StartPush(q) => if q < STAGES { StartPushRefines(cfg, f, q); } else { IdleRefines(cfg, f, step); }
    case StepPush(q) => if q < STAGES { StepPushRefines(cfg, f, q); } else { IdleRefines(cfg, f, step); }
  }

  lemma IdleRefines(cfg: Config, f: Fine, step: FineStep)
    requires FineInv(cfg, f) && !step.Whole?
    requires step.StartPop? || step.StepPop? ==> step.stage >= STAGES
    requires step.StartPush? || step.StepPush? ==> step.queue >= STAGES
    ensures Refines(cfg, f, step)
  {
  }

  // ---- runs ---------------------------------------------------------------------------------------------

  lemma NewRingInv(capacity: nat)
    requires capacity >= 1
    ensures RingQueue.Inv(RingQueue.NewRing(capacity)) && RingQueue.Queue(RingQueue.NewRing(capacity)) == []
  {
  }

  lemma StartsFine(cfg: Config)
    requires cfg.queueCapacity >= 1
    ensures FineInv(cfg, NewFine(cfg)) && Abs(NewFine(cfg)) == NewSys(cfg)
  {
    hide Inv, RingQueue.Inv, RingQueue.Queue;
    StartsSafe(cfg);
    ShapeOf(cfg, NewSys(cfg));
    NewRingInv(cfg.queueCapacity);
    var f := NewFine(cfg);
    assert Contents(f.rings) == [[], [], [], [], []];
  }

  predicate Sized(cfg: Config) { cfg.queueCapacity >= 1 && cfg.slabCapacity <= RingQueue.EMPTY_SLOT }

  /** A run of all threads, load by load. */
  function FineRun(cfg: Config, steps: seq<FineStep>): (f: Fine)
    requires Sized(cfg)
    ensures FineInv(cfg, f)
    decreases |steps|
  {
    if steps == [] then
      StartsFine(cfg);
      NewFine(cfg)
    else
      var f := FineRun(cfg, steps[..|steps| - 1]);
      FineStepRefines(cfg, f, steps[|steps| - 1]);
      FineMove(cfg, f, steps[|steps| - 1])
  }

  /** The steps of it that can be seen. */
  function SeenSteps(cfg: Config, steps: seq<FineStep>): seq<Step>
    requires Sized(cfg)
    decreases |steps|
  {
    if steps == [] then []
    else
      var before := steps[..|steps| - 1];
      SeenSteps(cfg, before) +
      match Seen(FineRun(cfg, before), steps[|steps| - 1])
      case Some(st) => [st]
      case None => []
  }

  /** Every run over the rings is, by what the rings hold, a run of the pipeline over queues. */
  lemma {:induction false} RingsRefineQueues(cfg: Config, steps: seq<FineStep>)
    requires Sized(cfg)
    ensures Abs(FineRun(cfg, steps)) == Run(cfg, SeenSteps(cfg, steps))
    decreases |steps|
  {
    hide FineMove, Seen, Move, Inv;
    if steps == [] {
      StartsFine(cfg);
    } else {
      var before, step := steps[..|steps| - 1], steps[|steps| - 1];
      RingsRefineQueues(cfg, before);
      var f := FineRun(cfg, before);
      FineStepRefines(cfg, f, step);
      var seen := SeenSteps(cfg, before);
      match Seen(f, step)
      case Some(st) =>
        assert (seen + [st])[..|seen|] == seen;
        RunOne(cfg, seen + [st]);
      case None =>
        assert seen + [] == seen;
    }
  }

  /** So what holds of every run of the pipeline holds load by load: ids are exclusive, and each
      peer gets its own response. */
  lemma SafeLoadByLoad(cfg: Config, steps: seq<FineStep>, id: nat, k: nat)
    requires Sized(cfg)
    ensures var f := FineRun(cfg, steps);
            && InTransit(Abs(f), id) <= 1
            && (Occupied(f.sys.slab, id) <==> InTransit(Abs(f), id) == 1 || id in f.sys.dropped)
            && (k < |f.sys.peers| ==>
                  var p := f.sys.peers[k];
                  && (p.sent != [] ==> cfg.parse(p.received).Good? && p.sent <= ResponseTo(cfg, p.received))
                  && (k in f.sys.answered ==> cfg.parse(p.received).Good? && p.sent == ResponseTo(cfg, p.received)))
  {
    hide FineRun, Run, InTransit, Occupied, RouteOf;
    RingsRefineQueues(cfg, steps);
    IdsAreExclusive(cfg, SeenSteps(cfg, steps), id);
    if k < |Run(cfg, SeenSteps(cfg, steps)).peers| {
      PeersGetOwnResponse(cfg, SeenSteps(cfg, steps), k);
    }
  }
}
