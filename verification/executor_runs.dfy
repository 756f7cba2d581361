/** The executor's loop, item by item, against the pipeline it is part of. */
module ExecutorRuns {
  import opened Bytes
  import opened ConnSlab
  import opened Stages
  import opened Pipeline
  import opened PipelineTheorems
  import opened Executor
  import RingQueue

  /** What the executor of stage i sees of the system. */
  function View(s: Sys, i: nat, closed: nat, processed: nat): Batch
    requires Shape(s) && i < STAGES
  {
    Batch(s.slab, s.queues[i], if i + 1 < STAGES then s.queues[i + 1] else [], closed, processed, s.hands[i].Dead?,
          false)
  }

  function RoomOf(cfg: Config, i: nat): Option<nat>
  {
    if i + 1 < STAGES then Some(cfg.queueCapacity) else None
  }

  /** The steps of one item; those its verdict does not call for do nothing. */
  function ItemSteps(i: nat, io: Io): seq<Step>
  {
    [PopNext(i), TakeLock(i), Work(i, io), PushNext(i), CountDown(i), FreeSlot(i), Unlock(i)]
  }

  function BatchSteps(i: nat, ios: seq<Io>): seq<Step>
    decreases |ios|
  {
    if ios == [] then [] else BatchSteps(i, ios[..|ios| - 1]) + ItemSteps(i, ios[|ios| - 1])
  }

  predicate Ready(s: Sys, i: nat)
    requires Shape(s) && i < STAGES
  {
    s.lock.None? && (s.hands[i].Free? || s.hands[i].Dead?)
  }

  lemma StageMoves(cfg: Config, s: Sys, steps: seq<Step>, step: Step, i: nat)
    requires Inv(cfg, s) && StageStep(step) && step.stage == i && i < STAGES
    ensures var m := Moves(cfg, s, steps);
            Shape(m) && Moves(cfg, s, steps + [step]) == StageMove(cfg, m, step, i)
  {
    hide StageMove, Inv;
    MovesOne(cfg, s, steps, step);
  }

  function FirstSteps(i: nat, io: Io): seq<Step> { [PopNext(i), TakeLock(i), Work(i, io)] }

  lemma ThreeMoves(cfg: Config, m: Sys, i: nat, io: Io) returns (m1: Sys, m2: Sys)
    requires Inv(cfg, m) && i < STAGES
    ensures Shape(m) && Shape(m1) && Shape(m2) && Shape(Moves(cfg, m, FirstSteps(i, io)))
    ensures m1 == StageMove(cfg, m, PopNext(i), i) && m2 == StageMove(cfg, m1, TakeLock(i), i)
    ensures Moves(cfg, m, FirstSteps(i, io)) == StageMove(cfg, m2, Work(i, io), i)
  {
    hide Inv, StageMove, Shape;
    var a, b, c := PopNext(i), TakeLock(i), Work(i, io);
    assert Moves(cfg, m, []) == m;
    assert [] + [a] == [a] && [a] + [b] == [a, b] && [a, b] + [c] == [a, b, c];
    StageMoves(cfg, m, [], a, i);
    StageMoves(cfg, m, [a], b, i);
    StageMoves(cfg, m, [a, b], c, i);
    ShapeOf(cfg, Moves(cfg, m, [a, b, c]));
    m1, m2 := Moves(cfg, m, [a]), Moves(cfg, m, [a, b]);
  }

  /** The state in which stage i works on the first id of its queue. */
  function AtWork(s: Sys, i: nat): Sys
    requires Shape(s) && i < STAGES && s.queues[i] != []
  {
    s.(queues := s.queues[i := s.queues[i][1..]], hands := s.hands[i := Working(s.queues[i][0])], lock := Some(i))
  }

  /** The first three steps take the id and do the stage's work on it. */
  lemma Taking(cfg: Config, s: Sys, i: nat, io: Io)
    requires Inv(cfg, s) && i < STAGES && s.lock.None? && s.hands[i].Free? && s.queues[i] != []
    ensures Shape(AtWork(s, i))
    ensures Moves(cfg, s, FirstSteps(i, io)) == WorkMove(cfg, AtWork(s, i), i, s.queues[i][0], io)
  {
    hide Inv, SlabInv, WorkMove, Moves;
    var m1, m2 := ThreeMoves(cfg, s, i, io);
    assert m2 == AtWork(s, i);
  }

  function LastSteps(i: nat): seq<Step> { [PushNext(i), CountDown(i), FreeSlot(i), Unlock(i)] }

  lemma FourMoves(cfg: Config, m: Sys, i: nat) returns (m1: Sys, m2: Sys, m3: Sys)
    requires Inv(cfg, m) && i < STAGES
    ensures Shape(m) && Shape(m1) && Shape(m2) && Shape(m3) && Shape(Moves(cfg, m, LastSteps(i)))
    ensures m1 == StageMove(cfg, m, PushNext(i), i) && m2 == StageMove(cfg, m1, CountDown(i), i)
    ensures m3 == StageMove(cfg, m2, FreeSlot(i), i)
    ensures Moves(cfg, m, LastSteps(i)) == StageMove(cfg, m3, Unlock(i), i)
  {
    hide Inv, StageMove, Shape;
    var a, b, c, d := PushNext(i), CountDown(i), FreeSlot(i), Unlock(i);
    assert Moves(cfg, m, []) == m;
    assert [] + [a] == [a] && [a] + [b] == [a, b] && [a, b] + [c] == [a, b, c] && [a, b, c] + [d] == [a, b, c, d];
    StageMoves(cfg, m, [], a, i);
    StageMoves(cfg, m, [a], b, i);
    StageMoves(cfg, m, [a, b], c, i);
    StageMoves(cfg, m, [a, b, c], d, i);
    ShapeOf(cfg, Moves(cfg, m, [a, b, c, d]));
    m1, m2, m3 := Moves(cfg, m, [a]), Moves(cfg, m, [a, b]), Moves(cfg, m, [a, b, c]);
  }

  /** What the last four steps make of each verdict. */
  function Finish(cfg: Config, m: Sys, i: nat): Sys
    requires Shape(m) && i < STAGES
  {
    var s :=
      match m.hands[i]
      case Pushing(id) => PushMove(cfg, m, i, id)
      case Closing(id) => FreeMove(m, i, id).(totalConns := m.totalConns - 1)
      case _ => m;
    if m.hands[i].Dead? then m else s.(lock := None, hands := m.hands[i := Free])
  }

  predicate Decided(h: Hand) { h.Pushing? || h.Closing? || h.Leaving? || h.Dead? }

  lemma Finishing(cfg: Config, m: Sys, i: nat)
    requires Inv(cfg, m) && i < STAGES && Decided(m.hands[i])
    ensures Shape(m) && Shape(Moves(cfg, m, LastSteps(i))) && Moves(cfg, m, LastSteps(i)) == Finish(cfg, m, i)
  {
    hide Inv, SlabInv, RemoveConn, Room, Moves;
    var m1, m2, m3 := FourMoves(cfg, m, i);
  }

  /** One item of the executor is one uninterrupted passage of its stage thread through the
      pipeline: the same slab, queues and counter, and the lock free again. */
  lemma ItemIsARun(cfg: Config, s: Sys, i: nat, io: Io, closed: nat, processed: nat)
    requires Inv(cfg, s) && i < STAGES && s.lock.None? && s.hands[i].Free? && s.queues[i] != []
    ensures var t := Moves(cfg, s, ItemSteps(i, io));
            var b := ItemSpec(cfg, i, RoomOf(cfg, i), View(s, i, closed, processed), io);
            && Shape(t) && Ready(t, i) && View(t, i, b.closed, b.processed) == b
            && t.totalConns == s.totalConns - (b.closed - closed)
            && Elsewhere(s, t, i)
  {
    hide Inv, WorkMove, Moves, SlabInv, Finish, ProcessId;
    ShapeOf(cfg, s);
    assert ItemSteps(i, io) == FirstSteps(i, io) + LastSteps(i);
    MovesConcat(cfg, s, FirstSteps(i, io), LastSteps(i));
    Taking(cfg, s, i, io);
    var m := Moves(cfg, s, FirstSteps(i, io));
    ShapeOf(cfg, m);
    Outcome(cfg, s, i, io);
    Finishing(cfg, m, i);
  }

  /** The other threads and their queues stand still. */
  predicate Elsewhere(s: Sys, t: Sys, i: nat)
    requires Shape(s) && Shape(t)
  {
    && t.acceptor == s.acceptor
    && (forall j :: 0 <= j < STAGES && j != i ==> t.hands[j] == s.hands[j])
    && (forall j :: 0 <= j < STAGES && j != i && j != i + 1 ==> t.queues[j] == s.queues[j])
  }

  /** What the pipeline's own steps make of the item, verdict by verdict. */
  lemma Outcome(cfg: Config, s: Sys, i: nat, io: Io)
    requires Inv(cfg, s) && i < STAGES && s.lock.None? && s.hands[i].Free? && s.queues[i] != []
    requires Shape(AtWork(s, i)) && Shape(WorkMove(cfg, AtWork(s, i), i, s.queues[i][0], io))
    ensures var m := WorkMove(cfg, AtWork(s, i), i, s.queues[i][0], io);
            var t := Finish(cfg, m, i);
            var e := ProcessId(cfg, i, s.queues[i][0], s.slab, io);
            var out := if e.next.Some? && i + 1 < STAGES && Room(cfg, s.queues[i + 1]) then [e.next.value] else [];
            && Decided(m.hands[i])
            && t.slab == e.slab && t.lock.None? && t.acceptor == s.acceptor
            && t.hands == s.hands[i := if e.aborted then Dead else Free]
            && t.totalConns == s.totalConns - (if e.closed then 1 else 0)
            && t.queues == Handed(s.queues, i, out)
  {
    hide Inv, SlabInv, RemoveConn, WorkMove;
    ShapeOf(cfg, s);
    Verdicts(cfg, s, i, io);
    HandedNothing(s.queues, i);
    var m := WorkMove(cfg, AtWork(s, i), i, s.queues[i][0], io);
    AfterWork(cfg, s, i, io);
    hide ProcessOne, PutConn;
    assert s.hands[i := m.hands[i]][i := Free] == s.hands[i := Free];
  }

  lemma HandedNothing(qs: seq<seq<nat>>, i: nat)
    requires |qs| == STAGES && i < STAGES && qs[i] != []
    ensures Handed(qs, i, []) == qs[i := qs[i][1..]]
  {
    if i + 1 < STAGES {
      assert qs[i + 1] + [] == qs[i + 1];
    }
  }

  function HandFor(v: Verdict, id: nat): Hand
  {
    match v
    case Forward => Pushing(id)
    case Lose => Leaving
    case Abort => Dead
    case Close => Closing(id)
  }

  lemma AfterWork(cfg: Config, s: Sys, i: nat, io: Io)
    requires Inv(cfg, s) && i < STAGES && s.hands[i].Free? && s.queues[i] != []
    requires Shape(AtWork(s, i)) && At(cfg, s.slab, s.peers, s.queues[i][0], LevelOf(i))
    ensures var id := s.queues[i][0];
            var o := ProcessOne(cfg, i, s.slab.slots[id].value, io);
            var m := WorkMove(cfg, AtWork(s, i), i, id, io);
            && m.hands == s.hands[i := HandFor(o.verdict, id)]
            && m.slab == (if i == ENCODE then s.slab else PutConn(s.slab, id, o.conn))
            && m.queues == s.queues[i := s.queues[i][1..]] && m.acceptor == s.acceptor
            && m.totalConns == s.totalConns
            && m.lock == (if o.verdict.Abort? then None else Some(i))
  {
    hide Inv, SlabInv, PeerAfter, ParseOne, RouteOne, AppOne, NetOutOne;
    ShapeOf(cfg, s);
  }

  /** The first id of queue i taken, `out` appended to the next queue. */
  function Handed(qs: seq<seq<nat>>, i: nat, out: seq<nat>): seq<seq<nat>>
    requires |qs| == STAGES && i < STAGES && qs[i] != []
  {
    if i + 1 < STAGES then qs[i := qs[i][1..]][i + 1 := qs[i + 1] + out] else qs[i := qs[i][1..]]
  }

  lemma Verdicts(cfg: Config, s: Sys, i: nat, io: Io)
    requires Inv(cfg, s) && i < STAGES && s.hands[i].Free? && s.queues[i] != []
    ensures At(cfg, s.slab, s.peers, s.queues[i][0], LevelOf(i))
    ensures i == NET_OUT ==> !ProcessOne(cfg, i, s.slab.slots[s.queues[i][0]].value, io).verdict.Forward?
    ensures i != NET_OUT ==> !ProcessOne(cfg, i, s.slab.slots[s.queues[i][0]].value, io).verdict.Close?
  {
  }

  /** Ids come from the slab, whose size is a `usize`: none is the empty-slot mark. */
  lemma QueuedIdsAreReal(cfg: Config, s: Sys, i: nat, k: nat)
    requires Inv(cfg, s) && cfg.slabCapacity <= RingQueue.EMPTY_SLOT && i < STAGES && k < |s.queues[i]|
    ensures s.queues[i][k] < RingQueue.EMPTY_SLOT
  {
    hide SlabInv, ConnAt, Counting, Locking, PeersInv, Counters;
    assert At(cfg, s.slab, s.peers, s.queues[i][k], LevelOf(i));
  }

  /** A whole pass of the executor, uninterrupted, is a run of the pipeline. */
  lemma {:induction false} BatchIsARun(cfg: Config, s: Sys, i: nat, ios: seq<Io>)
    requires Inv(cfg, s) && cfg.slabCapacity <= RingQueue.EMPTY_SLOT && i < STAGES && Ready(s, i)
    ensures var t := Moves(cfg, s, BatchSteps(i, ios));
            var b := BatchSpec(cfg, i, RoomOf(cfg, i), View(s, i, 0, 0), ios);
            && Shape(t) && Ready(t, i) && View(t, i, b.closed, b.processed) == b
            && t.totalConns == s.totalConns - b.closed
    decreases |ios|
  {
    hide Inv, SlabInv, Move, ItemSpec, ItemSteps;
    ShapeOf(cfg, s);
    if ios != [] {
      var n := |ios| - 1;
      BatchIsARun(cfg, s, i, ios[..n]);
      var m := Moves(cfg, s, BatchSteps(i, ios[..n]));
      var b := BatchSpec(cfg, i, RoomOf(cfg, i), View(s, i, 0, 0), ios[..n]);
      MovesConcat(cfg, s, BatchSteps(i, ios[..n]), ItemSteps(i, ios[n]));
      if Over(b) {
        NothingToDo(cfg, m, i, ios[n]);
      } else {
        QueuedIdsAreReal(cfg, m, i, 0);
        ItemIsARun(cfg, m, i, ios[n], b.closed, b.processed);
      }
    }
  }

  /** Steps of a thread that has nothing to pop, or has died, do nothing. */
  lemma NothingToDo(cfg: Config, s: Sys, i: nat, io: Io)
    requires Inv(cfg, s) && i < STAGES && Ready(s, i)
    requires s.queues[i] == [] || s.hands[i].Dead?
    ensures Moves(cfg, s, ItemSteps(i, io)) == s
  {
    hide Inv, SlabInv, WorkMove, Moves;
    assert ItemSteps(i, io) == FirstSteps(i, io) + LastSteps(i);
    MovesConcat(cfg, s, FirstSteps(i, io), LastSteps(i));
    var m1, m2 := ThreeMoves(cfg, s, i, io);
    NothingToFinish(cfg, s, i);
  }

  lemma NothingToFinish(cfg: Config, s: Sys, i: nat)
    requires Inv(cfg, s) && i < STAGES && (s.hands[i].Free? || s.hands[i].Dead?)
    ensures Moves(cfg, s, LastSteps(i)) == s
  {
    hide Inv, SlabInv, RemoveConn, Room, Moves;
    var m1, m2, m3 := FourMoves(cfg, s, i);
  }
}
