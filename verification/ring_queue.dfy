/**
  The bounded single-producer single-consumer ring.  The machine below takes every load and store
  of `push`, `pop` and `len` as a step of its own, interleaved in any order over sequentially
  consistent memory; its runs are legal histories of a FIFO of capacity - 1, each call taking
  effect at its last step.  The class runs the same code without interference.
*/
module RingQueue {
  import opened Bytes

  /** `usize::MAX`, the empty-slot mark. */
  const EMPTY_SLOT: nat := 0xFFFF_FFFF_FFFF_FFFF

  // ---- the machine ------------------------------------------------------------------------------

  /** Where the producer is inside `push`, with its local variables. */
  datatype Producer =
    | PIdle
    | PLoadedTail(id: nat, tail: nat)
    | PSawRoom(id: nat, tail: nat, nextTail: nat)
    | PStoredSlot(id: nat, tail: nat, nextTail: nat)

  /** Where the consumer is inside `pop`. */
  datatype Consumer =
    | CIdle
    | CLoadedHead(head: nat)
    | CSawItem(head: nat)
    | CLoadedSlot(head: nat, value: nat)

  /** The shared words, both threads, and the values whose index stores have happened. */
  datatype Ring = Ring(
    buffer: seq<nat>,
    capacity: nat,
    head: nat,
    tail: nat,
    producer: Producer,
    consumer: Consumer,
    pushed: seq<nat>,
    popped: seq<nat>)

  function NewRing(capacity: nat): Ring
  {
    Ring(seq(capacity, _ => EMPTY_SLOT), capacity, 0, 0, PIdle, CIdle, [], [])
  }

  datatype Step = BeginPush(id: nat) | ProducerStep | BeginPop | ConsumerStep

  /** What a call returns, at the step at which it returns.  `PoppedMark` is the last branch of
      `pop`: it took a value, but the value was the empty-slot mark and the caller sees None. */
  datatype Return =
    | Pushed(id: nat)
    | PushedFull(id: nat)
    | Popped(id: nat)
    | PoppedNone
    | PoppedMark

  datatype Effect = Effect(ring: Ring, returned: Option<Return>)

  predicate Sound(r: Ring)
  {
    && r.capacity >= 1 && |r.buffer| == r.capacity
    && r.head < r.capacity && r.tail < r.capacity
    && (match r.producer
        case PIdle => true
        case PLoadedTail(_, t) => t < r.capacity
        case PSawRoom(_, t, n) => t < r.capacity && n < r.capacity
        case PStoredSlot(_, t, n) => t < r.capacity && n < r.capacity)
    && (match r.consumer
        case CIdle => true
        case CLoadedHead(h) => h < r.capacity
        case CSawItem(h) => h < r.capacity
        case CLoadedSlot(h, _) => h < r.capacity)
  }

  function Next(i: nat, capacity: nat): (n: nat)
    requires i < capacity
    ensures n < capacity
  {
    (i + 1) % capacity
  }

  function ProducerMove(r: Ring): Effect
    requires Sound(r)
  {
    match r.producer
    case PIdle => Effect(r, None)
    case PLoadedTail(id, tail) =>
      var nextTail := Next(tail, r.capacity);
      if nextTail == r.head then Effect(r.(producer := PIdle), Some(PushedFull(id)))
      else Effect(r.(producer := PSawRoom(id, tail, nextTail)), None)
    case PSawRoom(id, tail, nextTail) =>
      Effect(r.(buffer := r.buffer[tail := id], producer := PStoredSlot(id, tail, nextTail)), None)
    case PStoredSlot(id, _, nextTail) =>
      Effect(r.(tail := nextTail, producer := PIdle, pushed := r.pushed + [id]), Some(Pushed(id)))
  }

  function ConsumerMove(r: Ring): Effect
    requires Sound(r)
  {
    match r.consumer
    case CIdle => Effect(r, None)
    case CLoadedHead(head) =>
      if head == r.tail then Effect(r.(consumer := CIdle), Some(PoppedNone))
      else Effect(r.(consumer := CSawItem(head)), None)
    case CSawItem(head) => Effect(r.(consumer := CLoadedSlot(head, r.buffer[head])), None)
    case CLoadedSlot(head, value) =>
      Effect(r.(head := Next(head, r.capacity), consumer := CIdle, popped := r.popped + [value]),
             Some(if value == EMPTY_SLOT then PoppedMark else Popped(value)))
  }

  /** One atomic step; a thread that is busy does not begin another call. */
  function Move(r: Ring, s: Step): Effect
    requires Sound(r)
  {
    match s
    case BeginPush(id) => Effect(if r.producer.PIdle? then r.(producer := PLoadedTail(id, r.tail)) else r, None)
    case ProducerStep => ProducerMove(r)
    case BeginPop => Effect(if r.consumer.CIdle? then r.(consumer := CLoadedHead(r.head)) else r, None)
    case ConsumerStep => ConsumerMove(r)
  }

  // ---- the FIFO it implements -----------------------------------------------------------------------

  /** A bounded FIFO that keeps one slot free: which returns are legal, and what they leave. */
  function Fifo(q: seq<nat>, capacity: nat, op: Return): Option<seq<nat>>
  {
    match op
    case Pushed(id) => if |q| + 1 < capacity then Some(q + [id]) else None
    case PushedFull(_) => if |q| + 1 == capacity then Some(q) else None
    case Popped(id) => if q != [] && q[0] == id then Some(q[1..]) else None
    case PoppedNone => if q == [] then Some(q) else None
    case PoppedMark => if q != [] && q[0] == EMPTY_SLOT then Some(q[1..]) else None
  }

  /** The queue after a whole history, or None if some return was not legal. */
  function Replay(capacity: nat, history: seq<Return>): Option<seq<nat>>
    decreases |history|
  {
    if history == [] then Some([])
    else
      match Replay(capacity, history[..|history| - 1])
      case None => None
      case Some(q) => Fifo(q, capacity, history[|history| - 1])
  }

  // ---- index arithmetic -------------------------------------------------------------------------------

  /** The slot of the n-th value ever pushed: n modulo the capacity. */
  function Slot(n: nat, capacity: nat): (i: nat)
    requires capacity >= 1
    ensures i < capacity
  {
    if n == 0 then 0 else (var p := Slot(n - 1, capacity); if p + 1 == capacity then 0 else p + 1)
  }

  lemma SlotNext(n: nat, capacity: nat)
    requires capacity >= 1
    ensures Next(Slot(n, capacity), capacity) == Slot(n + 1, capacity)
  {
  }

  lemma {:induction false} SlotAdd(n: nat, d: nat, capacity: nat)
    requires capacity >= 1 && d <= capacity
    ensures var i := Slot(n, capacity);
            Slot(n + d, capacity) == if i + d < capacity then i + d else i + d - capacity
    decreases d
  {
    if d > 0 {
      SlotAdd(n, d - 1, capacity);
    }
  }

  /** Values fewer than a capacity apart have different slots; a capacity apart, the same. */
  lemma SlotsDiffer(a: nat, b: nat, capacity: nat)
    requires capacity >= 1 && a <= b <= a + capacity
    ensures Slot(a, capacity) == Slot(b, capacity) <==> a == b || b == a + capacity
  {
    SlotAdd(a, b - a, capacity);
  }

  // ---- the invariant ------------------------------------------------------------------------------------

  function Queue(r: Ring): seq<nat>
    requires |r.popped| <= |r.pushed|
  {
    r.pushed[|r.popped|..]
  }

  predicate ProducerInv(r: Ring)
    requires Sound(r)
  {
    var used := |r.pushed| - |r.popped|;
    match r.producer
    case PIdle => true
    case PLoadedTail(_, t) => t == r.tail
    case PSawRoom(_, t, n) => t == r.tail && n == Slot(|r.pushed| + 1, r.capacity) && used + 1 < r.capacity
    case PStoredSlot(id, t, n) =>
      t == r.tail && n == Slot(|r.pushed| + 1, r.capacity) && used + 1 < r.capacity && r.buffer[t] == id
  }

  predicate ConsumerInv(r: Ring)
    requires Sound(r)
  {
    match r.consumer
    case CIdle => true
    case CLoadedHead(h) => h == r.head
    case CSawItem(h) => h == r.head && |r.popped| < |r.pushed|
    case CLoadedSlot(h, v) => h == r.head && |r.popped| < |r.pushed| && v == r.pushed[|r.popped|]
  }

  /** Pops are a prefix of pushes, the indices count them, and every unread value is in its slot. */
  predicate Inv(r: Ring)
  {
    && Sound(r)
    && r.popped <= r.pushed
    && |r.pushed| - |r.popped| < r.capacity
    && r.head == Slot(|r.popped|, r.capacity) && r.tail == Slot(|r.pushed|, r.capacity)
    && (forall i :: |r.popped| <= i < |r.pushed| ==> r.buffer[Slot(i, r.capacity)] == r.pushed[i])
    && ProducerInv(r) && ConsumerInv(r)
  }

  lemma ProducerKeepsInv(r: Ring)
    requires Inv(r)
    ensures var e := ProducerMove(r);
            && Inv(e.ring) && e.ring.capacity == r.capacity
            && (e.returned.None? ==> Queue(e.ring) == Queue(r))
            && (e.returned.Some? ==> Fifo(Queue(r), r.capacity, e.returned.value) == Some(Queue(e.ring)))
  {
    hide Slot, Next;
    var e := ProducerMove(r);
    match r.producer
    case PIdle =>
    case PLoadedTail(id, tail) =>
      SlotNext(|r.pushed|, r.capacity);
      SlotsDiffer(|r.popped|, |r.pushed| + 1, r.capacity);
    case PSawRoom(id, tail, nextTail) =>
      forall i | |r.popped| <= i < |r.pushed|
        ensures e.ring.buffer[Slot(i, r.capacity)] == r.pushed[i]
      {
        SlotsDiffer(i, |r.pushed|, r.capacity);
      }
    case PStoredSlot(id, tail, nextTail) =>
      assert Queue(e.ring) == Queue(r) + [id];
  }

  lemma ConsumerKeepsInv(r: Ring)
    requires Inv(r)
    ensures var e := ConsumerMove(r);
            && Inv(e.ring) && e.ring.capacity == r.capacity
            && (e.returned.None? ==> Queue(e.ring) == Queue(r))
            && (e.returned.Some? ==> Fifo(Queue(r), r.capacity, e.returned.value) == Some(Queue(e.ring)))
  {
    hide Slot, Next;
    var e := ConsumerMove(r);
    match r.consumer
    case CIdle =>
    case CLoadedHead(head) =>
      SlotsDiffer(|r.popped|, |r.pushed|, r.capacity);
    case CSawItem(head) =>
    case CLoadedSlot(head, value) =>
      SlotNext(|r.popped|, r.capacity);
      assert Queue(r)[0] == value && Queue(r)[1..] == Queue(e.ring);
  }

  /** Every atomic step keeps the invariant, and is either invisible or the return of a call whose
      result is what the FIFO would give at that very moment. */
  lemma MoveRefinesFifo(r: Ring, s: Step)
    requires Inv(r)
    ensures var e := Move(r, s);
            && Inv(e.ring) && e.ring.capacity == r.capacity
            && (e.returned.None? ==> Queue(e.ring) == Queue(r))
            && (e.returned.Some? ==> Fifo(Queue(r), r.capacity, e.returned.value) == Some(Queue(e.ring)))
  {
    hide Inv, Slot, ProducerMove, ConsumerMove;
    match s
    case ProducerStep => ProducerKeepsInv(r);
    case ConsumerStep => ConsumerKeepsInv(r);
    case _ => BeginKeepsInv(r, s);
  }

  lemma BeginKeepsInv(r: Ring, s: Step)
    requires Inv(r) && (s.BeginPush? || s.BeginPop?)
    ensures var e := Move(r, s);
            Inv(e.ring) && e.ring.capacity == r.capacity && e.returned.None? && Queue(e.ring) == Queue(r)
  {
    hide Slot;
  }

  /** A run of steps: the final ring and what the calls returned, in order. */
  datatype Execution = Execution(ring: Ring, history: seq<Return>)

  function Execute(capacity: nat, steps: seq<Step>): (x: Execution)
    requires capacity >= 1
    ensures Inv(x.ring) && x.ring.capacity == capacity
    ensures Replay(capacity, x.history) == Some(Queue(x.ring))
    decreases |steps|
  {
    if steps == [] then
      Execution(NewRing(capacity), [])
    else
      var x := Execute(capacity, steps[..|steps| - 1]);
      var e := Move(x.ring, steps[|steps| - 1]);
      MoveRefinesFifo(x.ring, steps[|steps| - 1]);
      if e.returned.None? then Execution(e.ring, x.history)
      else
        assert (x.history + [e.returned.value])[..|x.history|] == x.history;
        Execution(e.ring, x.history + [e.returned.value])
  }

  /** The ids of the successful pushes, and the values taken by pops, the mark included. */
  function PushedIds(history: seq<Return>): seq<nat>
    decreases |history|
  {
    if history == [] then []
    else PushedIds(history[..|history| - 1]) +
         if history[|history| - 1].Pushed? then [history[|history| - 1].id] else []
  }

  function TakenIds(history: seq<Return>): seq<nat>
    decreases |history|
  {
    if history == [] then []
    else
      TakenIds(history[..|history| - 1]) +
      match history[|history| - 1]
      case Popped(id) => [id]
      case PoppedMark => [EMPTY_SLOT]
      case _ => []
  }

  lemma {:induction false} ReplayCounts(capacity: nat, history: seq<Return>)
    requires capacity >= 1 && Replay(capacity, history).Some?
    ensures PushedIds(history) == TakenIds(history) + Replay(capacity, history).value
    ensures |Replay(capacity, history).value| < capacity
    decreases |history|
  {
    if history != [] {
      var before := history[..|history| - 1];
      ReplayCounts(capacity, before);
      var q := Replay(capacity, before).value;
      match history[|history| - 1]
      case Pushed(id) =>
        assert TakenIds(before) + q + [id] == TakenIds(before) + (q + [id]);
      case Popped(id) =>
        assert TakenIds(before) + q == TakenIds(before) + [id] + q[1..];
      case PoppedMark =>
        assert TakenIds(before) + q == TakenIds(before) + [EMPTY_SLOT] + q[1..];
      case _ =>
    }
  }

  /** For one producer and one consumer, every interleaving of loads and stores is a legal history
      of the FIFO, so the values taken are a prefix of the successfully pushed ids, in order and
      without loss or duplication, and never more than capacity - 1 are waiting. */
  lemma RunsAreFifo(capacity: nat, steps: seq<Step>)
    requires capacity >= 1
    ensures var x := Execute(capacity, steps);
            && Replay(capacity, x.history) == Some(Queue(x.ring))
            && PushedIds(x.history) == TakenIds(x.history) + Queue(x.ring)
            && |Queue(x.ring)| < capacity
  {
    ReplayCounts(capacity, Execute(capacity, steps).history);
  }

  /** A full push saw a full queue and an empty pop an empty one at the moment it loaded the other
      side's index; the branch for the empty-slot mark is taken exactly when the value at the
      front is that mark. */
  lemma FailuresAreHonest(r: Ring, s: Step)
    requires Inv(r)
    ensures var e := Move(r, s);
            && (e.returned.Some? && e.returned.value.PushedFull? ==> |Queue(r)| == r.capacity - 1)
            && (e.returned == Some(PoppedNone) ==> Queue(r) == [] && r.consumer.CLoadedHead?)
            && (e.returned == Some(PoppedMark) <==>
                  s.ConsumerStep? && r.consumer.CLoadedSlot? && Queue(r)[0] == EMPTY_SLOT)
  {
    hide Slot;
    MoveRefinesFifo(r, s);
  }

  predicate RealIds(ids: seq<nat>) { forall i :: 0 <= i < |ids| ==> ids[i] != EMPTY_SLOT }

  predicate RealSteps(steps: seq<Step>)
  {
    forall i :: 0 <= i < |steps| && steps[i].BeginPush? ==> steps[i].id != EMPTY_SLOT
  }

  predicate RealRing(r: Ring)
  {
    RealIds(r.pushed) && (!r.producer.PIdle? ==> r.producer.id != EMPTY_SLOT)
  }

  lemma RealStays(r: Ring, s: Step)
    requires Inv(r) && RealRing(r) && (s.BeginPush? ==> s.id != EMPTY_SLOT)
    ensures RealRing(Move(r, s).ring) && Move(r, s).returned != Some(PoppedMark)
  {
    hide Slot, Next;
    FailuresAreHonest(r, s);
  }

  /** As long as no one pushes `usize::MAX` itself, the last branch of `pop` is never taken. */
  lemma {:induction false} RealIdsAreNeverLost(capacity: nat, steps: seq<Step>)
    requires capacity >= 1 && RealSteps(steps)
    ensures RealRing(Execute(capacity, steps).ring)
    ensures PoppedMark !in Execute(capacity, steps).history
    decreases |steps|
  {
    hide Inv, Move;
    if steps != [] {
      var before := steps[..|steps| - 1];
      RealIdsAreNeverLost(capacity, before);
      RealStays(Execute(capacity, before).ring, steps[|steps| - 1]);
    }
  }

  /** No step overwrites a slot whose value has not been popped. */
  lemma UnreadSlotsKept(r: Ring, s: Step, i: nat)
    requires Inv(r) && |r.popped| <= i < |r.pushed|
    ensures Move(r, s).ring.buffer[Slot(i, r.capacity)] == r.buffer[Slot(i, r.capacity)] == r.pushed[i]
  {
    if s.ProducerStep? && r.producer.PSawRoom? {
      SlotsDiffer(i, |r.pushed|, r.capacity);
    }
  }

  // ---- len ---------------------------------------------------------------------------------------------

  /** `len` from its two loads. */
  function Len(capacity: nat, head: nat, tail: nat): nat
    requires head < capacity
  {
    if tail >= head then tail - head else capacity - head + tail
  }

  lemma {:induction false} LenOfSlots(capacity: nat, early: nat, late: nat)
    requires capacity >= 1 && early <= late
    ensures Len(capacity, Slot(early, capacity), Slot(late, capacity)) < capacity
    ensures exists wraps: nat ::
              Len(capacity, Slot(early, capacity), Slot(late, capacity)) == late - early - wraps * capacity
    ensures Len(capacity, Slot(early, capacity), Slot(late, capacity)) == late - early <==> late - early < capacity
    decreases late
  {
    if late - early < capacity {
      SlotAdd(early, late - early, capacity);
      assert Len(capacity, Slot(early, capacity), Slot(late, capacity)) == late - early - 0 * capacity;
    } else {
      SlotsDiffer(late - capacity, late, capacity);
      LenOfSlots(capacity, early, late - capacity);
      var w: nat :| Len(capacity, Slot(early, capacity), Slot(late - capacity, capacity))
                    == late - capacity - early - w * capacity;
      assert (w + 1) * capacity == w * capacity + capacity;
      assert Len(capacity, Slot(early, capacity), Slot(late, capacity)) == late - early - (w + 1) * capacity;
    }
  }

  lemma StepOnlyAdds(r: Ring, s: Step)
    requires Inv(r)
    ensures r.pushed <= Move(r, s).ring.pushed && r.popped <= Move(r, s).ring.popped
  {
    hide Slot;
  }

  lemma {:induction false} RunOnlyAdds(capacity: nat, steps: seq<Step>, n: nat)
    requires capacity >= 1 && n <= |steps|
    ensures Execute(capacity, steps[..n]).ring.pushed <= Execute(capacity, steps).ring.pushed
    ensures Execute(capacity, steps[..n]).ring.popped <= Execute(capacity, steps).ring.popped
    decreases |steps|
  {
    hide Inv, Move;
    if n == |steps| {
      assert steps[..n] == steps;
    } else {
      var before := steps[..|steps| - 1];
      assert before[..n] == steps[..n];
      RunOnlyAdds(capacity, before, n);
      StepOnlyAdds(Execute(capacity, before).ring, steps[|steps| - 1]);
    }
  }

  /** `len` in a run: it loads head after the first n steps and tail after all of them, both sides
      running in between.  It reports the ids that were pushed by the second load and not popped by
      the first, short by whole capacities: the very number if and only if that is below the
      capacity, and the waiting ids if nothing ran in between. */
  lemma LenDuringRun(capacity: nat, steps: seq<Step>, n: nat)
    requires capacity >= 1 && n <= |steps|
    ensures var early, late := Execute(capacity, steps[..n]).ring, Execute(capacity, steps).ring;
            var reported := Len(capacity, early.head, late.tail);
            var between := |late.pushed| - |early.popped|;
            && |early.popped| <= |late.pushed| && reported < capacity
            && (exists wraps: nat :: reported == between - wraps * capacity)
            && (reported == between <==> between < capacity)
            && (n == |steps| ==> reported == |Queue(late)|)
  {
    hide Slot, Move, Len;
    RunOnlyAdds(capacity, steps, n);
    var early, late := Execute(capacity, steps[..n]).ring, Execute(capacity, steps).ring;
    hide Execute;
    LenOfSlots(capacity, |early.popped|, |late.pushed|);
    if n == |steps| {
      assert steps[..n] == steps;
      LenWhenQuiet(late);
    }
  }

  /** Without interference `len` is the number of waiting values. */
  lemma LenWhenQuiet(r: Ring)
    requires Inv(r)
    ensures Len(r.capacity, r.head, r.tail) == |Queue(r)|
  {
    hide Slot;
    SlotAdd(|r.popped|, |r.pushed| - |r.popped|, r.capacity);
  }

  // ---- whole calls -------------------------------------------------------------------------------------

  /** A push that nothing interrupts: four of the machine's steps in a row. */
  lemma WholePush(r: Ring, id: nat) returns (r': Ring)
    requires Inv(r) && r.producer.PIdle?
    ensures Sound(r) && |r.popped| <= |r.pushed| && Inv(r')
    ensures Next(r.tail, r.capacity) == r.head <==> |Queue(r)| + 1 == r.capacity
    ensures Next(r.tail, r.capacity) == r.head ==> r' == r
    ensures Next(r.tail, r.capacity) != r.head ==>
              && r' == r.(buffer := r.buffer[r.tail := id], tail := Next(r.tail, r.capacity), pushed := r.pushed + [id])
              && |Queue(r)| + 1 < r.capacity && Queue(r') == Queue(r) + [id]
  {
    hide Slot, Next, ProducerInv, ConsumerInv;
    var r1 := Move(r, BeginPush(id)).ring;
    MoveRefinesFifo(r, BeginPush(id));
    MoveRefinesFifo(r1, ProducerStep);
    var r2 := Move(r1, ProducerStep).ring;
    if r2.producer.PIdle? {
      return r2;
    }
    MoveRefinesFifo(r2, ProducerStep);
    var r3 := Move(r2, ProducerStep).ring;
    MoveRefinesFifo(r3, ProducerStep);
    r' := Move(r3, ProducerStep).ring;
  }

  /** A pop that nothing interrupts. */
  lemma WholePop(r: Ring) returns (r': Ring)
    requires Inv(r) && r.consumer.CIdle?
    ensures Sound(r) && |r.popped| <= |r.pushed| && Inv(r')
    ensures r.head == r.tail <==> Queue(r) == []
    ensures r.head == r.tail ==> r' == r
    ensures r.head != r.tail ==>
              && r' == r.(head := Next(r.head, r.capacity), popped := r.popped + [r.buffer[r.head]])
              && Queue(r)[0] == r.buffer[r.head] && Queue(r') == Queue(r)[1..]
  {
    hide Slot, Next, ProducerInv;
    var r1 := Move(r, BeginPop).ring;
    MoveRefinesFifo(r, BeginPop);
    MoveRefinesFifo(r1, ConsumerStep);
    var r2 := Move(r1, ConsumerStep).ring;
    if r2.consumer.CIdle? {
      return r2;
    }
    MoveRefinesFifo(r2, ConsumerStep);
    var r3 := Move(r2, ConsumerStep).ring;
    MoveRefinesFifo(r3, ConsumerStep);
    r' := Move(r3, ConsumerStep).ring;
  }

  // ---- the class ---------------------------------------------------------------------------------------

  /** The ring with its methods run one after another: each is the machine's steps in a row. */
  class SpscRing {
    const capacity: nat
    const buffer: array<nat>
    var head: nat
    var tail: nat
    ghost var pushed: seq<nat>
    ghost var popped: seq<nat>

    ghost function State(): Ring
      reads this, buffer
    {
      Ring(buffer[..], capacity, head, tail, PIdle, CIdle, pushed, popped)
    }

    ghost predicate Valid()
      reads this, buffer
    {
      Inv(State())
    }

    ghost function Contents(): seq<nat>
      requires Valid()
      reads this, buffer
    {
      Queue(State())
    }

    constructor (capacity: nat)
      requires capacity >= 1
      ensures Valid() && fresh(buffer) && this.capacity == capacity && Contents() == []
    {
      this.capacity := capacity;
      buffer := new nat[capacity](_ => EMPTY_SLOT);
      head, tail := 0, 0;
      pushed, popped := [], [];
    }

    method Push(id: nat) returns (ok: bool)
      requires Valid()
      modifies this, buffer
      ensures Valid()
      ensures ok <==> |old(Contents())| + 1 < capacity
      ensures Contents() == if ok then old(Contents()) + [id] else old(Contents())
    {
      hide Slot, Next, Inv, Queue;
      ghost var r := WholePush(State(), id);
      var t := tail;
      var nextTail := Next(t, capacity);
      if nextTail == head {
        return false;
      }
      buffer[t] := id;
      tail := nextTail;
      pushed := pushed + [id];
      assert State() == r;
      return true;
    }

    method Pop() returns (r: Option<nat>)
      requires Valid()
      modifies this
      ensures Valid()
      ensures r.Some? <==> old(Contents()) != [] && old(Contents())[0] != EMPTY_SLOT
      ensures r.Some? ==> r.value == old(Contents())[0]
      ensures Contents() == if old(Contents()) == [] then [] else old(Contents())[1..]
    {
      hide Slot, Next, Inv, Queue;
      ghost var after := WholePop(State());
      var h := head;
      if h == tail {
        return None;
      }
      var value := buffer[h];
      head := Next(h, capacity);
      popped := popped + [value];
      assert State() == after;
      if value == EMPTY_SLOT {
        return None;
      }
      return Some(value);
    }

    method Length() returns (n: nat)
      requires Valid()
      ensures n == |Contents()|
    {
      LenWhenQuiet(State());
      n := Len(capacity, head, tail);
    }
  }
}
