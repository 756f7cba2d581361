/**
  The executor of a stage thread: its inner loop, which pops an id, runs the stage on the locked
  slab and pushes the id on, up to a hundred times.
*/
module Executor {
  import opened Bytes
  import opened ConnSlab
  import opened Stages
  import RingQueue

  /** What one pass works on; `closed` counts the connections it closed, `marked` says that it met
      the empty-slot mark in its queue. */
  datatype Batch = Batch(
    slab: Slab,
    input: seq<nat>,
    output: seq<nat>,
    closed: nat,
    processed: nat,
    panicked: bool,
    marked: bool)

  /** `room` is the capacity of the output queue, None for the last stage. */
  function Accepts(room: Option<nat>, output: seq<nat>): bool
  {
    room.Some? && |output| + 1 < room.value
  }

  /** One item: the id leaves the input, `process_one` runs, and what it hands on enters the
      output if there is room. */
  function ItemSpec(cfg: Config, stage: nat, room: Option<nat>, b: Batch, io: Io): Batch
    requires b.input != []
  {
    var e := ProcessId(cfg, stage, b.input[0], b.slab, io);
    Batch(e.slab, b.input[1..],
          if e.next.Some? && Accepts(room, b.output) then b.output + [e.next.value] else b.output,
          b.closed + (if e.closed then 1 else 0), b.processed + 1, e.aborted, false)
  }

  /** The next pop: an item, or the mark, which is taken and looks like an empty queue. */
  function NextSpec(cfg: Config, stage: nat, room: Option<nat>, b: Batch, io: Io): Batch
    requires b.input != []
  {
    if b.input[0] == RingQueue.EMPTY_SLOT then b.(input := b.input[1..], marked := true)
    else ItemSpec(cfg, stage, room, b, io)
  }

  predicate Over(b: Batch) { b.input == [] || b.panicked || b.marked }

  /** Items until the input is or looks empty, the thread panics, or the socket events are used up. */
  function BatchSpec(cfg: Config, stage: nat, room: Option<nat>, b: Batch, ios: seq<Io>): Batch
    decreases |ios|
  {
    if ios == [] then b
    else
      var p := BatchSpec(cfg, stage, room, b, ios[..|ios| - 1]);
      if Over(p) then p else NextSpec(cfg, stage, room, p, ios[|ios| - 1])
  }

  lemma {:induction false} OverStays(cfg: Config, stage: nat, room: Option<nat>, b: Batch, ios: seq<Io>, n: nat)
    requires n <= |ios| && Over(BatchSpec(cfg, stage, room, b, ios[..n]))
    ensures BatchSpec(cfg, stage, room, b, ios) == BatchSpec(cfg, stage, room, b, ios[..n])
    decreases |ios|
  {
    if n == |ios| {
      assert ios[..n] == ios;
    } else {
      assert ios[..|ios| - 1][..n] == ios[..n];
      OverStays(cfg, stage, room, b, ios[..|ios| - 1], n);
    }
  }

  // ---- the threads ---------------------------------------------------------------------------------------

  method EncodeStage(id: nat) returns (next: Option<nat>)
    ensures next == Some(id)
  {
    return Some(id);
  }

  /** `process_one` of the stage this executor runs. */
  method ProcessNext(cfg: Config, stage: nat, id: nat, slab: ConnTable, io: Io, metrics: Counter)
    returns (next: Option<nat>, panicked: bool)
    requires slab.Valid() && stage <= NET_OUT
    modifies slab, metrics
    ensures slab.Valid()
    ensures var e := ProcessId(cfg, stage, id, old(slab.Abstract()), io);
            && slab.Abstract() == e.slab && next == e.next && panicked == e.aborted
            && metrics.totalConns == old(metrics.totalConns) - if e.closed then 1 else 0
  {
    hide SlabInv, RemoveConn, PutConn, ParseOne, RouteOne, AppOne, NetOutOne;
    panicked := false;
    if stage == PARSE {
      next, panicked := ParseStage(cfg, id, slab, io);
      assert !ProcessId(cfg, stage, id, old(slab.Abstract()), io).closed;
    } else if stage == ROUTE {
      next := RouteStage(cfg, id, slab, io);
      assert !ProcessId(cfg, stage, id, old(slab.Abstract()), io).closed;
    } else if stage == APP {
      next := AppStage(cfg, id, slab, io);
      assert !ProcessId(cfg, stage, id, old(slab.Abstract()), io).closed;
    } else if stage == ENCODE {
      next := EncodeStage(id);
    } else {
      next := NetOutStage(cfg, id, slab, io, metrics);
    }
  }

  /** The last stage has no output queue: `hasOutput` is false and `output` is never touched. */
  class StageExecutor {
    const cfg: Config
    const stage: nat
    const input: RingQueue.SpscRing
    const output: RingQueue.SpscRing
    const hasOutput: bool
    const slab: ConnTable
    const metrics: Counter

    ghost predicate Valid()
      reads input, input.buffer, output, output.buffer, slab
    {
      && stage <= NET_OUT && input.Valid() && output.Valid() && slab.Valid()
      && input != output && input.buffer != output.buffer
    }

    constructor (cfg: Config, stage: nat, input: RingQueue.SpscRing, output: RingQueue.SpscRing, hasOutput: bool,
                 slab: ConnTable, metrics: Counter)
      requires stage <= NET_OUT && input.Valid() && output.Valid() && slab.Valid()
      requires input != output && input.buffer != output.buffer
      ensures Valid() && this.slab == slab && this.input == input && this.output == output
      ensures this.cfg == cfg && this.stage == stage && this.hasOutput == hasOutput && this.metrics == metrics
    {
      this.cfg := cfg;
      this.stage := stage;
      this.input := input;
      this.output := output;
      this.hasOutput := hasOutput;
      this.slab := slab;
      this.metrics := metrics;
    }

    function Room(): Option<nat> { if hasOutput then Some(output.capacity) else None }

    ghost function State(closed: nat, processed: nat, panicked: bool, marked: bool): Batch
      requires Valid()
      reads input, input.buffer, output, output.buffer, slab
    {
      Batch(slab.Abstract(), input.Contents(), output.Contents(), closed, processed, panicked, marked)
    }

    /** The stage's work on one id, and the push of what it hands on. */
    method RunItem(id: nat, io: Io) returns (panicked: bool)
      requires Valid()
      modifies output, output.buffer, slab, metrics
      ensures Valid() && input.Contents() == old(input.Contents())
      ensures var e := ProcessId(cfg, stage, id, old(slab.Abstract()), io);
              && slab.Abstract() == e.slab && panicked == e.aborted
              && output.Contents() == (if e.next.Some? && Accepts(Room(), old(output.Contents()))
                                       then old(output.Contents()) + [e.next.value] else old(output.Contents()))
              && metrics.totalConns == old(metrics.totalConns) - if e.closed then 1 else 0
    {
      var next;
      next, panicked := ProcessNext(cfg, stage, id, slab, io, metrics);
      if next.Some? && hasOutput {
        var ok := output.Push(next.value);
      }
    }

    /** The loop's body; `closed` and `processed` are the counts so far. */
    method RunNext(io: Io, ghost closed: nat, ghost processed: nat) returns (found: bool, panicked: bool)
      requires Valid()
      modifies input, output, output.buffer, slab, metrics
      ensures Valid()
      ensures old(input.Contents()) == [] ==>
                && State(closed, processed, false, false) == old(State(closed, processed, false, false))
                && !found && !panicked && metrics.totalConns == old(metrics.totalConns)
      ensures old(input.Contents()) != [] ==>
                var b := NextSpec(cfg, stage, Room(), old(State(closed, processed, false, false)), io);
                && State(b.closed, b.processed, panicked, b.marked) == b && found == !b.marked
                && metrics.totalConns == old(metrics.totalConns) - (b.closed - closed)
    {
      hide SlabInv, ProcessId, RingQueue.Inv, RingQueue.Queue;
      var popped := input.Pop();
      if popped.None? {
        return false, false;
      }
      panicked := RunItem(popped.value, io);
      return true, panicked;
    }

    /** One pass of the loop is exactly `BatchSpec` over the events of up to a hundred items. */
    method RunBatch(ios: seq<Io>) returns (processed: nat, panicked: bool)
      requires Valid() && |ios| == 100
      modifies input, output, output.buffer, slab, metrics
      ensures Valid()
      ensures var b := BatchSpec(cfg, stage, Room(), old(State(0, 0, false, false)), ios);
              && State(b.closed, processed, panicked, b.marked) == b
              && metrics.totalConns == old(metrics.totalConns) - b.closed
    {
      hide Valid, NextSpec;
      processed, panicked := 0, false;
      ghost var start := State(0, 0, false, false);
      ghost var b := start;
      for i := 0 to 100
        invariant Valid() && !panicked
        invariant b == BatchSpec(cfg, stage, Room(), start, ios[..i])
        invariant b == State(b.closed, processed, false, false)
        invariant metrics.totalConns == old(metrics.totalConns) - b.closed
      {
        assert ios[..i + 1][..i] == ios[..i];
        ghost var before := b;
        var found;
        found, panicked := RunNext(ios[i], b.closed, processed);
        if before.input != [] {
          b := NextSpec(cfg, stage, Room(), before, ios[i]);
          ItemCounts(cfg, stage, Room(), before, ios[i]);
        }
        if !found {
          OverStays(cfg, stage, Room(), start, ios, if before.input == [] then i else i + 1);
          return;
        }
        processed := processed + 1;
        if panicked {
          OverStays(cfg, stage, Room(), start, ios, i + 1);
          return;
        }
      }
      assert ios[..100] == ios;
    }
  }

  lemma ItemCounts(cfg: Config, stage: nat, room: Option<nat>, b: Batch, io: Io)
    requires b.input != [] && !b.marked
    ensures var n := NextSpec(cfg, stage, room, b, io);
            n.processed == if n.marked then b.processed else b.processed + 1
  {
  }
}
