/**
  The tuning engine over whole runs: its truncating moving average, its bounded action history
  with rollback, and the built-in policies whose clamps keep every action within the default
  constraints.
*/
module Tuner {
  import opened Bytes

  datatype Action =
    | IncreaseQueueSize(stage: nat, newSize: nat)
    | DecreaseQueueSize(stage: nat, newSize: nat)
    | EnableBatching(stage: nat)
    | AdjustBackpressure(threshold: real)

  datatype Verdict = Applied | Rejected | RolledBack

  datatype LogEntry = LogEntry(action: Action, verdict: Verdict)

  datatype Constraints = Constraints(minQueueSize: nat, maxQueueSize: nat)

  const DEFAULT_CONSTRAINTS: Constraints := Constraints(100, 10_000)

  const MAX_LOG_ENTRIES: nat := 1000

  // ---- the moving average -------------------------------------------------------------------------

  /** Counters of one stage: requests processed and nanoseconds spent. */
  datatype StageCounters = StageCounters(processed: nat, latencySum: nat)

  function StageAverage(s: StageCounters): nat
  {
    if s.processed > 0 then s.latencySum / s.processed else 0
  }

  function AverageTotal(stages: seq<StageCounters>): nat
    decreases |stages|
  {
    if stages == [] then 0 else Wrap64(AverageTotal(stages[..|stages| - 1]) + StageAverage(stages[|stages| - 1]))
  }

  function AverageLatency(stages: seq<StageCounters>): nat
  {
    if |stages| > 0 then AverageTotal(stages) / |stages| else 0
  }

  /** `update_baseline` with u64 arithmetic. */
  function NextBaseline(baseline: nat, average: nat): nat
  {
    if average == 0 then baseline
    else if baseline == 0 then average
    else Wrap64(Wrap64(baseline * 9) + average) / 10
  }

  /** Averages for which the update cannot overflow. */
  const SAFE_AVERAGE: nat := 0x1999_9999_9999_9999

  function Baselines(averages: seq<nat>): nat
    decreases |averages|
  {
    if averages == [] then 0
    else NextBaseline(Baselines(averages[..|averages| - 1]), averages[|averages| - 1])
  }

  lemma SafeUpdate(baseline: nat, average: nat)
    requires 0 < baseline <= SAFE_AVERAGE && 0 < average <= SAFE_AVERAGE
    ensures NextBaseline(baseline, average) == (9 * baseline + average) / 10
  {
  }

  /** For any 64-bit values, the update is the true average exactly when it does not overflow. */
  lemma UpdateExactIff(baseline: nat, average: nat)
    requires 0 < baseline < TWO_64 && 0 < average < TWO_64
    ensures NextBaseline(baseline, average) == (9 * baseline + average) / 10 <==> 9 * baseline + average < TWO_64
  {
    var sum := 9 * baseline + average;
    if sum < TWO_64 {
      assert Wrap64(baseline * 9) == baseline * 9;
    } else {
      assert NextBaseline(baseline, average) <= (TWO_64 - 1) / 10;
      WrapsDown(baseline * 9);
      WrapsDown(Wrap64(baseline * 9) + average);
    }
  }

  lemma WrapsDown(x: nat)
    ensures Wrap64(x) <= x && (x >= TWO_64 ==> Wrap64(x) <= x - TWO_64)
  {
  }

  /** The same average over unbounded numbers. */
  function TrueBaselines(averages: seq<nat>): nat
    decreases |averages|
  {
    if averages == [] then 0
    else
      var b, a := TrueBaselines(averages[..|averages| - 1]), averages[|averages| - 1];
      if a == 0 then b else if b == 0 then a else (9 * b + a) / 10
  }

  /** The truncating average stays between any bounds on the nonzero averages seen, and is 0 only as
      long as none was seen. */
  lemma {:induction false} TrueBaselineWithinAverages(averages: seq<nat>, low: nat, high: nat)
    requires 0 < low <= high
    requires forall i :: 0 <= i < |averages| && averages[i] != 0 ==> low <= averages[i] <= high
    ensures TrueBaselines(averages) == 0 <==> forall i :: 0 <= i < |averages| ==> averages[i] == 0
    ensures TrueBaselines(averages) != 0 ==> low <= TrueBaselines(averages) <= high
    decreases |averages|
  {
    if averages != [] {
      TrueBaselineWithinAverages(averages[..|averages| - 1], low, high);
    }
  }

  /** No update of the run needs more than 64 bits. */
  predicate FitsU64(averages: seq<nat>, k: nat)
    requires k < |averages|
  {
    averages[k] == 0 || 9 * TrueBaselines(averages[..k]) + averages[k] < TWO_64
  }

  predicate NeverOverflows(averages: seq<nat>) { forall k :: 0 <= k < |averages| ==> FitsU64(averages, k) }

  predicate AlwaysTrue(averages: seq<nat>)
  {
    forall k :: 0 <= k <= |averages| ==> Baselines(averages[..k]) == TrueBaselines(averages[..k])
  }

  /** For any 64-bit averages, the baseline is the true one throughout a run if and only if no
      update overflows. */
  lemma {:induction false} BaselineTrueIff(averages: seq<nat>)
    requires forall i :: 0 <= i < |averages| ==> averages[i] < TWO_64
    ensures AlwaysTrue(averages) <==> NeverOverflows(averages)
    decreases |averages|
  {
    hide NextBaseline;
    if averages == [] {
      assert averages[..0] == [];
    } else {
      var n := |averages| - 1;
      var before := averages[..n];
      assert averages[..n + 1] == averages;
      BaselineTrueIff(before);
      forall k | 0 <= k <= n
        ensures before[..k] == averages[..k]
      {
      }
      assert (forall k :: 0 <= k < n ==> FitsU64(before, k) == FitsU64(averages, k));
      if AlwaysTrue(before) {
        LastUpdate(averages);
      }
      assert AlwaysTrue(averages) <==> AlwaysTrue(before) && Baselines(averages) == TrueBaselines(averages) by {
        PrefixesTrue(averages);
      }
      assert NeverOverflows(averages) <==> NeverOverflows(before) && FitsU64(averages, n);
    }
  }

  lemma PrefixesTrue(averages: seq<nat>)
    requires averages != []
    ensures var before := averages[..|averages| - 1];
            AlwaysTrue(averages) <==> AlwaysTrue(before) && Baselines(averages) == TrueBaselines(averages)
  {
    hide Baselines, TrueBaselines;
    var n := |averages| - 1;
    assert averages[..n + 1] == averages;
    assert forall k :: 0 <= k <= n ==> averages[..n][..k] == averages[..k];
  }

  lemma LastUpdate(averages: seq<nat>)
    requires averages != [] && forall i :: 0 <= i < |averages| ==> averages[i] < TWO_64
    requires AlwaysTrue(averages[..|averages| - 1])
    ensures Baselines(averages) == TrueBaselines(averages) <==> FitsU64(averages, |averages| - 1)
  {
    hide NextBaseline;
    var n := |averages| - 1;
    var before := averages[..n];
    assert before[..n] == before;
    assert Baselines(before) == TrueBaselines(before);
    TrueBaselineWithinAverages(before, 1, TWO_64 - 1);
    NextKeeps(Baselines(before), averages[n]);
    if Baselines(before) != 0 && averages[n] != 0 {
      UpdateExactIff(Baselines(before), averages[n]);
    }
  }

  lemma NextKeeps(baseline: nat, average: nat)
    ensures average == 0 ==> NextBaseline(baseline, average) == baseline
    ensures baseline == 0 ==> NextBaseline(baseline, average) == average
  {
  }

  /** The baseline stays between any bounds on the nonzero averages seen, and is 0 only as long as
      none was seen, in any run without overflow. */
  lemma BaselineWithinAverages(averages: seq<nat>, low: nat, high: nat)
    requires 0 < low <= high < TWO_64 && NeverOverflows(averages)
    requires forall i :: 0 <= i < |averages| && averages[i] != 0 ==> low <= averages[i] <= high
    ensures Baselines(averages) == 0 <==> forall i :: 0 <= i < |averages| ==> averages[i] == 0
    ensures Baselines(averages) != 0 ==> low <= Baselines(averages) <= high
  {
    BaselineTrueIff(averages);
    assert averages[..|averages|] == averages;
    TrueBaselineWithinAverages(averages, low, high);
  }

  /** Averages up to 2^64 / 10 - some 58 years in nanoseconds - never overflow. */
  lemma SafeAveragesNeverOverflow(averages: seq<nat>)
    requires forall i :: 0 <= i < |averages| ==> averages[i] <= SAFE_AVERAGE
    ensures NeverOverflows(averages)
  {
    forall k | 0 <= k < |averages|
      ensures FitsU64(averages, k)
    {
      TrueBaselineWithinAverages(averages[..k], 1, SAFE_AVERAGE);
    }
  }

  function Iterate(baseline: nat, average: nat, n: nat): nat
  {
    if n == 0 then baseline else NextBaseline(Iterate(baseline, average, n - 1), average)
  }

  /** One update under average c from above, from below, and where it stands still. */
  lemma UpdateMoves(b: nat, c: nat)
    requires 0 < b <= SAFE_AVERAGE && 0 < c <= SAFE_AVERAGE
    ensures b > c ==> c <= NextBaseline(b, c) < b
    ensures b <= c ==> b <= NextBaseline(b, c) <= c
    ensures NextBaseline(b, c) == b <==> b <= c <= b + 9
  {
    SafeUpdate(b, c);
  }

  /** From above, the baseline falls strictly until it is exactly the average and stays there. */
  lemma {:induction false} FallsToAverage(b: nat, c: nat, n: nat)
    requires 0 < c <= b <= SAFE_AVERAGE
    ensures c <= Iterate(b, c, n) <= b
    ensures Iterate(b, c, n) > c ==> Iterate(b, c, n + 1) < Iterate(b, c, n)
    ensures n >= b - c ==> Iterate(b, c, n) == c
    ensures Iterate(b, c, n) <= c + (if n <= b - c then b - c - n else 0)
  {
    if n > 0 {
      FallsToAverage(b, c, n - 1);
      UpdateMoves(Iterate(b, c, n - 1), c);
    }
    UpdateMoves(Iterate(b, c, n), c);
  }

  /** From below, it rises without crossing the average and comes to rest within 9 of it. */
  lemma {:induction false} RisesNearAverage(b: nat, c: nat, n: nat)
    requires 0 < b <= c <= SAFE_AVERAGE
    ensures b <= Iterate(b, c, n) <= c
    ensures Iterate(b, c, n) + 9 < c ==> Iterate(b, c, n + 1) > Iterate(b, c, n)
    ensures Iterate(b, c, n) + 9 >= c ==> Iterate(b, c, n + 1) == Iterate(b, c, n)
    ensures n >= c - b ==> c - Iterate(b, c, n) <= 9
    ensures c - Iterate(b, c, n) <= 9 || Iterate(b, c, n) >= b + n
  {
    if n > 0 {
      RisesNearAverage(b, c, n - 1);
      UpdateMoves(Iterate(b, c, n - 1), c);
    }
    UpdateMoves(Iterate(b, c, n), c);
  }

  // ---- one processing step ----------------------------------------------------------------------------

  predicate Validate(c: Constraints, a: Action)
  {
    match a
    case IncreaseQueueSize(_, n) => n <= c.maxQueueSize
    case DecreaseQueueSize(_, n) => n >= c.minQueueSize
    case EnableBatching(_) => true
    case AdjustBackpressure(t) => 0.0 <= t <= 1.0
  }

  datatype Engine = Engine(constraints: Constraints, history: seq<LogEntry>, baseline: nat, enabled: bool)

  function LogAction(history: seq<LogEntry>, e: LogEntry): seq<LogEntry>
  {
    (if |history| >= MAX_LOG_ENTRIES then history[1..] else history) + [e]
  }

  function EntryFor(c: Constraints, a: Action): LogEntry
  {
    LogEntry(a, if Validate(c, a) then Applied else Rejected)
  }

  function LogAll(c: Constraints, history: seq<LogEntry>, actions: seq<Action>): seq<LogEntry>
    decreases |actions|
  {
    if actions == [] then history
    else LogAction(LogAll(c, history, actions[..|actions| - 1]), EntryFor(c, actions[|actions| - 1]))
  }

  predicate ShouldRollback(baseline: nat, average: nat)
  {
    baseline != 0 && average > Wrap64(baseline * 3) / 2
  }

  function RollbackLast(history: seq<LogEntry>): seq<LogEntry>
  {
    if history != [] && history[|history| - 1].verdict.Applied? then
      history[|history| - 1 := history[|history| - 1].(verdict := RolledBack)]
    else history
  }

  /** A call of `process` with the actions its policy proposed and the snapshot's average. */
  function ProcessSpec(e: Engine, actions: seq<Action>, average: nat): Engine
  {
    if !e.enabled then e
    else
      var logged := LogAll(e.constraints, e.history, actions);
      e.(history := if ShouldRollback(e.baseline, average) then RollbackLast(logged) else logged,
         baseline := NextBaseline(e.baseline, average))
  }

  function AppliedOf(c: Constraints, actions: seq<Action>): seq<Action>
    decreases |actions|
  {
    if actions == [] then []
    else
      var a := actions[|actions| - 1];
      AppliedOf(c, actions[..|actions| - 1]) + if Validate(c, a) then [a] else []
  }

  // ---- runs ----------------------------------------------------------------------------------------------

  /** The log without its bound: the most recent entries are kept. */
  function Newest(all: seq<LogEntry>): seq<LogEntry>
  {
    if |all| <= MAX_LOG_ENTRIES then all else all[|all| - MAX_LOG_ENTRIES..]
  }

  function Entries(c: Constraints, actions: seq<Action>): (es: seq<LogEntry>)
    ensures |es| == |actions| && forall i :: 0 <= i < |es| ==> es[i] == EntryFor(c, actions[i])
  {
    seq(|actions|, i requires 0 <= i < |actions| => EntryFor(c, actions[i]))
  }

  /** Logging is appending and keeping the newest thousand. */
  lemma {:induction false} LogKeepsNewest(c: Constraints, history: seq<LogEntry>, actions: seq<Action>)
    requires |history| <= MAX_LOG_ENTRIES
    ensures LogAll(c, history, actions) == Newest(history + Entries(c, actions))
    ensures |LogAll(c, history, actions)| <= MAX_LOG_ENTRIES
    decreases |actions|
  {
    if actions == [] {
      assert history + Entries(c, actions) == history;
    } else {
      var before := actions[..|actions| - 1];
      var e := EntryFor(c, actions[|actions| - 1]);
      LogKeepsNewest(c, history, before);
      assert history + Entries(c, actions) == history + Entries(c, before) + [e];
    }
  }

  /** At most the last entry changed, and only from Applied to RolledBack. */
  predicate AtMostOneRollback(before: seq<LogEntry>, after: seq<LogEntry>)
  {
    && |before| == |after|
    && (forall i :: 0 <= i < |before| - 1 ==> after[i] == before[i])
    && (before != [] ==>
          var x, y := before[|before| - 1], after[|after| - 1];
          y == x || (x.verdict.Applied? && y == x.(verdict := RolledBack)))
  }

  /** One call logs its actions in order, keeps the newest thousand entries, and rolls back at most
      the last one; no entry ever leaves RolledBack or Rejected. */
  lemma StepHistory(e: Engine, actions: seq<Action>, average: nat)
    requires |e.history| <= MAX_LOG_ENTRIES && e.enabled
    ensures var e' := ProcessSpec(e, actions, average);
            && |e'.history| <= MAX_LOG_ENTRIES
            && AtMostOneRollback(Newest(e.history + Entries(e.constraints, actions)), e'.history)
            && (e'.history != Newest(e.history + Entries(e.constraints, actions))
                ==> e.baseline != 0 && average > Wrap64(e.baseline * 3) / 2)
  {
    LogKeepsNewest(e.constraints, e.history, actions);
  }

  /** A call of `process`: the actions proposed and the average seen. */
  type Call = (seq<Action>, nat)

  function RunEngine(e: Engine, calls: seq<Call>): Engine
    decreases |calls|
  {
    if calls == [] then e
    else ProcessSpec(RunEngine(e, calls[..|calls| - 1]), calls[|calls| - 1].0, calls[|calls| - 1].1)
  }

  function NewEngine(c: Constraints): Engine { Engine(c, [], 0, true) }

  lemma {:induction false} RunFacts(c: Constraints, calls: seq<Call>)
    ensures var e := RunEngine(NewEngine(c), calls);
            && |e.history| <= 1000 && e.constraints == c && e.enabled
            && e.baseline == Baselines(seq(|calls|, i requires 0 <= i < |calls| => calls[i].1))
    decreases |calls|
  {
    hide NextBaseline, LogAll, ShouldRollback, RollbackLast, Entries, AtMostOneRollback, Newest;
    var averages := seq(|calls|, i requires 0 <= i < |calls| => calls[i].1);
    if calls != [] {
      var before := calls[..|calls| - 1];
      RunFacts(c, before);
      StepHistory(RunEngine(NewEngine(c), before), calls[|calls| - 1].0, calls[|calls| - 1].1);
      assert averages[..|calls| - 1] == seq(|before|, i requires 0 <= i < |before| => before[i].1);
    }
  }

  // ---- the log over whole runs ---------------------------------------------------------------------------

  /** The log if it were never shortened, entry by entry since the start. */
  function FullLog(c: Constraints, calls: seq<Call>): seq<LogEntry>
    decreases |calls|
  {
    if calls == [] then []
    else
      var before, last := calls[..|calls| - 1], calls[|calls| - 1];
      var logged := FullLog(c, before) + Entries(c, last.0);
      if ShouldRollback(RunEngine(NewEngine(c), before).baseline, last.1) then RollbackLast(logged) else logged
  }

  lemma RollbackOfNewest(all: seq<LogEntry>)
    ensures RollbackLast(Newest(all)) == Newest(RollbackLast(all))
  {
  }

  lemma NewestTwice(all: seq<LogEntry>, more: seq<LogEntry>)
    ensures Newest(Newest(all) + more) == Newest(all + more)
  {
  }

  /** The history is the newest thousand entries of the full log. */
  lemma {:induction false} HistoryIsNewest(c: Constraints, calls: seq<Call>)
    ensures RunEngine(NewEngine(c), calls).history == Newest(FullLog(c, calls))
    decreases |calls|
  {
    hide NextBaseline, ShouldRollback, LogAll, Entries, RollbackLast;
    if calls != [] {
      var before, last := calls[..|calls| - 1], calls[|calls| - 1];
      HistoryIsNewest(c, before);
      RunFacts(c, before);
      var e := RunEngine(NewEngine(c), before);
      LogKeepsNewest(c, e.history, last.0);
      NewestTwice(FullLog(c, before), Entries(c, last.0));
      RollbackOfNewest(FullLog(c, before) + Entries(c, last.0));
    }
  }

  /** What may become of an entry: nothing, or the one step from Applied to RolledBack. */
  predicate Later(x: LogEntry, y: LogEntry)
  {
    y == x || (x.verdict.Applied? && y == x.(verdict := RolledBack))
  }

  /** Between any two moments of any run the full log only grows, no entry returns from RolledBack
      or Rejected, and at most one entry per call has changed. */
  lemma {:induction false} NoVerdictReturns(c: Constraints, calls: seq<Call>, n: nat)
    requires n <= |calls|
    ensures var early, late := FullLog(c, calls[..n]), FullLog(c, calls);
            && |early| <= |late| && (forall i :: 0 <= i < |early| ==> Later(early[i], late[i]))
            && RolledBacks(late) <= RolledBacks(early) + (|calls| - n)
    decreases |calls|
  {
    hide RollbackLast, ShouldRollback, Entries, Later;
    if n == |calls| {
      assert calls[..n] == calls;
      EntriesStay(FullLog(c, calls));
    } else {
      var before, last := calls[..|calls| - 1], calls[|calls| - 1];
      assert before[..n] == calls[..n];
      NoVerdictReturns(c, before, n);
      CallChanges(c, FullLog(c, before), last.0, FullLog(c, calls));
      LaterTwice(FullLog(c, calls[..n]), FullLog(c, before), FullLog(c, calls));
    }
  }

  function RolledBacks(log: seq<LogEntry>): nat
    decreases |log|
  {
    if log == [] then 0
    else RolledBacks(log[..|log| - 1]) + if log[|log| - 1].verdict.RolledBack? then 1 else 0
  }

  lemma EntriesStay(log: seq<LogEntry>)
    ensures forall i :: 0 <= i < |log| ==> Later(log[i], log[i])
  {
  }

  lemma {:induction false} NewEntriesNotRolledBack(c: Constraints, log: seq<LogEntry>, actions: seq<Action>)
    ensures RolledBacks(log + Entries(c, actions)) == RolledBacks(log)
    decreases |actions|
  {
    if actions == [] {
      assert log + Entries(c, actions) == log;
    } else {
      var n := |actions| - 1;
      NewEntriesNotRolledBack(c, log, actions[..n]);
      assert (log + Entries(c, actions))[..|log| + n] == log + Entries(c, actions[..n]);
    }
  }

  lemma CallChanges(c: Constraints, log: seq<LogEntry>, actions: seq<Action>, after: seq<LogEntry>)
    requires after == log + Entries(c, actions) || after == RollbackLast(log + Entries(c, actions))
    ensures |after| >= |log| && forall i :: 0 <= i < |log| ==> Later(log[i], after[i])
    ensures RolledBacks(after) <= RolledBacks(log) + 1
  {
    hide Entries;
    NewEntriesNotRolledBack(c, log, actions);
    var logged := log + Entries(c, actions);
    if logged != [] {
      assert RollbackLast(logged)[..|logged| - 1] == logged[..|logged| - 1];
    }
  }

  lemma LaterTwice(a: seq<LogEntry>, b: seq<LogEntry>, d: seq<LogEntry>)
    requires |a| <= |b| <= |d|
    requires forall i :: 0 <= i < |a| ==> Later(a[i], b[i])
    requires forall i :: 0 <= i < |b| ==> Later(b[i], d[i])
    ensures forall i :: 0 <= i < |a| ==> Later(a[i], d[i])
  {
  }

  // ---- the built-in policies -----------------------------------------------------------------------------

  /** What `analyze` reads of a stage: its queue length and the length scaled by the step size,
      an arbitrary number here, being floating point there. */
  datatype QueueReading = QueueReading(stage: nat, queueLen: nat, scaledUp: nat, scaledDown: nat, overflowing: bool)

  function Shrinks(qs: seq<QueueReading>): seq<Action>
  {
    if qs == [] then []
    else (if qs[0].queueLen > 100 then [DecreaseQueueSize(qs[0].stage, Max(qs[0].scaledDown, 100))] else [])
         + Shrinks(qs[1..])
  }

  function Batches(qs: seq<QueueReading>): seq<Action>
  {
    if qs == [] then []
    else (if qs[0].overflowing then [EnableBatching(qs[0].stage)] else []) + Batches(qs[1..])
  }

  function Truncate(actions: seq<Action>, n: nat): seq<Action>
  {
    if |actions| <= n then actions else actions[..n]
  }

  /** `bottleneck` is a stage whose average is above the target; `pressure` and `cooling` are the
      comparisons of floats and clocks. */
  function ConservativeSpec(cooling: bool, bottleneck: Option<QueueReading>, pressure: bool, qs: seq<QueueReading>)
    : seq<Action>
  {
    if cooling then []
    else
      var grow :=
        if bottleneck.Some? && Min(bottleneck.value.scaledUp, 10_000) > bottleneck.value.queueLen
        then [IncreaseQueueSize(bottleneck.value.stage, Min(bottleneck.value.scaledUp, 10_000))] else [];
      Truncate(grow + (if pressure then Shrinks(qs) else []) + Batches(qs), 3)
  }

  function AggressiveSpec(cooling: bool, bottleneck: Option<QueueReading>, pressure: bool, qs: seq<QueueReading>)
    : seq<Action>
  {
    if cooling then []
    else
      var grow :=
        if bottleneck.Some?
        then [IncreaseQueueSize(bottleneck.value.stage, Min(bottleneck.value.scaledUp, 10_000))] else [];
      Truncate(grow + if pressure then Shrinks(qs) else [], 5)
  }

  method ConservativeAnalyze(cooling: bool, bottleneck: Option<QueueReading>, pressure: bool, qs: seq<QueueReading>)
    returns (actions: seq<Action>)
    ensures actions == ConservativeSpec(cooling, bottleneck, pressure, qs)
  {
    if cooling {
      return [];
    }
    actions := [];
    if bottleneck.Some? {
      var newSize := Min(bottleneck.value.scaledUp, 10_000);
      if newSize > bottleneck.value.queueLen {
        actions := actions + [IncreaseQueueSize(bottleneck.value.stage, newSize)];
      }
    }
    if pressure {
      actions := PushShrinks(actions, qs);
    } else {
      assert actions + [] == actions;
    }
    actions := PushBatches(actions, qs);
    actions := Truncate(actions, 3);
  }

  method PushBatches(actions: seq<Action>, qs: seq<QueueReading>) returns (out: seq<Action>)
    ensures out == actions + Batches(qs)
  {
    out := actions;
    for i := 0 to |qs|
      invariant out + Batches(qs[i..]) == actions + Batches(qs)
    {
      assert qs[i..][1..] == qs[i + 1..];
      ghost var rest := Batches(qs[i + 1..]);
      if qs[i].overflowing {
        assert out + ([EnableBatching(qs[i].stage)] + rest) == out + [EnableBatching(qs[i].stage)] + rest;
        out := out + [EnableBatching(qs[i].stage)];
      } else {
        assert [] + rest == rest;
      }
    }
    assert out + [] == out;
  }

  method AggressiveAnalyze(cooling: bool, bottleneck: Option<QueueReading>, pressure: bool, qs: seq<QueueReading>)
    returns (actions: seq<Action>)
    ensures actions == AggressiveSpec(cooling, bottleneck, pressure, qs)
  {
    if cooling {
      return [];
    }
    actions := [];
    if bottleneck.Some? {
      actions := actions + [IncreaseQueueSize(bottleneck.value.stage, Min(bottleneck.value.scaledUp, 10_000))];
    }
    if pressure {
      actions := PushShrinks(actions, qs);
    } else {
      assert actions + [] == actions;
    }
    actions := Truncate(actions, 5);
  }

  /** The shrinking loop the two policies share. */
  method PushShrinks(actions: seq<Action>, qs: seq<QueueReading>) returns (out: seq<Action>)
    ensures out == actions + Shrinks(qs)
  {
    out := actions;
    for i := 0 to |qs|
      invariant out + Shrinks(qs[i..]) == actions + Shrinks(qs)
    {
      assert qs[i..][1..] == qs[i + 1..];
      ghost var rest := Shrinks(qs[i + 1..]);
      if qs[i].queueLen > 100 {
        var a := DecreaseQueueSize(qs[i].stage, Max(qs[i].scaledDown, 100));
        assert out + ([a] + rest) == out + [a] + rest;
        out := out + [a];
      } else {
        assert [] + rest == rest;
      }
    }
  }

  predicate AllValid(c: Constraints, actions: seq<Action>)
  {
    forall i :: 0 <= i < |actions| ==> Validate(c, actions[i])
  }

  lemma {:induction false} ShrinksValid(qs: seq<QueueReading>)
    ensures AllValid(DEFAULT_CONSTRAINTS, Shrinks(qs)) && AllValid(DEFAULT_CONSTRAINTS, Batches(qs))
  {
    if qs != [] {
      ShrinksValid(qs[1..]);
    }
  }

  /** The policies' clamps match the default constraints: whatever the scaling computes, no action
      of either policy is refused. */
  lemma PoliciesNeverRejected(cooling: bool, bottleneck: Option<QueueReading>, pressure: bool, qs: seq<QueueReading>)
    ensures AllValid(DEFAULT_CONSTRAINTS, ConservativeSpec(cooling, bottleneck, pressure, qs))
    ensures AllValid(DEFAULT_CONSTRAINTS, AggressiveSpec(cooling, bottleneck, pressure, qs))
  {
    hide Shrinks, Batches;
    ShrinksValid(qs);
    var shrink := if pressure then Shrinks(qs) else [];
    if bottleneck.Some? {
      var grow := [IncreaseQueueSize(bottleneck.value.stage, Min(bottleneck.value.scaledUp, 10_000))];
      ValidTogether(grow, shrink, []);
      ValidTogether(grow, shrink, Batches(qs));
    }
    ValidTogether([], shrink, []);
    ValidTogether([], shrink, Batches(qs));
  }

  lemma ValidTogether(a: seq<Action>, b: seq<Action>, c: seq<Action>)
    requires AllValid(DEFAULT_CONSTRAINTS, a) && AllValid(DEFAULT_CONSTRAINTS, b) && AllValid(DEFAULT_CONSTRAINTS, c)
    ensures AllValid(DEFAULT_CONSTRAINTS, a + b + c)
    ensures forall n :: AllValid(DEFAULT_CONSTRAINTS, Truncate(a + b + c, n))
    ensures forall n :: Truncate(a + b + [], n) == Truncate(a + b, n)
  {
    hide Validate;
    assert a + b + [] == a + b;
  }

  predicate NoneRejected(history: seq<LogEntry>)
  {
    forall i :: 0 <= i < |history| ==> !history[i].verdict.Rejected?
  }

  /** Over any run of valid actions nothing is ever Rejected. */
  lemma {:induction false} ValidRunsNeverReject(calls: seq<Call>)
    requires forall i :: 0 <= i < |calls| ==> AllValid(DEFAULT_CONSTRAINTS, calls[i].0)
    ensures NoneRejected(RunEngine(NewEngine(DEFAULT_CONSTRAINTS), calls).history)
    decreases |calls|
  {
    hide NextBaseline, LogAll, ShouldRollback, Validate;
    if calls != [] {
      var before := calls[..|calls| - 1];
      ValidRunsNeverReject(before);
      RunFacts(DEFAULT_CONSTRAINTS, before);
      var e := RunEngine(NewEngine(DEFAULT_CONSTRAINTS), before);
      var actions := calls[|calls| - 1].0;
      assert AllValid(DEFAULT_CONSTRAINTS, actions);
      LogKeepsNewest(e.constraints, e.history, actions);
      assert NoneRejected(e.history + Entries(e.constraints, actions));
    }
  }

  /** Some readings on which one of the two policies proposes these actions. */
  ghost predicate Proposed(actions: seq<Action>)
  {
    exists cooling, bottleneck, pressure, qs ::
      || actions == ConservativeSpec(cooling, bottleneck, pressure, qs)
      || actions == AggressiveSpec(cooling, bottleneck, pressure, qs)
  }

  /** Over any run whose calls all came from the built-in policies, whichever of them, whatever
      the readings, nothing is ever Rejected. */
  lemma {:induction false} RunsNeverReject(calls: seq<Call>)
    requires forall i :: 0 <= i < |calls| ==> Proposed(calls[i].0)
    ensures NoneRejected(RunEngine(NewEngine(DEFAULT_CONSTRAINTS), calls).history)
  {
    hide ConservativeSpec, AggressiveSpec, AllValid, NoneRejected, RunEngine;
    forall i | 0 <= i < |calls|
      ensures AllValid(DEFAULT_CONSTRAINTS, calls[i].0)
    {
      assert Proposed(calls[i].0);
      var cooling, bottleneck, pressure, qs :|
        || calls[i].0 == ConservativeSpec(cooling, bottleneck, pressure, qs)
        || calls[i].0 == AggressiveSpec(cooling, bottleneck, pressure, qs);
      PoliciesNeverRejected(cooling, bottleneck, pressure, qs);
    }
    ValidRunsNeverReject(calls);
  }

  lemma {:induction false} ShrinksOnlyDecrease(qs: seq<QueueReading>)
    ensures forall i :: 0 <= i < |Shrinks(qs)| ==> Shrinks(qs)[i].DecreaseQueueSize?
  {
    if qs != [] {
      ShrinksOnlyDecrease(qs[1..]);
    }
  }

  /** Whatever else the aggressive policy proposes, the first action is its one increase, and that
      is one exactly when the scaled size is larger and the queue is below the cap; otherwise it
      proposes to keep or shrink the queue under the name of an increase. */
  lemma AggressiveIncreaseIff(q: QueueReading, pressure: bool, qs: seq<QueueReading>)
    ensures var actions := AggressiveSpec(false, Some(q), pressure, qs);
            && actions != []
            && (forall i :: 0 <= i < |actions| ==> (actions[i].IncreaseQueueSize? <==> i == 0))
            && actions[0].stage == q.stage
            && (actions[0].newSize > q.queueLen <==> q.scaledUp > q.queueLen && q.queueLen < 10_000)
  {
    hide Shrinks;
    ShrinksOnlyDecrease(qs);
  }

  /** The scaled length of a policy whose step is 20 percent: six fifths, rounded down. */
  predicate ScaledByFifth(q: QueueReading) { q.scaledUp == q.queueLen * 6 / 5 }

  /** In terms of the queue's length alone: the aggressive policy's increase enlarges the queue if
      and only if its length is from 5 to 9999, and shrinks it if and only if it is above 10000. */
  lemma AggressiveIncreaseByLength(q: QueueReading, pressure: bool, qs: seq<QueueReading>)
    requires ScaledByFifth(q)
    ensures var actions := AggressiveSpec(false, Some(q), pressure, qs);
            && actions != [] && actions[0].IncreaseQueueSize? && actions[0].stage == q.stage
            && (actions[0].newSize > q.queueLen <==> 5 <= q.queueLen < 10_000)
            && (actions[0].newSize < q.queueLen <==> q.queueLen > 10_000)
  {
    AggressiveIncreaseIff(q, pressure, qs);
  }

  /** A queue of 20000, scaled to 24000, is told to "increase" to 10000. */
  lemma IncreaseThatShrinks(stage: nat)
    ensures var q := QueueReading(stage, 20_000, 24_000, 16_000, true);
            ScaledByFifth(q) && AggressiveSpec(false, Some(q), false, []) == [IncreaseQueueSize(stage, 10_000)]
  {
  }

  // ---- what one call does, in numbers ----------------------------------------------------------------------

  /** An action is refused exactly when it leaves the bounds: an increase above the maximum, a
      decrease below the minimum, a threshold outside 0 to 1. */
  lemma RejectedIff(c: Constraints, a: Action)
    ensures EntryFor(c, a).action == a
    ensures EntryFor(c, a).verdict ==
            match a
            case IncreaseQueueSize(_, n) => if n > c.maxQueueSize then Rejected else Applied
            case DecreaseQueueSize(_, n) => if n < c.minQueueSize then Rejected else Applied
            case EnableBatching(_) => Applied
            case AdjustBackpressure(x) => if x < 0.0 || x > 1.0 then Rejected else Applied
    ensures c == DEFAULT_CONSTRAINTS ==> c.minQueueSize == 100 && c.maxQueueSize == 10_000
  {
  }

  /** A call rolls back if and only if the last entry of the log was applied and the average is more
      than one and a half times a known baseline; it then marks that entry and no other. */
  lemma RollbackIff(e: Engine, actions: seq<Action>, average: nat)
    requires |e.history| <= 1000 && e.enabled && 3 * e.baseline < TWO_64
    ensures var logged := Newest(e.history + Entries(e.constraints, actions));
            var after := ProcessSpec(e, actions, average).history;
            var rollback := logged != [] && logged[|logged| - 1].verdict == Applied
                            && e.baseline > 0 && 2 * average > 3 * e.baseline;
            && (!rollback ==> after == logged)
            && (rollback ==> after == logged[|logged| - 1 := LogEntry(logged[|logged| - 1].action, RolledBack)])
            && |after| <= 1000
  {
    hide NextBaseline, Entries, LogAll;
    LogKeepsNewest(e.constraints, e.history, actions);
  }

  /** A disabled engine logs nothing, rolls nothing back and keeps its baseline. */
  lemma DisabledDoesNothing(e: Engine, actions: seq<Action>, average: nat)
    requires !e.enabled
    ensures ProcessSpec(e, actions, average) == e
  {
  }

  /** The actions a call returns, as a multiset: each valid one as often as it was proposed, no
      other. */
  lemma {:induction false} AppliedCounts(c: Constraints, actions: seq<Action>, a: Action)
    ensures multiset(AppliedOf(c, actions))[a] == if EntryFor(c, a).verdict == Applied then multiset(actions)[a] else 0
    decreases |actions|
  {
    hide Validate;
    if actions != [] {
      var before, last := actions[..|actions| - 1], actions[|actions| - 1];
      AppliedCounts(c, before, a);
      assert actions == before + [last];
      assert AppliedOf(c, actions) == AppliedOf(c, before) + if Validate(c, last) then [last] else [];
    }
  }

  /** And in the order proposed: part by part. */
  lemma {:induction false} AppliedInOrder(c: Constraints, a: seq<Action>, b: seq<Action>)
    ensures AppliedOf(c, a + b) == AppliedOf(c, a) + AppliedOf(c, b)
    decreases |b|
  {
    hide Validate;
    if b == [] {
      assert a + b == a;
    } else {
      assert (a + b)[..|a + b| - 1] == a + b[..|b| - 1];
      AppliedInOrder(c, a, b[..|b| - 1]);
    }
  }

  lemma QuotientBounds(x: nat, n: nat)
    requires n > 0
    ensures (x / n) * n <= x < (x / n + 1) * n
  {
    var q := x / n;
    assert x == q * n + x % n;
    assert (q + 1) * n == q * n + n;
  }

  /** A stage's average is its time per request, rounded down, and 0 if there was none. */
  lemma StageAverageMeans(s: StageCounters)
    ensures s.processed == 0 ==> StageAverage(s) == 0
    ensures s.processed > 0 ==> StageAverage(s) * s.processed <= s.latencySum < (StageAverage(s) + 1) * s.processed
  {
    if s.processed > 0 {
      QuotientBounds(s.latencySum, s.processed);
    }
  }

  function SumOfAverages(stages: seq<StageCounters>): nat
    decreases |stages|
  {
    if stages == [] then 0 else SumOfAverages(stages[..|stages| - 1]) + StageAverage(stages[|stages| - 1])
  }

  lemma {:induction false} TotalWraps(stages: seq<StageCounters>)
    ensures AverageTotal(stages) == SumOfAverages(stages) % TWO_64
    decreases |stages|
  {
    hide StageAverage;
    if stages != [] {
      var a, b := SumOfAverages(stages[..|stages| - 1]), StageAverage(stages[|stages| - 1]);
      TotalWraps(stages[..|stages| - 1]);
      var q := a / TWO_64;
      assert a == q * TWO_64 + a % TWO_64;
      assert (a % TWO_64 + b) % TWO_64 == (a + b) % TWO_64;
    }
  }

  lemma SmallRemainder(x: nat)
    requires x < TWO_64
    ensures x % TWO_64 == x
  {
  }

  /** The average over the stages is the mean of their averages, rounded down, as long as their sum
      fits 64 bits, and 0 without stages. */
  lemma AverageLatencyMeans(stages: seq<StageCounters>)
    requires SumOfAverages(stages) < TWO_64
    ensures var a, n := AverageLatency(stages), |stages|;
            && (n == 0 ==> a == 0)
            && (n > 0 ==> a * n <= SumOfAverages(stages) < (a + 1) * n)
  {
    hide AverageTotal, SumOfAverages;
    TotalWraps(stages);
    SmallRemainder(SumOfAverages(stages));
    if |stages| > 0 {
      QuotientBounds(SumOfAverages(stages), |stages|);
    }
  }

  // ---- what the conservative policy proposes ------------------------------------------------------------------

  /** Whether the policy sees cause to grow the bottleneck, shrink a queue, batch a stage. */
  predicate ShouldGrow(bottleneck: Option<QueueReading>)
  {
    bottleneck.Some? && bottleneck.value.scaledUp > bottleneck.value.queueLen && bottleneck.value.queueLen < 10_000
  }

  /** Action a shrinks one of the queues above 100, to its scaled length but not below 100. */
  predicate ShrinkOf(qs: seq<QueueReading>, a: Action)
  {
    exists i :: 0 <= i < |qs| && ShrinksQueue(qs[i], a)
  }

  predicate ShrinksQueue(q: QueueReading, a: Action)
  {
    q.queueLen > 100 && a == DecreaseQueueSize(q.stage, if q.scaledDown < 100 then 100 else q.scaledDown)
  }

  /** Action a batches one of the overflowing stages. */
  predicate BatchOf(qs: seq<QueueReading>, a: Action)
  {
    exists i :: 0 <= i < |qs| && qs[i].overflowing && a == EnableBatching(qs[i].stage)
  }

  lemma {:induction false} ShrinksMean(qs: seq<QueueReading>, a: Action)
    ensures a in Shrinks(qs) <==> ShrinkOf(qs, a)
  {
    hide ShrinksQueue;
    if qs != [] {
      ShrinksMean(qs[1..], a);
      ShrinkHead(qs[0], a);
      assert ShrinkOf(qs, a) <==> ShrinksQueue(qs[0], a) || ShrinkOf(qs[1..], a) by {
        if i :| 0 <= i < |qs[1..]| && ShrinksQueue(qs[1..][i], a) {
          assert ShrinksQueue(qs[i + 1], a);
        }
        if i :| 1 <= i < |qs| && ShrinksQueue(qs[i], a) {
          assert ShrinksQueue(qs[1..][i - 1], a);
        }
      }
    }
  }

  lemma ShrinkHead(q: QueueReading, a: Action)
    ensures ShrinksQueue(q, a) <==> q.queueLen > 100 && a == DecreaseQueueSize(q.stage, Max(q.scaledDown, 100))
  {
  }

  lemma {:induction false} BatchesMean(qs: seq<QueueReading>, a: Action)
    ensures a in Batches(qs) <==> BatchOf(qs, a)
  {
    if qs != [] {
      BatchesMean(qs[1..], a);
      if i :| 0 <= i < |qs[1..]| && qs[1..][i].overflowing && a == EnableBatching(qs[1..][i].stage) {
        assert qs[i + 1] == qs[1..][i];
      }
      if i :| 1 <= i < |qs| && qs[i].overflowing && a == EnableBatching(qs[i].stage) {
        assert qs[i] == qs[1..][i - 1];
      }
    }
  }

  /** Nothing while cooling down, never more than three actions.  The first is an increase if and only
      if it really enlarges the bottleneck, to the scaled length or 10000; every other action shrinks a
      queue above 100 under memory pressure, to its scaled length but not below 100, or batches an
      overflowing stage; and with fewer than three actions none of these is missing. */
  lemma ConservativeMeans(cooling: bool, bottleneck: Option<QueueReading>, pressure: bool, qs: seq<QueueReading>,
                          a: Action)
    ensures var actions := ConservativeSpec(cooling, bottleneck, pressure, qs);
            var grow := ShouldGrow(bottleneck);
            var wanted := (pressure && ShrinkOf(qs, a)) || BatchOf(qs, a);
            && |actions| <= 3 && (cooling ==> actions == [])
            && (!cooling && grow ==>
                  && actions != []
                  && actions[0] == IncreaseQueueSize(bottleneck.value.stage, Min(bottleneck.value.scaledUp, 10_000))
                  && actions[0].newSize > bottleneck.value.queueLen)
            && (a in (if !cooling && grow then actions[1..] else actions) ==> wanted)
            && (!cooling && |actions| < 3 && wanted ==> a in actions)
  {
    hide Shrinks, Batches, ShrinkOf, BatchOf;
    ShrinksMean(qs, a);
    BatchesMean(qs, a);
    if !cooling {
      var grow := if ShouldGrow(bottleneck)
                  then [IncreaseQueueSize(bottleneck.value.stage, Min(bottleneck.value.scaledUp, 10_000))] else [];
      var rest := (if pressure then Shrinks(qs) else []) + Batches(qs);
      var all := grow + (if pressure then Shrinks(qs) else []) + Batches(qs);
      assert all == grow + rest;
      assert ConservativeSpec(cooling, bottleneck, pressure, qs) == Truncate(all, 3);
    }
  }

  /** In terms of the queue's length alone, with a step of 10 percent: the conservative policy grows a
      bottleneck if and only if its length is from 10 to 9999. */
  lemma ConservativeGrowsByLength(q: QueueReading)
    requires q.scaledUp == q.queueLen * 11 / 10
    ensures ShouldGrow(Some(q)) <==> 10 <= q.queueLen < 10_000
  {
  }

  // ---- the class --------------------------------------------------------------------------------------------

  class TuningEngine {
    const constraints: Constraints
    var actionHistory: seq<LogEntry>
    var lastBaseline: nat
    var enabled: bool

    function Abstract(): Engine
      reads this
    {
      Engine(constraints, actionHistory, lastBaseline, enabled)
    }

    constructor (constraints: Constraints)
      ensures Abstract() == NewEngine(constraints)
    {
      this.constraints := constraints;
      actionHistory := [];
      lastBaseline := 0;
      enabled := true;
    }

    method Log(e: LogEntry)
      modifies this`actionHistory
      ensures actionHistory == LogAction(old(actionHistory), e)
    {
      if |actionHistory| >= MAX_LOG_ENTRIES {
        actionHistory := actionHistory[1..];
      }
      actionHistory := actionHistory + [e];
    }

    method RollbackLastAction()
      modifies this`actionHistory
      ensures actionHistory == RollbackLast(old(actionHistory))
    {
      if |actionHistory| > 0 {
        var last := actionHistory[|actionHistory| - 1];
        if last.verdict.Applied? {
          actionHistory := actionHistory[|actionHistory| - 1 := last.(verdict := RolledBack)];
        }
      }
    }

    method UpdateBaseline(currentAvg: nat)
      modifies this`lastBaseline
      ensures lastBaseline == NextBaseline(old(lastBaseline), currentAvg)
    {
      if currentAvg > 0 {
        if lastBaseline == 0 {
          lastBaseline := currentAvg;
        } else {
          lastBaseline := Wrap64(Wrap64(lastBaseline * 9) + currentAvg) / 10;
        }
      }
    }

    /** `actions` is what the policy answered for this snapshot. */
    method Process(actions: seq<Action>, stages: seq<StageCounters>) returns (applied: seq<Action>)
      modifies this`actionHistory, this`lastBaseline
      ensures Abstract() == ProcessSpec(old(Abstract()), actions, AverageLatency(stages))
      ensures applied == if enabled then AppliedOf(constraints, actions) else []
    {
      hide NextBaseline, LogAction, Validate, AverageLatency;
      applied := [];
      if !enabled {
        return;
      }
      assert actions[..0] == [];
      for i := 0 to |actions|
        invariant actionHistory == LogAll(constraints, old(actionHistory), actions[..i])
        invariant lastBaseline == old(lastBaseline)
        invariant applied == AppliedOf(constraints, actions[..i])
      {
        assert actions[..i + 1][..i] == actions[..i];
        var action := actions[i];
        if Validate(constraints, action) {
          Log(LogEntry(action, Applied));
          applied := applied + [action];
        } else {
          Log(LogEntry(action, Rejected));
          assert applied + [] == applied;
        }
      }
      assert actions[..|actions|] == actions;
      var average := AverageLatency(stages);
      if ShouldRollback(lastBaseline, average) {
        RollbackLastAction();
      }
      UpdateBaseline(average);
    }
  }
}
