/**
  Latency metrics under concurrency.  Any number of threads run `record_latency`, one atomic
  operation a step, and the weak compare-exchange may fail for no reason.
*/
module StageMetrics {
  import opened Bytes

  /** Where a thread is inside `record_latency`. */
  datatype Recorder =
    | Idle
    | Added(latency: nat)
    | Looping(latency: nat, currentMax: nat)

  /** The two atomics, every thread, and the latencies whose addition has happened. */
  datatype Metrics = Metrics(
    latencySum: nat,
    latencyMax: nat,
    threads: map<nat, Recorder>,
    recorded: seq<nat>)

  function Fresh(): Metrics { Metrics(0, 0, map[], []) }

  datatype Step = Begin(thread: nat, latency: nat) | Continue(thread: nat, spurious: bool)

  function Pc(m: Metrics, t: nat): Recorder { if t in m.threads then m.threads[t] else Idle }

  /** `fetch_add`, the first load, then one loop test with at most one compare-exchange. */
  function Move(m: Metrics, s: Step): Metrics
  {
    match s
    case Begin(t, latency) =>
      if Pc(m, t).Idle? then
        m.(latencySum := (m.latencySum + latency) % TWO_64,
           threads := m.threads[t := Added(latency)],
           recorded := m.recorded + [latency])
      else m
    case Continue(t, spurious) =>
      match Pc(m, t)
      case Idle => m
      case Added(latency) => m.(threads := m.threads[t := Looping(latency, m.latencyMax)])
      case Looping(latency, current) =>
        if latency <= current then m.(threads := m.threads[t := Idle])
        else if m.latencyMax == current && !spurious then
          m.(latencyMax := latency, threads := m.threads[t := Idle])
        else m.(threads := m.threads[t := Looping(latency, m.latencyMax)])
  }

  function Run(steps: seq<Step>): Metrics
    decreases |steps|
  {
    if steps == [] then Fresh() else Move(Run(steps[..|steps| - 1]), steps[|steps| - 1])
  }

  function Sum(xs: seq<nat>): nat
    decreases |xs|
  {
    if xs == [] then 0 else Sum(xs[..|xs| - 1]) + xs[|xs| - 1]
  }

  /** The greatest of a list, 0 for the empty one. */
  function Greatest(xs: seq<nat>): (g: nat)
    ensures forall i :: 0 <= i < |xs| ==> xs[i] <= g
    ensures g == 0 || g in xs
    decreases |xs|
  {
    if xs == [] then 0
    else
      var g := Greatest(xs[..|xs| - 1]);
      if xs[|xs| - 1] > g then xs[|xs| - 1] else g
  }

  /** A latency whose thread may still raise the maximum. */
  predicate InFlight(m: Metrics, latency: nat)
  {
    exists t :: t in m.threads && (m.threads[t] == Added(latency) ||
                                   (m.threads[t].Looping? && m.threads[t].latency == latency))
  }

  ghost predicate Inv(m: Metrics)
  {
    && m.latencySum == Sum(m.recorded) % TWO_64
    && (m.latencyMax == 0 || m.latencyMax in m.recorded)
    && (forall t :: t in m.threads ==> m.threads[t].Idle? || m.threads[t].latency in m.recorded)
    && (forall t :: t in m.threads && m.threads[t].Looping? ==> m.threads[t].currentMax <= m.latencyMax)
    && (forall r :: r in m.recorded ==> r <= m.latencyMax || InFlight(m, r))
  }

  lemma SumWraps(a: nat, b: nat)
    ensures (a % TWO_64 + b) % TWO_64 == (a + b) % TWO_64
  {
    var q := a / TWO_64;
    assert a == q * TWO_64 + a % TWO_64;
  }

  lemma BeginKeepsInv(m: Metrics, t: nat, latency: nat)
    requires Inv(m) && Pc(m, t).Idle?
    ensures Inv(Move(m, Begin(t, latency)))
  {
    hide Sum;
    var m' := Move(m, Begin(t, latency));
    assert m'.latencySum == Sum(m'.recorded) % TWO_64 by {
      SumSnoc(m.recorded, latency);
      SumWraps(Sum(m.recorded), latency);
    }
    forall r | r in m'.recorded
      ensures r <= m'.latencyMax || InFlight(m', r)
    {
      if r == latency {
        assert m'.threads[t] == Added(r);
      } else if r > m.latencyMax {
        assert InFlight(m, r);
        var u :| u in m.threads && (m.threads[u] == Added(r) || (m.threads[u].Looping? && m.threads[u].latency == r));
        assert m'.threads[u] == m.threads[u];
      }
    }
  }

  lemma SumSnoc(xs: seq<nat>, x: nat)
    ensures Sum(xs + [x]) == Sum(xs) + x
  {
    assert (xs + [x])[..|xs|] == xs;
  }

  lemma ContinueKeepsInv(m: Metrics, t: nat, spurious: bool)
    requires Inv(m)
    ensures Inv(Move(m, Continue(t, spurious)))
    ensures Move(m, Continue(t, spurious)).latencyMax >= m.latencyMax
  {
    hide Sum;
    var m' := Move(m, Continue(t, spurious));
    forall r | r in m'.recorded
      ensures r <= m'.latencyMax || InFlight(m', r)
    {
      if r > m'.latencyMax {
        assert InFlight(m, r);
        var u :| u in m.threads && (m.threads[u] == Added(r) || (m.threads[u].Looping? && m.threads[u].latency == r));
        if u != t {
          assert m'.threads[u] == m.threads[u];
        } else {
          assert m'.threads[t] == Looping(r, m.latencyMax);
        }
      }
    }
  }

  /** In every run, the sum is exact modulo 2^64, the maximum is 0 or recorded, and whatever is
      above it belongs to a call that has not returned. */
  lemma {:induction false} RunsKeepInv(steps: seq<Step>)
    ensures Inv(Run(steps))
    decreases |steps|
  {
    hide Inv;
    if steps == [] {
      FreshInv();
    } else {
      var m := Run(steps[..|steps| - 1]);
      RunsKeepInv(steps[..|steps| - 1]);
      match steps[|steps| - 1]
      case Begin(t, latency) =>
        if Pc(m, t).Idle? {
          BeginKeepsInv(m, t, latency);
        }
      case Continue(t, spurious) => ContinueKeepsInv(m, t, spurious);
    }
  }

  lemma FreshInv()
    ensures Inv(Fresh())
  {
  }

  /** The maximum never falls, whatever the interleaving. */
  lemma {:induction false} MaximumNeverFalls(steps: seq<Step>, n: nat)
    requires n <= |steps|
    ensures Run(steps[..n]).latencyMax <= Run(steps).latencyMax
    decreases |steps| - n
  {
    hide Inv;
    if n == |steps| {
      assert steps[..n] == steps;
    } else {
      assert steps[..n + 1][..n] == steps[..n];
      assert Run(steps[..n + 1]) == Move(Run(steps[..n]), steps[n]);
      RunsKeepInv(steps[..n]);
      MaximumNeverFalls(steps, n + 1);
      if steps[n].Continue? {
        ContinueKeepsInv(Run(steps[..n]), steps[n].thread, steps[n].spurious);
      }
    }
  }

  predicate Quiescent(m: Metrics) { forall t :: t in m.threads ==> m.threads[t].Idle? }

  /** At quiescence no update was lost: the maximum is the greatest latency ever recorded, and the
      sum is the sum of all of them. */
  lemma QuiescentIsExact(steps: seq<Step>)
    requires Quiescent(Run(steps))
    ensures Run(steps).latencyMax == Greatest(Run(steps).recorded)
    ensures Run(steps).latencySum == Sum(Run(steps).recorded) % TWO_64
  {
    hide Run, Sum;
    RunsKeepInv(steps);
    var m := Run(steps);
    var g := Greatest(m.recorded);
    if g in m.recorded {
      assert g <= m.latencyMax || InFlight(m, g);
    }
  }

  /** A compare-exchange that fails for a reason has seen a larger maximum than before. */
  lemma HonestRetrySeesProgress(m: Metrics, t: nat)
    requires Inv(m) && Pc(m, t).Looping? && Pc(Move(m, Continue(t, false)), t).Looping?
    ensures Pc(Move(m, Continue(t, false)), t).currentMax > Pc(m, t).currentMax
  {
  }

  // ---- the class ------------------------------------------------------------------------------------

  /** The counters with calls one after another; `spurious` bounds how often the weak
      compare-exchange fails although the value matches. */
  class Counters {
    var processed: nat
    var latencySum: nat
    var latencyMax: nat

    constructor ()
      ensures processed == latencySum == latencyMax == 0
    {
      processed, latencySum, latencyMax := 0, 0, 0;
    }

    method RecordLatency(latency: nat, spurious: nat)
      modifies this`latencySum, this`latencyMax
      ensures latencySum == (old(latencySum) + latency) % TWO_64
      ensures latencyMax == if latency > old(latencyMax) then latency else old(latencyMax)
    {
      latencySum := (latencySum + latency) % TWO_64;
      var currentMax := latencyMax;
      var failures := spurious;
      while latency > currentMax
        invariant latencyMax == currentMax == old(latencyMax)
        decreases failures
      {
        if latencyMax == currentMax && failures == 0 {
          latencyMax := latency;
          break;
        }
        failures := failures - 1;
        currentMax := latencyMax;
      }
    }
  }
}
