/**
  The evicting dynamic table shared by the HPACK encoder and decoder (sections 2.3.2 and 4 of
  RFC 7541).  A table is described by what eviction leaves of a newest-first list: its longest
  prefix that fits.  The class is the source's, with its cached size and its eviction loops.
*/
module HpackTable {
  import opened Bytes

  datatype Entry = Entry(name: Data, value: Data, size: nat)

  function NewEntry(name: Data, value: Data): Entry
  {
    Entry(name, value, 32 + |name| + |value|)
  }

  predicate WellSized(e: Entry) { e.size == 32 + |e.name| + |e.value| }

  predicate AllWellSized(es: seq<Entry>) { forall i :: 0 <= i < |es| ==> WellSized(es[i]) }

  function Total(es: seq<Entry>): nat
  {
    if es == [] then 0 else Total(es[..|es| - 1]) + es[|es| - 1].size
  }

  /** The prefix of a newest-first list that survives eviction to `budget`. */
  function Fit(es: seq<Entry>, budget: nat): (kept: seq<Entry>)
    ensures kept <= es && Total(kept) <= budget
    decreases |es|
  {
    if Total(es) <= budget then es else Fit(es[..|es| - 1], budget)
  }

  /** `Fit` is the longest fitting prefix: keeping one entry more exceeds the budget. */
  lemma {:induction false} FitIsLongest(es: seq<Entry>, budget: nat, k: nat)
    requires k <= |es|
    ensures k <= |Fit(es, budget)| <==> Total(es[..k]) <= budget
    decreases |es|
  {
    if Total(es) <= budget {
      TotalMonotone(es, k, |es|);
      assert es[..|es|] == es;
    } else {
      assert es[..|es|] == es;
      if k < |es| {
        assert es[..|es| - 1][..k] == es[..k];
        FitIsLongest(es[..|es| - 1], budget, k);
      }
    }
  }

  lemma {:induction false} TotalMonotone(es: seq<Entry>, j: nat, k: nat)
    requires j <= k <= |es|
    ensures Total(es[..j]) <= Total(es[..k])
    decreases k
  {
    if j < k {
      assert es[..k][..k - 1] == es[..k - 1];
      TotalMonotone(es, j, k - 1);
    }
  }

  lemma {:induction false} TotalConcat(a: seq<Entry>, b: seq<Entry>)
    ensures Total(a + b) == Total(a) + Total(b)
    decreases |b|
  {
    if b == [] {
      assert a + b == a;
    } else {
      assert (a + b)[..|a + b| - 1] == a + b[..|b| - 1];
      TotalConcat(a, b[..|b| - 1]);
    }
  }

  lemma TotalLast(es: seq<Entry>)
    requires es != []
    ensures Total(es) == Total(es[..|es| - 1]) + es[|es| - 1].size
  {
  }

  lemma TotalNone()
    ensures Total([]) == 0
  {
  }

  lemma TotalOne(e: Entry)
    ensures Total([e]) == e.size
  {
    assert [e][..0] == [];
  }

  /** A fitting prefix is `Fit` as soon as it is maximal. */
  lemma FitUnique(es: seq<Entry>, budget: nat, k: nat)
    requires k <= |es| && Total(es[..k]) <= budget
    requires k < |es| ==> Total(es[..k + 1]) > budget
    ensures Fit(es, budget) == es[..k]
  {
    hide Fit, Total;
    FitIsLongest(es, budget, k);
    if k < |es| {
      FitIsLongest(es, budget, k + 1);
    }
  }

  /** Evicting before an insertion loses nothing that would not be evicted after it. */
  lemma FitAfterInsert(e: Entry, es: seq<Entry>, budget: nat)
    ensures Fit([e] + Fit(es, budget), budget) == Fit([e] + es, budget)
  {
    hide Fit, Total;
    var kept := Fit(es, budget);
    var k := |Fit([e] + kept, budget)|;
    var short, long := [e] + kept, [e] + es;
    assert long[..k] == short[..k];
    FitIsLongest(short, budget, k);
    if k < |long| {
      if k < |short| {
        FitIsLongest(short, budget, k + 1);
        assert long[..k + 1] == short[..k + 1];
      } else {
        FitIsLongest(es, budget, |kept| + 1);
        assert long[..k + 1] == [e] + es[..|kept| + 1];
        TotalConcat([e], es[..|kept| + 1]);
      }
    }
    FitUnique(long, budget, k);
  }

  /** A smaller budget keeps a prefix of what a larger one keeps. */
  lemma FitMonotone(es: seq<Entry>, small: nat, large: nat)
    requires small <= large
    ensures Fit(es, small) <= Fit(es, large)
    ensures Fit(Fit(es, large), small) == Fit(es, small)
  {
    hide Fit, Total;
    var k := |Fit(es, small)|;
    FitIsLongest(es, small, k);
    FitIsLongest(es, large, k);
    var kept := Fit(es, large);
    assert kept[..k] == es[..k];
    if k < |kept| {
      FitIsLongest(es, small, k + 1);
      assert kept[..k + 1] == es[..k + 1];
    }
    FitUnique(kept, small, k);
  }

  // ---- runs over a table ------------------------------------------------------------------

  /** The abstract table: its newest-first entries and its size limit. */
  datatype Table = Table(entries: seq<Entry>, maxSize: nat)

  predicate Fitting(t: Table) { AllWellSized(t.entries) && Total(t.entries) <= t.maxSize }

  function Insert(t: Table, e: Entry): Table
  {
    t.(entries := Fit([e] + t.entries, t.maxSize))
  }

  function Resize(t: Table, newSize: nat): Table
  {
    Table(Fit(t.entries, newSize), newSize)
  }

  function EmptyTable(maxSize: nat): Table { Table([], maxSize) }

  function InsertAll(t: Table, es: seq<Entry>): (t': Table)
    ensures t'.maxSize == t.maxSize
    decreases |es|
  {
    if es == [] then t else Insert(InsertAll(t, es[..|es| - 1]), es[|es| - 1])
  }

  function Reversed<T>(s: seq<T>): (r: seq<T>)
    ensures |r| == |s|
    ensures forall i :: 0 <= i < |s| ==> r[i] == s[|s| - 1 - i]
  {
    if s == [] then [] else [s[|s| - 1]] + Reversed(s[..|s| - 1])
  }

  /** With a fixed limit, a table is the longest fitting prefix of its newest-first history. */
  lemma {:induction false} EvictionIsExact(maxSize: nat, inserted: seq<Entry>)
    ensures InsertAll(EmptyTable(maxSize), inserted).entries == Fit(Reversed(inserted), maxSize)
    decreases |inserted|
  {
    if inserted != [] {
      var older := inserted[..|inserted| - 1];
      EvictionIsExact(maxSize, older);
      FitAfterInsert(inserted[|inserted| - 1], Reversed(older), maxSize);
    }
  }

  /** Section 4.4 of RFC 7541: an insertion larger than the limit empties the table. */
  lemma OversizedInsertEmpties(t: Table, e: Entry)
    ensures e.size > t.maxSize <==> Insert(t, e).entries == []
  {
    var es := [e] + t.entries;
    FitIsLongest(es, t.maxSize, 1);
    assert es[..1] == [e] && [e][..0] == [];
    assert Total([e]) == Total([]) + e.size;
  }

  /** Two tables fed the same insertions: the smaller one stays a prefix of the larger. */
  lemma TablesNest(small: nat, large: nat, inserted: seq<Entry>)
    requires small <= large
    ensures InsertAll(EmptyTable(small), inserted).entries <= InsertAll(EmptyTable(large), inserted).entries
  {
    EvictionIsExact(small, inserted);
    EvictionIsExact(large, inserted);
    FitMonotone(Reversed(inserted), small, large);
  }

  lemma {:induction false} InsertAllConcat(t: Table, a: seq<Entry>, b: seq<Entry>)
    ensures InsertAll(InsertAll(t, a), b) == InsertAll(t, a + b)
    decreases |b|
  {
    if b == [] {
      assert a + b == a;
    } else {
      assert (a + b)[..|a + b| - 1] == a + b[..|b| - 1];
      InsertAllConcat(t, a, b[..|b| - 1]);
    }
  }

  // ---- runs with resizing -----------------------------------------------------------------

  datatype TableOp = Inserting(entry: Entry) | Resizing(newSize: nat)

  function ApplyOp(t: Table, op: TableOp): Table
  {
    match op
    case Inserting(e) => Insert(t, e)
    case Resizing(n) => Resize(t, n)
  }

  function ApplyOps(t: Table, ops: seq<TableOp>): Table
    decreases |ops|
  {
    if ops == [] then t else ApplyOp(ApplyOps(t, ops[..|ops| - 1]), ops[|ops| - 1])
  }

  /** Every entry ever inserted, newest first. */
  function History(ops: seq<TableOp>): (es: seq<Entry>)
    decreases |ops|
  {
    if ops == [] then []
    else
      var es := History(ops[..|ops| - 1]);
      match ops[|ops| - 1]
      case Inserting(e) => [e] + es
      case Resizing(_) => es
  }

  function LimitAfter(initial: nat, ops: seq<TableOp>): nat
    decreases |ops|
  {
    if ops == [] then initial
    else if ops[|ops| - 1].Resizing? then ops[|ops| - 1].newSize
    else LimitAfter(initial, ops[..|ops| - 1])
  }

  /** Whether the k newest entries of the history were never too big together: at the end of
      every prefix of the run, those of them already inserted fit the limit of that moment. */
  predicate AlwaysFitted(initial: nat, ops: seq<TableOp>, k: nat)
    requires k <= |History(ops)|
    decreases |ops|
  {
    if ops == [] then true
    else
      Total(History(ops)[..k]) <= LimitAfter(initial, ops) &&
      (var before := ops[..|ops| - 1];
       var k' := if ops[|ops| - 1].Inserting? && k > 0 then k - 1 else k;
       AlwaysFitted(initial, before, k'))
  }

  lemma InsertKeeps(t: Table, h: seq<Entry>, e: Entry, k: nat)
    requires t.entries <= h && k <= |h| + 1
    ensures Insert(t, e).entries <= [e] + h
    ensures k <= |Insert(t, e).entries|
       <==> Total(([e] + h)[..k]) <= t.maxSize && (k > 0 ==> k - 1 <= |t.entries|)
  {
    var es := [e] + t.entries;
    if k <= |es| {
      FitIsLongest(es, t.maxSize, k);
      assert es[..k] == ([e] + h)[..k];
    }
  }

  lemma ResizeKeeps(t: Table, h: seq<Entry>, n: nat, k: nat)
    requires t.entries <= h && k <= |h|
    ensures Resize(t, n).entries <= h
    ensures k <= |Resize(t, n).entries| <==> Total(h[..k]) <= n && k <= |t.entries|
  {
    if k <= |t.entries| {
      FitIsLongest(t.entries, n, k);
      assert t.entries[..k] == h[..k];
    }
  }

  /** With arbitrary resizing a table is still a prefix of its history, and holds exactly the
      entries that fitted, together with everything newer, at every moment since. */
  lemma {:induction false} ResizedTableIsExact(initial: nat, ops: seq<TableOp>, k: nat)
    requires k <= |History(ops)|
    ensures var t := ApplyOps(EmptyTable(initial), ops);
            t.maxSize == LimitAfter(initial, ops) && t.entries <= History(ops) &&
            (k <= |t.entries| <==> AlwaysFitted(initial, ops, k))
    decreases |ops|
  {
    if ops != [] {
      var before := ops[..|ops| - 1];
      var t := ApplyOps(EmptyTable(initial), before);
      match ops[|ops| - 1]
      case Inserting(e) =>
        ResizedTableIsExact(initial, before, if k > 0 then k - 1 else 0);
        InsertKeeps(t, History(before), e, k);
      case Resizing(n) =>
        ResizedTableIsExact(initial, before, k);
        ResizeKeeps(t, History(before), n, k);
    }
  }

  // ---- the class ----------------------------------------------------------------------------

  /** The fields `dynamic_table`, `max_size` and `current_size`, which encoder and decoder both
      declare, with the two methods that change them. */
  class DynamicTable {
    var entries: seq<Entry>
    var maxSize: nat
    var currentSize: nat

    ghost predicate Valid()
      reads this
    {
      AllWellSized(entries) && currentSize == Total(entries) && currentSize <= maxSize
    }

    function Abstract(): (t: Table)
      reads this
      ensures Valid() ==> Fitting(t)
    {
      Table(entries, maxSize)
    }

    constructor (maxSize: nat)
      ensures Valid() && Abstract() == EmptyTable(maxSize)
    {
      this.maxSize := maxSize;
      entries := [];
      currentSize := 0;
    }

    method AddEntry(name: Data, value: Data)
      requires Valid()
      modifies this
      ensures Valid()
      ensures Abstract() == Insert(old(Abstract()), NewEntry(name, value))
    {
      hide Fit, Total;
      var entry := NewEntry(name, value);
      while currentSize + entry.size > maxSize && |entries| > 0
        invariant AllWellSized(entries) && currentSize == Total(entries) && maxSize == old(maxSize)
        invariant entries <= old(entries)
        invariant |entries| < |old(entries)| ==> entry.size + Total(old(entries)[..|entries| + 1]) > maxSize
        decreases |entries|
      {
        var removed := entries[|entries| - 1];
        assert entries == old(entries)[..|entries|];
        TotalLast(entries);
        entries := entries[..|entries| - 1];
        currentSize := currentSize - removed.size;
      }
      assert entries == old(entries)[..|entries|];
      TotalNone();
      AddFits(entry, old(entries), |entries|, maxSize);
      if entry.size <= maxSize {
        TotalConcat([entry], entries);
        TotalOne(entry);
        currentSize := currentSize + entry.size;
        entries := [entry] + entries;
      }
    }

    method SetLimit(newSize: nat)
      requires Valid()
      modifies this
      ensures Valid()
      ensures Abstract() == Resize(old(Abstract()), newSize)
    {
      hide Fit;
      maxSize := newSize;
      while currentSize > maxSize && |entries| > 0
        invariant AllWellSized(entries) && currentSize == Total(entries) && maxSize == newSize
        invariant entries <= old(entries)
        invariant |entries| < |old(entries)| ==> Total(old(entries)[..|entries| + 1]) > newSize
        decreases |entries|
      {
        var removed := entries[|entries| - 1];
        assert entries == old(entries)[..|entries|];
        entries := entries[..|entries| - 1];
        currentSize := currentSize - removed.size;
      }
      assert entries == old(entries)[..|entries|];
      FitUnique(old(entries), newSize, |entries|);
    }
  }

  /** Where the insertion loop stops is where `Fit` cuts. */
  lemma AddFits(e: Entry, es: seq<Entry>, k: nat, maxSize: nat)
    requires k <= |es|
    requires e.size + Total(es[..k]) <= maxSize || k == 0
    requires k < |es| ==> e.size + Total(es[..k + 1]) > maxSize
    ensures Fit([e] + es, maxSize) == if e.size <= maxSize then [e] + es[..k] else []
  {
    hide Fit, Total;
    var all := [e] + es;
    TotalOne(e);
    TotalNone();
    assert all[..1] == [e];
    if e.size <= maxSize {
      assert all[..k + 1] == [e] + es[..k];
      TotalConcat([e], es[..k]);
      if k < |es| {
        assert all[..k + 2] == [e] + es[..k + 1];
        TotalConcat([e], es[..k + 1]);
      }
      FitUnique(all, maxSize, k + 1);
    } else {
      FitUnique(all, maxSize, 0);
    }
  }
}
