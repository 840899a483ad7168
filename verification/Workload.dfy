/** The benchmark's workload: how keys are named, and how workers share and merge them. */
module Workload {
  import opened Types
  import opened Decimal
  import opened Wire

  const COLON: byte := 58

  // ----- the share of each worker

  function Min(a: nat, b: nat): nat {
    if a < b then a else b
  }

  /** `workerSlice`: the indices from the first result up to the second. */
  function WorkerSlice(total: nat, concurrency: nat, worker: nat): (r: (nat, nat))
    requires 0 < concurrency
    ensures r.0 <= r.1
  {
    var base, extra := total / concurrency, total % concurrency;
    var start := worker * base + Min(worker, extra);
    (start, start + base + if worker < extra then 1 else 0)
  }

  lemma SlicesMeet(total: nat, concurrency: nat, worker: nat)
    requires 0 < concurrency
    ensures WorkerSlice(total, concurrency, worker).1 == WorkerSlice(total, concurrency, worker + 1).0
  {
    var base := total / concurrency;
    assert (worker + 1) * base == worker * base + base;
  }

  lemma {:induction false} SlicesAreOrdered(total: nat, concurrency: nat, v: nat, w: nat)
    requires 0 < concurrency && v < w
    ensures WorkerSlice(total, concurrency, v).1 <= WorkerSlice(total, concurrency, w).0
    decreases w
  {
    SlicesMeet(total, concurrency, w - 1);
    if v < w - 1 {
      SlicesAreOrdered(total, concurrency, v, w - 1);
    }
  }

  /** The slices start at zero, meet each other, and end at the total. */
  lemma SlicesSpan(total: nat, concurrency: nat)
    requires 0 < concurrency
    ensures WorkerSlice(total, concurrency, 0).0 == 0
    ensures WorkerSlice(total, concurrency, concurrency - 1).1 == total
  {
    SlicesMeet(total, concurrency, concurrency - 1);
    assert total == concurrency * (total / concurrency) + total % concurrency;
  }

  lemma {:induction false} FindOwner(total: nat, concurrency: nat, i: nat, bound: nat) returns (w: nat)
    requires 0 < concurrency && i < WorkerSlice(total, concurrency, bound).0
    ensures w < bound && WorkerSlice(total, concurrency, w).0 <= i < WorkerSlice(total, concurrency, w).1
    decreases bound
  {
    w := bound - 1;
    SlicesMeet(total, concurrency, w);
    if i < WorkerSlice(total, concurrency, w).0 {
      w := FindOwner(total, concurrency, i, w);
    }
  }

  ghost predicate Owns(total: nat, concurrency: nat, w: nat, i: nat)
    requires 0 < concurrency
  {
    w < concurrency && WorkerSlice(total, concurrency, w).0 <= i < WorkerSlice(total, concurrency, w).1
  }

  /** Every index has exactly one worker, and no worker has an index outside the range. */
  lemma SlicesPartition(total: nat, concurrency: nat, i: nat)
    requires 0 < concurrency
    ensures i < total <==> exists w: nat :: Owns(total, concurrency, w, i)
    ensures forall v: nat, w: nat :: Owns(total, concurrency, v, i) && Owns(total, concurrency, w, i) ==> v == w
  {
    SlicesSpan(total, concurrency);
    SlicesMeet(total, concurrency, concurrency - 1);
    if i < total {
      var w := FindOwner(total, concurrency, i, concurrency);
      assert Owns(total, concurrency, w, i);
    }
    forall w: nat | Owns(total, concurrency, w, i) ensures i < total {
      if w < concurrency - 1 {
        SlicesAreOrdered(total, concurrency, w, concurrency - 1);
      }
    }
    forall v: nat, w: nat | Owns(total, concurrency, v, i) && Owns(total, concurrency, w, i) ensures v == w {
      if v < w {
        SlicesAreOrdered(total, concurrency, v, w);
      } else if w < v {
        SlicesAreOrdered(total, concurrency, w, v);
      }
    }
  }

  /** The shares are as even as they can be. */
  lemma SharesAreEven(total: nat, concurrency: nat, v: nat, w: nat)
    requires 0 < concurrency
    ensures var (a, b) := WorkerSlice(total, concurrency, v); var (c, d) := WorkerSlice(total, concurrency, w);
      b - a <= d - c + 1
  {
  }

  // ----- keys

  function WorkloadKey(prefix: Bytes, run: nat, index: nat): Key {
    prefix + [COLON] + Format(run) + [COLON] + Format(index)
  }

  /** The prefix, the run and the index, with colons between them. */
  lemma KeyText(prefix: Bytes)
    ensures WorkloadKey(prefix, 1, 2) == prefix + [58, 49, 58, 50]
  {
    assert Format(1) == [49] && Format(2) == [50];
  }

  lemma NumbersHaveNoColon(n: nat)
    ensures COLON !in Format(n)
  {
    FormatThenValue(n);
  }

  /** The first colon ends the first number. */
  lemma SameFirstNumber(a: Bytes, b: Bytes, x: Bytes, y: Bytes)
    requires COLON !in a && COLON !in b && a + [COLON] + x == b + [COLON] + y
    ensures a == b && x == y
  {
    var s, t := a + [COLON] + x, b + [COLON] + y;
    assert s[..|a|] == a && s[|a| + 1..] == x;
    assert t[..|b|] == b && t[|b| + 1..] == y;
    IndexOfIs(s, COLON, |a|);
    IndexOfIs(t, COLON, |b|);
  }

  /** Different runs or indices have different keys. */
  lemma KeysAreDistinct(prefix: Bytes, r: nat, i: nat, s: nat, j: nat)
    requires WorkloadKey(prefix, r, i) == WorkloadKey(prefix, s, j)
    ensures r == s && i == j
  {
    var key, n := WorkloadKey(prefix, r, i), |prefix| + 1;
    assert key[n..] == Format(r) + [COLON] + Format(i);
    assert key[n..] == Format(s) + [COLON] + Format(j);
    NumbersHaveNoColon(r);
    NumbersHaveNoColon(s);
    SameFirstNumber(Format(r), Format(s), Format(i), Format(j));
    FormatInjective(r, s);
    FormatInjective(i, j);
  }

  // ----- one phase

  /** The keys of a run, in order. */
  function KeysOf(prefix: Bytes, run: nat, from: nat, to: nat): (keys: seq<Key>)
    requires from <= to
    ensures |keys| == to - from && forall i :: 0 <= i < |keys| ==> keys[i] == WorkloadKey(prefix, run, from + i)
  {
    seq(to - from, i requires 0 <= i < to - from => WorkloadKey(prefix, run, from + i))
  }

  /** No key comes twice, in one run or in two. */
  lemma KeysAreVisitedOnce(prefix: Bytes, r: nat, s: nat, total: nat, i: nat, j: nat)
    requires i < total && j < total && KeysOf(prefix, r, 0, total)[i] == KeysOf(prefix, s, 0, total)[j]
    ensures r == s && i == j
  {
    KeysAreDistinct(prefix, r, i, s, j);
  }

  ghost predicate AllWork(prefix: Bytes, run: nat, from: nat, to: nat, works: Key -> bool) {
    forall i :: from <= i < to ==> works(WorkloadKey(prefix, run, i))
  }

  /** A stretch of keys visited in order, or nothing if one of them fails. */
  ghost function Visited(prefix: Bytes, run: nat, from: nat, to: nat, works: Key -> bool): Option<seq<Key>>
    requires from <= to
  {
    if AllWork(prefix, run, from, to, works) then Some(KeysOf(prefix, run, from, to)) else None
  }

  lemma VisitedInTwo(prefix: Bytes, run: nat, from: nat, mid: nat, to: nat, works: Key -> bool)
    requires from <= mid <= to
    ensures AllWork(prefix, run, from, to, works) <==>
      AllWork(prefix, run, from, mid, works) && AllWork(prefix, run, mid, to, works)
    ensures KeysOf(prefix, run, from, to) == KeysOf(prefix, run, from, mid) + KeysOf(prefix, run, mid, to)
  {
  }

  /** Where each slice starts, and where the last one ends. */
  function Bounds(total: nat, concurrency: nat): (b: seq<nat>)
    requires 0 < concurrency
    ensures |b| == concurrency + 1 && forall w :: 0 <= w <= concurrency ==> b[w] == WorkerSlice(total, concurrency, w).0
  {
    seq(concurrency + 1, w requires 0 <= w <= concurrency => WorkerSlice(total, concurrency, w).0)
  }

  lemma BoundsSpan(total: nat, concurrency: nat)
    requires 0 < concurrency
    ensures var b := Bounds(total, concurrency);
      && b[0] == 0 && b[concurrency] == total
      && forall w :: 0 <= w < concurrency ==> b[w] <= b[w + 1]
  {
    SlicesSpan(total, concurrency);
    SlicesMeet(total, concurrency, concurrency - 1);
    forall w | 0 <= w < concurrency
      ensures WorkerSlice(total, concurrency, w).0 <= WorkerSlice(total, concurrency, w + 1).0
    {
      SlicesMeet(total, concurrency, w);
    }
  }

  ghost predicate Filled(perWorker: seq<Option<seq<Key>>>, prefix: Bytes, run: nat, b: seq<nat>, works: Key -> bool) {
    && |perWorker| < |b|
    && forall w :: 0 <= w < |perWorker| ==>
         b[w] <= b[w + 1] && perWorker[w] == Visited(prefix, run, b[w], b[w + 1], works)
  }

  /** A worker on its way through its slice, or at its end with its cell filled, or empty because a key failed. */
  datatype Worker = Running(next: nat, keys: seq<Key>) | Finished(cell: Option<seq<Key>>)

  ghost predicate OnTrack(p: Worker, prefix: Bytes, run: nat, from: nat, to: nat, works: Key -> bool) {
    from <= to &&
    match p
    case Running(next, keys) =>
      from <= next <= to && keys == KeysOf(prefix, run, from, next) && AllWork(prefix, run, from, next, works)
    case Finished(cell) => cell == Visited(prefix, run, from, to, works)
  }

  /** How many moves a worker has left at most. */
  function MovesLeft(p: Worker, to: nat): nat {
    if p.Running? && p.next <= to then to - p.next + 1 else 0
  }

  /** One move of a worker: the next key, or the end. */
  method Advance(p: Worker, prefix: Bytes, run: nat, ghost from: nat, to: nat, works: Key -> bool) returns (q: Worker)
    requires p.Running? && OnTrack(p, prefix, run, from, to, works)
    ensures OnTrack(q, prefix, run, from, to, works) && MovesLeft(q, to) < MovesLeft(p, to)
  {
    if p.next == to {
      return Finished(Some(p.keys));
    }
    var key := WorkloadKey(prefix, run, p.next);
    if !works(key) {
      return Finished(None);
    }
    return Running(p.next + 1, p.keys + [key]);
  }

  function TotalLeft(ws: seq<Worker>, b: seq<nat>): nat
    requires |b| == |ws| + 1
  {
    if ws == [] then 0 else MovesLeft(ws[0], b[1]) + TotalLeft(ws[1..], b[1..])
  }

  lemma {:induction false} TotalUpdate(ws: seq<Worker>, b: seq<nat>, w: nat, q: Worker)
    requires |b| == |ws| + 1 && w < |ws|
    ensures TotalLeft(ws[w := q], b) == TotalLeft(ws, b) - MovesLeft(ws[w], b[w + 1]) + MovesLeft(q, b[w + 1])
  {
    if w == 0 {
      assert ws[0 := q][1..] == ws[1..];
    } else {
      TotalUpdate(ws[1..], b[1..], w - 1, q);
      assert ws[w := q][1..] == ws[1..][w - 1 := q];
    }
  }

  ghost predicate AllOnTrack(ws: seq<Worker>, prefix: Bytes, run: nat, b: seq<nat>, works: Key -> bool)
    requires |b| == |ws| + 1
  {
    forall w {:trigger ws[w]} :: 0 <= w < |ws| ==> OnTrack(ws[w], prefix, run, b[w], b[w + 1], works)
  }

  /** The workers take their moves in any order at all; each fills its own cell. */
  method RunWorkers(b: seq<nat>, prefix: Bytes, run: nat, works: Key -> bool) returns (perWorker: seq<Option<seq<Key>>>)
    requires |b| > 0 && forall w :: 0 <= w < |b| - 1 ==> b[w] <= b[w + 1]
    ensures |perWorker| == |b| - 1 && Filled(perWorker, prefix, run, b, works)
  {
    var ws := seq(|b| - 1, w requires 0 <= w < |b| - 1 => Running(b[w], []));
    while exists w :: 0 <= w < |ws| && ws[w].Running?
      invariant |ws| == |b| - 1 && AllOnTrack(ws, prefix, run, b, works)
      decreases TotalLeft(ws, b)
    {
      var w :| 0 <= w < |ws| && ws[w].Running?;
      var q := Advance(ws[w], prefix, run, b[w], b[w + 1], works);
      TotalUpdate(ws, b, w, q);
      ws := ws[w := q];
    }
    perWorker := Cells(ws);
  }

  function Cells(ws: seq<Worker>): (cells: seq<Option<seq<Key>>>)
    ensures |cells| == |ws| && forall w :: 0 <= w < |ws| && ws[w].Finished? ==> cells[w] == ws[w].cell
  {
    seq(|ws|, w requires 0 <= w < |ws| => if ws[w].Finished? then ws[w].cell else None)
  }

  method Merge(perWorker: seq<Option<seq<Key>>>, prefix: Bytes, run: nat, ghost b: seq<nat>, works: Key -> bool)
    returns (merged: Option<seq<Key>>)
    requires |b| == |perWorker| + 1 && Filled(perWorker, prefix, run, b, works)
    ensures b[0] <= b[|perWorker|] && merged == Visited(prefix, run, b[0], b[|perWorker|], works)
  {
    var failed, keys := false, [];
    for w := 0 to |perWorker|
      invariant b[0] <= b[w]
      invariant failed <==> !AllWork(prefix, run, b[0], b[w], works)
      invariant !failed ==> keys == KeysOf(prefix, run, b[0], b[w])
    {
      VisitedInTwo(prefix, run, b[0], b[w], b[w + 1], works);
      if perWorker[w].None? {
        failed := true;
      } else {
        keys := keys + perWorker[w].value;
      }
    }
    return if failed then None else Some(keys);
  }

  /**
   * `runPhase`: unless some key fails, the merged results are those of every
   * key of the run, each exactly once and in order, however many workers share
   * them.
   */
  method RunPhase(prefix: Bytes, run: nat, total: nat, concurrency: nat, works: Key -> bool)
    returns (merged: Option<seq<Key>>)
    requires 0 < concurrency
    ensures merged == Visited(prefix, run, 0, total, works)
  {
    BoundsSpan(total, concurrency);
    var perWorker := RunWorkers(Bounds(total, concurrency), prefix, run, works);
    merged := Merge(perWorker, prefix, run, Bounds(total, concurrency), works);
  }
}
