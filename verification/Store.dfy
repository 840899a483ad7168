/** The sequential meaning of a store: shards behind a hash, and one token counter for all of them. */
module Store {
  import opened Types
  import opened Hash
  import opened Cache
  import opened ListLaws
  import opened Effects
  import opened ShardLaws

  datatype State = State(shards: seq<Shard>, counter: nat)

  /** One operation together with the clock reading it makes. */
  datatype Event = Event(op: Op, now: Time)

  function Init(n: nat): State {
    State(seq(n, _ => Shard([], 0, 0)), 0)
  }

  /** The shard an operation works on. */
  function Route(op: Op, n: nat): (i: nat)
    requires 0 < n
    ensures i < n
  {
    if !op.Cleanup? then ShardIndex(op.key, n) else if op.shard < n then op.shard else 0
  }

  function Apply(l: Limits, st: State, ev: Event): (State, Reply)
    requires 0 < |st.shards|
  {
    var i := Route(ev.op, |st.shards|);
    var (s, r) := Step(l, st.shards[i], ev.op, ev.now, st.counter + 1);
    (State(st.shards[i := s], st.counter + if r.Wrote() then 1 else 0), r)
  }

  function After(l: Limits, st: State, evs: seq<Event>): (t: State)
    requires 0 < |st.shards|
    ensures |t.shards| == |st.shards|
  {
    if evs == [] then st else Apply(l, After(l, st, evs[..|evs| - 1]), evs[|evs| - 1]).0
  }

  function Replies(l: Limits, st: State, evs: seq<Event>): (rs: seq<Reply>)
    requires 0 < |st.shards|
    ensures |rs| == |evs|
  {
    if evs == [] then []
    else
      var init := evs[..|evs| - 1];
      Replies(l, st, init) + [Apply(l, After(l, st, init), evs[|evs| - 1]).1]
  }

  /** The latest clock reading a shard has seen in a run, or `start` before its first one. */
  function ShardClock(evs: seq<Event>, i: nat, n: nat, start: Time): Time
    requires 0 < n
  {
    if evs == [] then start
    else
      var last := evs[|evs| - 1];
      if Route(last.op, n) == i then last.now else ShardClock(evs[..|evs| - 1], i, n, start)
  }

  /**
   * Each shard reads a non-decreasing clock. Readings of different shards may
   * interleave in any way, as they do when threads hold different locks.
   */
  ghost predicate Clocked(evs: seq<Event>, n: nat, start: Time)
    requires 0 < n
  {
    evs == [] ||
    (var init, last := evs[..|evs| - 1], evs[|evs| - 1];
     Clocked(init, n, start) && ShardClock(init, Route(last.op, n), n, start) <= last.now)
  }

  lemma Extend(evs: seq<Event>, ev: Event, n: nat, start: Time)
    requires 0 < n
    ensures Clocked(evs + [ev], n, start) <==>
      Clocked(evs, n, start) && ShardClock(evs, Route(ev.op, n), n, start) <= ev.now
    ensures forall i ::
      ShardClock(evs + [ev], i, n, start) == if i == Route(ev.op, n) then ev.now else ShardClock(evs, i, n, start)
  {
    assert (evs + [ev])[..|evs|] == evs;
  }

  /** One clock for all shards that never goes back gives each shard such a clock. */
  lemma {:induction false} SteadyIsClocked(evs: seq<Event>, n: nat, start: Time)
    requires 0 < n
    requires forall i :: 0 <= i < |evs| ==> start <= evs[i].now
    requires forall i, j :: 0 <= i <= j < |evs| ==> evs[i].now <= evs[j].now
    ensures Clocked(evs, n, start)
    ensures forall i :: ShardClock(evs, i, n, start) <= if evs == [] then start else evs[|evs| - 1].now
  {
    if evs != [] {
      SteadyIsClocked(evs[..|evs| - 1], n, start);
    }
  }

  lemma ExtendRun(l: Limits, st: State, evs: seq<Event>, ev: Event)
    requires 0 < |st.shards|
    ensures After(l, st, evs + [ev]) == Apply(l, After(l, st, evs), ev).0
    ensures Replies(l, st, evs + [ev]) == Replies(l, st, evs) + [Apply(l, After(l, st, evs), ev).1]
  {
    assert (evs + [ev])[..|evs|] == evs;
  }

  lemma AfterLast(l: Limits, st: State, evs: seq<Event>, init: seq<Event>, mid: State)
    requires 0 < |st.shards| && evs != [] && init == evs[..|evs| - 1] && mid == After(l, st, init)
    ensures 0 < |mid.shards| && After(l, st, evs) == Apply(l, mid, evs[|evs| - 1]).0
  {
  }

  lemma AfterOne(l: Limits, st: State, ev: Event)
    requires 0 < |st.shards|
    ensures After(l, st, [ev]) == Apply(l, st, ev).0
  {
    AfterLast(l, st, [ev], [], st);
  }

  /** Running one sequence of events and then another is running both. */
  lemma {:induction false} RunsCompose(l: Limits, st: State, a: seq<Event>, b: seq<Event>, mid: State)
    requires 0 < |st.shards| && mid == After(l, st, a)
    ensures After(l, st, a + b) == After(l, mid, b)
  {
    var evs := a + b;
    if b == [] {
      assert evs == a;
    } else {
      var init := b[..|b| - 1];
      RunsCompose(l, st, a, init, mid);
      assert evs[..|evs| - 1] == a + init && evs[|evs| - 1] == b[|b| - 1];
      var end := After(l, mid, init);
      AfterLast(l, st, evs, a + init, end);
      AfterLast(l, mid, b, init, end);
    }
  }

  // ----- the store invariant

  ghost predicate In(st: State, i: nat, e: Entry) {
    i < |st.shards| && e in st.shards[i].entries
  }

  ghost predicate Placed(st: State) {
    forall i, e {:trigger In(st, i, e)} :: In(st, i, e) ==> ShardIndex(e.key, |st.shards|) == i
  }

  ghost predicate Stamped(st: State) {
    && (forall i, e {:trigger In(st, i, e)} :: In(st, i, e) ==> 1 <= e.cas <= st.counter)
    && (forall i, j, e, f {:trigger In(st, i, e), In(st, j, f)} ::
          In(st, i, e) && In(st, j, f) && e.cas == f.cas ==> e == f)
  }

  ghost predicate Inv(l: Limits, st: State) {
    && 0 < |st.shards|
    && (forall i {:trigger ShardInv(l, st.shards[i])} :: 0 <= i < |st.shards| ==> ShardInv(l, st.shards[i]))
    && Placed(st)
    && Stamped(st)
  }

  lemma InitInv(l: Limits, n: nat)
    requires 0 < n
    ensures Inv(l, Init(n))
  {
  }

  /** Entries of the next state were there before, except for the one just written. */
  lemma ApplyMembers(l: Limits, st: State, ev: Event, j: nat, e: Entry)
    requires Inv(l, st)
    requires In(Apply(l, st, ev).0, j, e)
    ensures var (t, r) := Apply(l, st, ev);
      var i := Route(ev.op, |st.shards|);
      && (j == i && r.Wrote() && e.key == ev.op.key ==> e == t.shards[i].entries[0] && e.cas == t.counter)
      && (In(st, j, e) || (j == i && r.Wrote() && e.key == ev.op.key))
      && (j == i && r.Deleted? ==> e.key != ev.op.key)
  {
    var i := Route(ev.op, |st.shards|);
    if j == i {
      assert ShardInv(l, st.shards[i]);
      StepMembers(l, st.shards[i], ev.op, ev.now, st.counter + 1, e);
    }
  }

  lemma ApplyKeepsPlaces(l: Limits, st: State, ev: Event)
    requires Inv(l, st)
    ensures Placed(Apply(l, st, ev).0) && Stamped(Apply(l, st, ev).0)
  {
    var t := Apply(l, st, ev).0;
    forall j, e | In(t, j, e)
      ensures ShardIndex(e.key, |t.shards|) == j && 1 <= e.cas <= t.counter
    {
      ApplyMembers(l, st, ev, j, e);
    }
    forall i, j, e, f | In(t, i, e) && In(t, j, f) && e.cas == f.cas ensures e == f {
      ApplyMembers(l, st, ev, i, e);
      ApplyMembers(l, st, ev, j, f);
    }
  }

  lemma ApplyKeepsShard(l: Limits, st: State, ev: Event, j: nat)
    requires Inv(l, st) && j < |st.shards|
    ensures ShardInv(l, Apply(l, st, ev).0.shards[j])
  {
    assert ShardInv(l, st.shards[j]);
    if j == Route(ev.op, |st.shards|) {
      assert Apply(l, st, ev).0.shards[j] == Step(l, st.shards[j], ev.op, ev.now, st.counter + 1).0;
      StepKeepsInv(l, st.shards[j], ev.op, ev.now, st.counter + 1);
    } else {
      assert Apply(l, st, ev).0.shards[j] == st.shards[j];
    }
  }

  /** Every reachable store keeps keys unique and in their own shard, budgets respected and tokens distinct. */
  lemma ApplyKeepsInv(l: Limits, st: State, ev: Event)
    requires Inv(l, st)
    ensures Inv(l, Apply(l, st, ev).0)
  {
    var t := Apply(l, st, ev).0;
    ApplyKeepsPlaces(l, st, ev);
    forall j | 0 <= j < |t.shards| ensures ShardInv(l, t.shards[j]) {
      ApplyKeepsShard(l, st, ev, j);
    }
  }

  lemma {:induction false} RunKeepsInv(l: Limits, st: State, evs: seq<Event>)
    requires Inv(l, st)
    ensures Inv(l, After(l, st, evs))
    ensures After(l, st, evs).counter >= st.counter
  {
    if evs != [] {
      RunKeepsInv(l, st, evs[..|evs| - 1]);
      ApplyKeepsInv(l, After(l, st, evs[..|evs| - 1]), evs[|evs| - 1]);
    }
  }

  // ----- totals over all shards

  function ItemsIn(shards: seq<Shard>): nat {
    if shards == [] then 0 else ItemsIn(shards[..|shards| - 1]) + |shards[|shards| - 1].entries|
  }

  function MemIn(l: Limits, shards: seq<Shard>): nat {
    if shards == [] then 0 else MemIn(l, shards[..|shards| - 1]) + Mem(l, shards[|shards| - 1].entries)
  }

  function EvictionsIn(shards: seq<Shard>): nat {
    if shards == [] then 0 else EvictionsIn(shards[..|shards| - 1]) + shards[|shards| - 1].evictions
  }

  function ExpirationsIn(shards: seq<Shard>): nat {
    if shards == [] then 0 else ExpirationsIn(shards[..|shards| - 1]) + shards[|shards| - 1].expirations
  }

  /** Changing one shard changes every total by the difference. */
  lemma {:induction false} TotalsUpdate(shards: seq<Shard>, i: nat, s: Shard)
    requires i < |shards|
    ensures ItemsIn(shards[i := s]) == ItemsIn(shards) - |shards[i].entries| + |s.entries|
    ensures EvictionsIn(shards[i := s]) == EvictionsIn(shards) - shards[i].evictions + s.evictions
    ensures ExpirationsIn(shards[i := s]) == ExpirationsIn(shards) - shards[i].expirations + s.expirations
  {
    var last := |shards| - 1;
    if i == last {
      assert shards[i := s][..last] == shards[..last];
    } else {
      TotalsUpdate(shards[..last], i, s);
      assert shards[i := s][..last] == shards[..last][i := s];
    }
  }

  /** A sweep takes as many items out of the store as it reports, all of them as expired. */
  lemma SweepBalances(l: Limits, st: State, i: nat, now: Time, t: State, r: Reply)
    requires i < |st.shards| && Apply(l, st, Event(Cleanup(i), now)) == (t, r)
    ensures r.Removed? && t.counter == st.counter
    ensures ItemsIn(st.shards) - ItemsIn(t.shards) == r.count == ExpirationsIn(t.shards) - ExpirationsIn(st.shards)
    ensures EvictionsIn(t.shards) == EvictionsIn(st.shards)
  {
    SweepCounts(l, st.shards[i], i, now, st.counter + 1);
    TotalsUpdate(st.shards, i, t.shards[i]);
  }

  // ----- tokens

  function Writes(rs: seq<Reply>): nat {
    if rs == [] then 0 else Writes(rs[..|rs| - 1]) + if rs[|rs| - 1].Wrote() then 1 else 0
  }

  /** The counter is the number of successful writes so far. */
  lemma {:induction false} CounterCountsWrites(l: Limits, st: State, evs: seq<Event>)
    requires 0 < |st.shards|
    ensures After(l, st, evs).counter == st.counter + Writes(Replies(l, st, evs))
  {
    if evs != [] {
      var init, rs := evs[..|evs| - 1], Replies(l, st, evs);
      CounterCountsWrites(l, st, init);
      assert rs[..|rs| - 1] == Replies(l, st, init);
    }
  }

  /** A successful write leaves its entry in front of its shard, stamped with the next token. */
  lemma WriteIsStamped(l: Limits, st: State, ev: Event)
    requires Inv(l, st) && Apply(l, st, ev).1.Wrote()
    ensures var t := Apply(l, st, ev).0;
      var es := t.shards[Route(ev.op, |st.shards|)].entries;
      t.counter == st.counter + 1 && es != [] && es[0].key == ev.op.key && es[0].cas == t.counter
  {
    StepIsEffect(l, st.shards[Route(ev.op, |st.shards|)], ev.op, ev.now, st.counter + 1);
  }

  /** In a run from an empty store the successful writes are stamped 1, 2, 3, and so on. */
  lemma TokensInOrder(l: Limits, n: nat, evs: seq<Event>, ev: Event)
    requires 0 < n && Replies(l, Init(n), evs + [ev])[|evs|].Wrote()
    ensures var es := After(l, Init(n), evs + [ev]).shards[Route(ev.op, n)].entries;
      es != [] && es[0].key == ev.op.key && es[0].cas == Writes(Replies(l, Init(n), evs)) + 1
  {
    InitInv(l, n);
    RunKeepsInv(l, Init(n), evs);
    ExtendRun(l, Init(n), evs, ev);
    CounterCountsWrites(l, Init(n), evs);
    WriteIsStamped(l, After(l, Init(n), evs), ev);
  }
}
