/** LRU is exact within a shard: lists are ordered by last touch, and victims are the longest untouched. */
module Recency {
  import opened Types
  import opened Hash
  import opened Cache
  import opened ListLaws
  import opened Effects
  import opened ShardLaws
  import opened Pressure
  import opened Store
  import opened History

  /** An operation touches its key when it reads it successfully or writes it. */
  predicate Touches(op: Op, r: Reply, key: Key) {
    Concerns(op, key) && (r.Wrote() || r.Hit?)
  }

  /** The number of the event that last touched a key; 0 if none did. */
  function Touched(l: Limits, n: nat, evs: seq<Event>, key: Key): (stamp: nat)
    requires 0 < n
    ensures stamp <= |evs|
  {
    if evs == [] then 0
    else
      var init, last := evs[..|evs| - 1], evs[|evs| - 1];
      if Touches(last.op, Apply(l, After(l, Init(n), init), last).1, key) then |evs| else Touched(l, n, init, key)
  }

  /** Strictly decreasing by stamp: most recently touched first. */
  ghost predicate Ordered(stamp: Key -> nat, es: seq<Entry>) {
    es == [] || ((forall e :: e in es[1..] ==> stamp(e.key) < stamp(es[0].key)) && Ordered(stamp, es[1..]))
  }

  lemma {:induction false} OrderedWithout(stamp: Key -> nat, es: seq<Entry>, key: Key)
    requires Ordered(stamp, es)
    ensures Ordered(stamp, Without(es, key))
  {
    if es != [] {
      OrderedWithout(stamp, es[1..], key);
      forall e | e in Without(es[1..], key) ensures e in es[1..] { WithoutMember(es[1..], key, e); }
    }
  }

  lemma {:induction false} OrderedLive(stamp: Key -> nat, es: seq<Entry>, now: Time)
    requires Ordered(stamp, es)
    ensures Ordered(stamp, Live(es, now))
  {
    if es != [] {
      OrderedLive(stamp, es[1..], now);
      forall e | e in Live(es[1..], now) ensures e in es[1..] { LiveMember(es[1..], now, e); }
    }
  }

  lemma {:induction false} OrderedSplit(stamp: Key -> nat, a: seq<Entry>, b: seq<Entry>)
    requires Ordered(stamp, a + b)
    ensures Ordered(stamp, a)
    ensures forall e, f :: e in a && f in b ==> stamp(f.key) < stamp(e.key)
  {
    if a != [] {
      var c := a + b;
      assert c[0] == a[0] && c[1..] == a[1..] + b;
      OrderedSplit(stamp, a[1..], b);
      forall e | e in a[1..] ensures stamp(e.key) < stamp(a[0].key) { assert e in c[1..]; }
      forall e, f | e in a && f in b ensures stamp(f.key) < stamp(e.key) {
        if e == a[0] {
          assert f in c[1..];
        } else {
          assert e in a[1..];
        }
      }
    }
  }

  lemma OrderedFit(stamp: Key -> nat, l: Limits, es: seq<Entry>, budget: int)
    requires Ordered(stamp, es)
    ensures Ordered(stamp, Fit(l, es, budget))
  {
    FitLongest(l, es, budget);
    var kept := Fit(l, es, budget);
    assert es == kept + es[|kept|..];
    OrderedSplit(stamp, kept, es[|kept|..]);
  }

  lemma {:induction false} OrderedSame(before: Key -> nat, after: Key -> nat, es: seq<Entry>)
    requires Ordered(before, es) && forall e :: e in es ==> after(e.key) == before(e.key)
    ensures Ordered(after, es)
  {
    if es != [] {
      assert es == [es[0]] + es[1..];
      OrderedSame(before, after, es[1..]);
    }
  }

  lemma OrderedFront(before: Key -> nat, after: Key -> nat, e: Entry, others: seq<Entry>)
    requires Ordered(before, others)
    requires forall f :: f in others ==> after(f.key) == before(f.key) < after(e.key)
    ensures Ordered(after, [e] + others)
  {
    OrderedSame(before, after, others);
    assert ([e] + others)[1..] == others;
  }

  ghost predicate Restamps(before: Key -> nat, after: Key -> nat, key: Key) {
    (forall k :: before(k) < after(key)) && (forall k :: k != key ==> after(k) == before(k))
  }

  lemma SurvivorsKeepOrder(stamp: Key -> nat, l: Limits, others: seq<Entry>, size: nat, now: Time)
    requires Ordered(stamp, others)
    ensures Ordered(stamp, Survivors(l, others, size, now))
  {
    if Pressed(l, others, size) {
      OrderedLive(stamp, others, now);
      OrderedFit(stamp, l, Live(others, now), l.maxMemoryBytes - size);
    }
  }

  lemma WriteKeepsOrder(l: Limits, s: Shard, e: Entry, now: Time, before: Key -> nat, after: Key -> nat)
    requires Unique(s.entries) && SizeOf(l, e) <= l.maxMemoryBytes
    requires Ordered(before, s.entries) && Restamps(before, after, e.key)
    ensures Ordered(after, Write(l, s, e, now).entries)
  {
    var others, size := Without(s.entries, e.key), SizeOf(l, e);
    OrderedWithout(before, s.entries, e.key);
    WithoutUnique(s.entries, e.key);
    SurvivorsLaws(l, others, size, now);
    SurvivorsKeepOrder(before, l, others, size, now);
    OrderedFront(before, after, e, Survivors(l, others, size, now));
  }

  /** An effect keeps its shard ordered, with its own key stamped latest if it moves to the front. */
  lemma PerformKeepsOrder(l: Limits, s: Shard, key: Key, f: Effect, now: Time, before: Key -> nat, after: Key -> nat)
    requires Unique(s.entries) && Ordered(before, s.entries)
    requires f.Put? || f.Front? ==> f.entry.key == key && Restamps(before, after, key)
    requires f.Put? ==> SizeOf(l, f.entry) <= l.maxMemoryBytes
    requires f.Put? || f.Front? || forall k :: after(k) == before(k)
    ensures Ordered(after, Perform(l, s, key, f, now).entries)
  {
    var others := Without(s.entries, key);
    OrderedWithout(before, s.entries, key);
    match f {
      case Keep => OrderedSame(before, after, s.entries);
      case Drop => OrderedSame(before, after, others);
      case Front(e) =>
        WithoutUnique(s.entries, key);
        OrderedFront(before, after, e, others);
      case Put(e) => WriteKeepsOrder(l, s, e, now, before, after);
      case Sweep =>
        OrderedLive(before, s.entries, now);
        OrderedSame(before, after, Live(s.entries, now));
    }
  }

  /** An operation keeps its shard ordered, with its own key stamped latest if it touched it. */
  lemma StepKeepsOrder(l: Limits, s: Shard, ev: Event, cas: nat, before: Key -> nat, after: Key -> nat)
    requires ShardInv(l, s) && Ordered(before, s.entries)
    requires var r := Step(l, s, ev.op, ev.now, cas).1;
      if r.Wrote() || r.Hit? then Restamps(before, after, KeyOf(ev.op)) else forall k :: after(k) == before(k)
    ensures Ordered(after, Step(l, s, ev.op, ev.now, cas).0.entries)
  {
    StepIsEffect(l, s, ev.op, ev.now, cas);
    var f := EffectOf(l, s, ev.op, ev.now, cas);
    if f.Front? {
      FindMember(s.entries, ev.op.key);
    }
    PerformKeepsOrder(l, s, KeyOf(ev.op), f, ev.now, before, after);
  }

  /** In every reachable state each shard's list is strictly ordered by last touch. */
  lemma {:induction false} ListsAreOrdered(l: Limits, n: nat, evs: seq<Event>, i: nat)
    requires i < n
    ensures Ordered(key => Touched(l, n, evs, key), After(l, Init(n), evs).shards[i].entries)
  {
    if evs != [] {
      var init, last := evs[..|evs| - 1], evs[|evs| - 1];
      ListsAreOrdered(l, n, init, i);
      InitInv(l, n);
      RunKeepsInv(l, Init(n), init);
      ApplyKeepsOrder(l, After(l, Init(n), init), last, i,
                      key => Touched(l, n, init, key), key => Touched(l, n, evs, key));
    }
  }

  lemma ApplyKeepsOrder(l: Limits, st: State, ev: Event, i: nat, before: Key -> nat, after: Key -> nat)
    requires Inv(l, st) && i < |st.shards| && Ordered(before, st.shards[i].entries)
    requires var r := Apply(l, st, ev).1;
      if r.Wrote() || r.Hit? then Restamps(before, after, KeyOf(ev.op)) else forall k :: after(k) == before(k)
    ensures Ordered(after, Apply(l, st, ev).0.shards[i].entries)
  {
    if i == Route(ev.op, |st.shards|) {
      assert ShardInv(l, st.shards[i]);
      StepKeepsOrder(l, st.shards[i], ev, st.counter + 1, before, after);
    } else {
      forall e | e in st.shards[i].entries ensures after(e.key) == before(e.key) { assert In(st, i, e); }
      OrderedSame(before, after, st.shards[i].entries);
    }
  }

  /** The event evicts one entry and leaves another, of another key than its own, in the same shard. */
  ghost predicate Chooses(l: Limits, st: State, ev: Event, victim: Entry, survivor: Entry)
    requires 0 < |st.shards|
  {
    var s := st.shards[Route(ev.op, |st.shards|)];
    && victim in Victims(l, s, ev.op, ev.now, st.counter + 1)
    && survivor in Step(l, s, ev.op, ev.now, st.counter + 1).0.entries && survivor.key != KeyOf(ev.op)
  }

  /** Every survivor other than the written key was touched later than every victim. */
  lemma VictimsAreLeastRecent(l: Limits, n: nat, evs: seq<Event>, ev: Event, victim: Entry, survivor: Entry)
    requires 0 < n && Chooses(l, After(l, Init(n), evs), ev, victim, survivor)
    ensures Touched(l, n, evs, victim.key) < Touched(l, n, evs, survivor.key)
  {
    ListsAreOrdered(l, n, evs, Route(ev.op, n));
    VictimsAreOldest(l, After(l, Init(n), evs), ev, key => Touched(l, n, evs, key), victim, survivor);
  }

  lemma VictimsAreOldest(l: Limits, st: State, ev: Event, stamp: Key -> nat, victim: Entry, survivor: Entry)
    requires 0 < |st.shards| && Chooses(l, st, ev, victim, survivor)
    requires Ordered(stamp, st.shards[Route(ev.op, |st.shards|)].entries)
    ensures stamp(victim.key) < stamp(survivor.key)
  {
    var s, cas := st.shards[Route(ev.op, |st.shards|)], st.counter + 1;
    StepIsEffect(l, s, ev.op, ev.now, cas);
    ExpiredGoFirst(l, s, ev.op, ev.now, cas);
    PerformLiveLaw(l, s, ev.op, ev.now, cas);
    var e := EffectOf(l, s, ev.op, ev.now, cas).entry;
    OrderedLive(stamp, s.entries, ev.now);
    OrderedWithout(stamp, Live(s.entries, ev.now), e.key);
    KeepersAreLongestRun(l, s, e, ev.now);
    var kept := Keepers(l, s, e, ev.now);
    OrderedSplit(stamp, kept, Rivals(s, e.key, ev.now)[|kept|..]);
  }
}
