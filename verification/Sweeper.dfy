/**
 * The background sweeper is invisible: sweeps at any points of any run change
 * no reply, no live value, token or recency order, and no eviction count.
 */
module Sweeper {
  import opened Types
  import opened Cache
  import opened ListLaws
  import opened Eviction
  import opened Effects
  import opened ShardLaws
  import opened Store

  /** Two shards that differ only in entries that have expired by `now`. */
  ghost predicate Agree(s: Shard, t: Shard, now: Time) {
    Live(s.entries, now) == Live(t.entries, now) && s.evictions == t.evictions
  }

  lemma AgreeLater(s: Shard, t: Shard, early: Time, late: Time)
    requires Agree(s, t, early) && early <= late
    ensures Agree(s, t, late)
  {
    LiveLater(s.entries, early, late);
    LiveLater(t.entries, early, late);
  }

  lemma SweepAgrees(l: Limits, s: Shard, t: Shard, op: Op, now: Time, cas: nat)
    requires Agree(s, t, now) && op.Cleanup?
    ensures Agree(Step(l, s, op, now, cas).0, t, now)
  {
    LiveLater(s.entries, now, now);
  }

  lemma LiveEntryLaw(s: Shard, key: Key, now: Time)
    requires Unique(s.entries)
    ensures LiveEntry(s, key, now) == Find(Live(s.entries, now), key)
  {
    FindLive(s.entries, now, key);
  }

  lemma EffectAgrees(l: Limits, s: Shard, t: Shard, op: Op, now: Time, cas: nat)
    requires Unique(s.entries) && Unique(t.entries) && Agree(s, t, now) && !op.Cleanup?
    ensures var f, g := EffectOf(l, s, op, now, cas), EffectOf(l, t, op, now, cas);
      || f == g
      || (f in {Keep, Drop} && g in {Keep, Drop} && LiveEntry(s, op.key, now) == LiveEntry(t, op.key, now) == None)
  {
    LiveEntryLaw(s, op.key, now);
    LiveEntryLaw(t, op.key, now);
  }

  lemma ReplyAgrees(l: Limits, s: Shard, t: Shard, op: Op, now: Time, cas: nat)
    requires Unique(s.entries) && Unique(t.entries) && Agree(s, t, now) && !op.Cleanup?
    ensures Step(l, s, op, now, cas).1 == Step(l, t, op, now, cas).1
  {
    LiveEntryLaw(s, op.key, now);
    LiveEntryLaw(t, op.key, now);
    LapseFinds(s, op.key, now);
    LapseFinds(t, op.key, now);
  }

  /** Dropping a key that has no live entry is no live change. */
  lemma DropNothing(s: Shard, key: Key, now: Time)
    requires Unique(s.entries) && LiveEntry(s, key, now) == None
    ensures Without(Live(s.entries, now), key) == Live(s.entries, now)
  {
    LiveEntryLaw(s, key, now);
    FindMember(Live(s.entries, now), key);
    WithoutAbsent(Live(s.entries, now), key);
  }

  /** Shards that agree answer alike and go on agreeing. */
  lemma StepAgrees(l: Limits, s: Shard, t: Shard, op: Op, now: Time, cas: nat)
    requires Unique(s.entries) && Unique(t.entries) && Agree(s, t, now) && !op.Cleanup?
    ensures Step(l, s, op, now, cas).1 == Step(l, t, op, now, cas).1
    ensures Agree(Step(l, s, op, now, cas).0, Step(l, t, op, now, cas).0, now)
  {
    ReplyAgrees(l, s, t, op, now, cas);
    EffectAgrees(l, s, t, op, now, cas);
    PerformLiveLaw(l, s, op, now, cas);
    PerformLiveLaw(l, t, op, now, cas);
    if LiveEntry(s, op.key, now) == LiveEntry(t, op.key, now) == None {
      DropNothing(s, op.key, now);
      DropNothing(t, op.key, now);
    }
  }

  // ----- whole runs

  /** A run with its sweeps taken out. */
  function Work(evs: seq<Event>): seq<Event> {
    if evs == [] then []
    else
      var init, last := evs[..|evs| - 1], evs[|evs| - 1];
      if last.op.Cleanup? then Work(init) else Work(init) + [last]
  }

  /** The replies clients see: those of everything but sweeps. */
  function ClientReplies(l: Limits, st: State, evs: seq<Event>): seq<Reply>
    requires 0 < |st.shards|
  {
    if evs == [] then []
    else
      var init, last := evs[..|evs| - 1], evs[|evs| - 1];
      var seen := ClientReplies(l, st, init);
      if last.op.Cleanup? then seen else seen + [Apply(l, After(l, st, init), last).1]
  }

  ghost predicate StoresAgree(a: State, b: State, evs: seq<Event>, start: Time) {
    && 0 < |a.shards| == |b.shards|
    && a.counter == b.counter
    && forall i :: 0 <= i < |a.shards| ==> Agree(a.shards[i], b.shards[i], ShardClock(evs, i, |a.shards|, start))
  }

  /** For every run: its client replies, tokens and live contents are those of the run without sweeps. */
  lemma {:induction false} SweepsAreInvisible(l: Limits, st: State, evs: seq<Event>, start: Time)
    requires Inv(l, st) && Clocked(evs, |st.shards|, start)
    ensures ClientReplies(l, st, evs) == Replies(l, st, Work(evs))
    ensures StoresAgree(After(l, st, evs), After(l, st, Work(evs)), evs, start)
  {
    if evs != [] {
      var n, init, last := |st.shards|, evs[..|evs| - 1], evs[|evs| - 1];
      assert evs == init + [last];
      Extend(init, last, n, start);
      SweepsAreInvisible(l, st, init, start);
      RunKeepsInv(l, st, init);
      RunKeepsInv(l, st, Work(init));
      var a, b := After(l, st, init), After(l, st, Work(init));
      ApplyAgrees(l, a, b, last, ShardClock(init, Route(last.op, n), n, start));
      ExtendRun(l, st, Work(init), last);
    }
  }

  /** One event, seen at shard `j`. */
  lemma ApplyAgrees(l: Limits, a: State, b: State, ev: Event, clock: Time)
    requires Inv(l, a) && Inv(l, b) && |a.shards| == |b.shards| && a.counter == b.counter && clock <= ev.now
    requires var i := Route(ev.op, |a.shards|); Agree(a.shards[i], b.shards[i], clock)
    ensures var i := Route(ev.op, |a.shards|);
      var t := Apply(l, a, ev).0;
      if ev.op.Cleanup? then
        Agree(t.shards[i], b.shards[i], ev.now) && t.counter == a.counter
      else
        && Apply(l, a, ev).1 == Apply(l, b, ev).1
        && Agree(t.shards[i], Apply(l, b, ev).0.shards[i], ev.now)
  {
    var i, cas := Route(ev.op, |a.shards|), a.counter + 1;
    var s, t := a.shards[i], b.shards[i];
    AgreeLater(s, t, clock, ev.now);
    assert ShardInv(l, s) && ShardInv(l, t);
    assert Apply(l, a, ev).0.shards[i] == Step(l, s, ev.op, ev.now, cas).0;
    if ev.op.Cleanup? {
      SweepAgrees(l, s, t, ev.op, ev.now, cas);
    } else {
      StepAgrees(l, s, t, ev.op, ev.now, cas);
      assert Apply(l, b, ev).0.shards[i] == Step(l, t, ev.op, ev.now, cas).0;
    }
  }

  lemma AgreeThrough(s: Shard, t: Shard, u: Shard, a: Time, b: Time, now: Time)
    requires Agree(s, u, a) && Agree(t, u, b) && a <= now && b <= now
    ensures Agree(s, t, now)
  {
    AgreeLater(s, u, a, now);
    AgreeLater(t, u, b, now);
  }

  /** Two runs that differ only in where they sweep have the same replies and the same live contents. */
  lemma AnySweepSchedule(l: Limits, st: State, evs: seq<Event>, others: seq<Event>, start: Time)
    requires Inv(l, st) && Work(evs) == Work(others)
    requires Clocked(evs, |st.shards|, start) && Clocked(others, |st.shards|, start)
    ensures ClientReplies(l, st, evs) == ClientReplies(l, st, others)
    ensures After(l, st, evs).counter == After(l, st, others).counter
    ensures forall i, now ::
      && 0 <= i < |st.shards|
      && ShardClock(evs, i, |st.shards|, start) <= now && ShardClock(others, i, |st.shards|, start) <= now
      ==> Agree(After(l, st, evs).shards[i], After(l, st, others).shards[i], now)
  {
    var n := |st.shards|;
    SweepsAreInvisible(l, st, evs, start);
    SweepsAreInvisible(l, st, others, start);
    var a, b, c := After(l, st, evs), After(l, st, others), After(l, st, Work(evs));
    forall i, now | 0 <= i < n && ShardClock(evs, i, n, start) <= now && ShardClock(others, i, n, start) <= now
      ensures Agree(a.shards[i], b.shards[i], now)
    {
      AgreeThrough(a.shards[i], b.shards[i], c.shards[i],
                   ShardClock(evs, i, n, start), ShardClock(others, i, n, start), now);
    }
  }

  // ----- the eager cache

  /** The run of a cache that expires eagerly: it sweeps a shard before every operation on it. */
  function Eager(evs: seq<Event>, n: nat): seq<Event>
    requires 0 < n
  {
    if evs == [] then []
    else
      var init, last := evs[..|evs| - 1], evs[|evs| - 1];
      Eager(init, n) + [Event(Cleanup(Route(last.op, n)), last.now), last]
  }

  lemma SweepRoute(i: nat, n: nat)
    requires i < n
    ensures Route(Cleanup(i), n) == i
  {
  }

  lemma WorkExtend(evs: seq<Event>, ev: Event)
    ensures Work(evs + [ev]) == if ev.op.Cleanup? then Work(evs) else Work(evs) + [ev]
  {
    assert (evs + [ev])[..|evs|] == evs;
  }

  lemma {:induction false} EagerRun(evs: seq<Event>, n: nat, start: Time)
    requires 0 < n && Clocked(evs, n, start)
    ensures Clocked(Eager(evs, n), n, start)
    ensures Work(Eager(evs, n)) == Work(evs)
    ensures forall i :: 0 <= i < n ==> ShardClock(Eager(evs, n), i, n, start) == ShardClock(evs, i, n, start)
  {
    if evs != [] {
      var init, last := evs[..|evs| - 1], evs[|evs| - 1];
      var i := Route(last.op, n);
      var sweep := Event(Cleanup(i), last.now);
      var e0 := Eager(init, n);
      var e1 := e0 + [sweep];
      var e2 := e1 + [last];
      EagerRun(init, n, start);
      SweepRoute(i, n);
      assert evs == init + [last] && Eager(evs, n) == e2;
      Extend(init, last, n, start);
      Extend(e0, sweep, n, start);
      Extend(e1, last, n, start);
      WorkExtend(init, last);
      WorkExtend(e0, sweep);
      WorkExtend(e1, last);
    }
  }

  /** Lazy expiry, pressure-time expiry and background sweeping all refine the eager cache. */
  lemma LazyRefinesEager(l: Limits, st: State, evs: seq<Event>, start: Time)
    requires Inv(l, st) && Clocked(evs, |st.shards|, start)
    ensures ClientReplies(l, st, evs) == ClientReplies(l, st, Eager(evs, |st.shards|))
    ensures StoresAgree(After(l, st, evs), After(l, st, Eager(evs, |st.shards|)), evs, start)
  {
    var eager := Eager(evs, |st.shards|);
    EagerRun(evs, |st.shards|, start);
    SweepsAreInvisible(l, st, evs, start);
    SweepsAreInvisible(l, st, eager, start);
  }
}
