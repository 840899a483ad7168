/** What a write costs: which entries it evicts, and what a failed write leaves alone. */
module Pressure {
  import opened Types
  import opened Cache
  import opened ListLaws
  import opened Effects
  import opened ShardLaws
  import opened Sweeper
  import opened Store

  /** The live entries that compete with a write under `key`, most recent first. */
  function Rivals(s: Shard, key: Key, now: Time): seq<Entry> {
    Without(Live(s.entries, now), key)
  }

  /** The rivals that stay when `e` is written. */
  function Keepers(l: Limits, s: Shard, e: Entry, now: Time): seq<Entry> {
    Fit(l, Rivals(s, e.key, now), l.maxMemoryBytes - SizeOf(l, e))
  }

  /** The entries an operation evicts, most recent first. */
  function Victims(l: Limits, s: Shard, op: Op, now: Time, cas: nat): seq<Entry> {
    match EffectOf(l, s, op, now, cas)
    case Put(e) => Rivals(s, e.key, now)[|Keepers(l, s, e, now)|..]
    case _ => []
  }

  lemma KeepersAreLongestRun(l: Limits, s: Shard, e: Entry, now: Time)
    requires SizeOf(l, e) <= l.maxMemoryBytes
    ensures var rivals, kept := Rivals(s, e.key, now), Keepers(l, s, e, now);
      var victims := rivals[|kept|..];
      && rivals == kept + victims
      && Mem(l, kept) + SizeOf(l, e) <= l.maxMemoryBytes
      && (victims != [] ==> Mem(l, kept + victims[..1]) + SizeOf(l, e) > l.maxMemoryBytes)
  {
    var rivals, kept := Rivals(s, e.key, now), Keepers(l, s, e, now);
    FitLongest(l, rivals, l.maxMemoryBytes - SizeOf(l, e));
    if |kept| < |rivals| {
      assert kept + rivals[|kept|..][..1] == rivals[..|kept| + 1];
    }
  }

  /**
   * The victims are the shortest least recent run of rivals whose removal makes
   * room: the rest fits beside the new entry, and would not if it also kept the
   * most recent victim. The eviction counter counts exactly them.
   */
  lemma VictimsAreShortestRun(l: Limits, s: Shard, op: Op, now: Time, cas: nat)
    ensures var (t, r) := Step(l, s, op, now, cas);
      var victims := Victims(l, s, op, now, cas);
      && t.evictions == s.evictions + |victims|
      && (victims != [] ==>
            && r.Wrote() && t.entries != []
            && exists kept ::
                && Rivals(s, op.key, now) == kept + victims
                && Live(t.entries, now) == [t.entries[0]] + kept
                && Mem(l, kept) + SizeOf(l, t.entries[0]) <= l.maxMemoryBytes
                && Mem(l, kept + victims[..1]) + SizeOf(l, t.entries[0]) > l.maxMemoryBytes)
  {
    StepIsEffect(l, s, op, now, cas);
    PerformLiveLaw(l, s, op, now, cas);
    var f := EffectOf(l, s, op, now, cas);
    if f.Put? {
      KeepersAreLongestRun(l, s, f.entry, now);
    }
  }

  /** Nothing else is evicted: a live entry of another key that disappears is a victim, and conversely. */
  lemma VictimsAreTheMissing(l: Limits, s: Shard, op: Op, now: Time, cas: nat, e: Entry)
    requires ShardInv(l, s) && e in s.entries && (op.Cleanup? || e.key != op.key) && !Expired(e, now)
    ensures e in Victims(l, s, op, now, cas) <==> e !in Step(l, s, op, now, cas).0.entries
  {
    StepIsEffect(l, s, op, now, cas);
    PerformLiveLaw(l, s, op, now, cas);
    var t, f, live := Step(l, s, op, now, cas).0, EffectOf(l, s, op, now, cas), Live(s.entries, now);
    LiveMember(s.entries, now, e);
    LiveMember(t.entries, now, e);
    if f.Put? {
      RivalIsKeptOrVictim(l, s, f.entry, now, e);
    } else if !op.Cleanup? {
      WithoutMember(live, op.key, e);
    }
  }

  lemma RivalIsKeptOrVictim(l: Limits, s: Shard, p: Entry, now: Time, e: Entry)
    requires Unique(s.entries) && SizeOf(l, p) <= l.maxMemoryBytes
    requires e in Live(s.entries, now) && e.key != p.key
    ensures e in Keepers(l, s, p, now) <==> e !in Rivals(s, p.key, now)[|Keepers(l, s, p, now)|..]
  {
    var live := Live(s.entries, now);
    WithoutMember(live, p.key, e);
    LiveUnique(s.entries, now);
    WithoutUnique(live, p.key);
    KeepersAreLongestRun(l, s, p, now);
    InOnePart(Rivals(s, p.key, now), |Keepers(l, s, p, now)|, e);
  }

  /** A member of a list without repeated keys is on exactly one side of a cut. */
  lemma InOnePart(es: seq<Entry>, n: nat, e: Entry)
    requires Unique(es) && n <= |es| && e in es
    ensures e in es[..n] <==> e !in es[n..]
  {
    assert es == es[..n] + es[n..];
  }

  /** No live entry is evicted while an expired one remains in the shard. */
  lemma ExpiredGoFirst(l: Limits, s: Shard, op: Op, now: Time, cas: nat)
    requires Victims(l, s, op, now, cas) != []
    ensures var t := Step(l, s, op, now, cas).0; Live(t.entries, now) == t.entries
  {
    StepIsEffect(l, s, op, now, cas);
    var e := EffectOf(l, s, op, now, cas).entry;
    var others, size := Without(s.entries, e.key), SizeOf(l, e);
    LiveWithout(s.entries, now, e.key);
    if !Pressed(l, others, size) {
      MemLive(l, others, now);
      FitWhole(l, Live(others, now), l.maxMemoryBytes - size);
      assert false;
    }
    forall x | x in Live(others, now) ensures !Expired(x, now) { LiveMember(others, now, x); }
    FitLive(l, Live(others, now), now, l.maxMemoryBytes - size);
    LiveConcat([e], Survivors(l, others, size, now), now);
  }

  /** An operation that does not succeed leaves the live contents, their order and all counters alone. */
  lemma FailureChangesNothing(l: Limits, s: Shard, op: Op, now: Time, cas: nat)
    requires ShardInv(l, s) && Step(l, s, op, now, cas).1.Failed?
    ensures var t := Step(l, s, op, now, cas).0;
      && Live(t.entries, now) == Live(s.entries, now)
      && t.evictions == s.evictions && t.expirations == s.expirations
  {
    StepIsEffect(l, s, op, now, cas);
    PerformLiveLaw(l, s, op, now, cas);
    var f := EffectOf(l, s, op, now, cas);
    if f.Drop? {
      DropNothing(s, op.key, now);
    }
  }

  /** The same for the whole store: no shard changes visibly, and no token is used up. */
  lemma FailureLeavesStore(l: Limits, st: State, ev: Event, i: nat)
    requires Inv(l, st) && Apply(l, st, ev).1.Failed? && i < |st.shards|
    ensures var t := Apply(l, st, ev).0;
      && t.counter == st.counter
      && Live(t.shards[i].entries, ev.now) == Live(st.shards[i].entries, ev.now)
      && t.shards[i].evictions == st.shards[i].evictions && t.shards[i].expirations == st.shards[i].expirations
  {
    assert ShardInv(l, st.shards[i]);
    if i == Route(ev.op, |st.shards|) {
      FailureChangesNothing(l, st.shards[i], ev.op, ev.now, st.counter + 1);
    }
  }
}
