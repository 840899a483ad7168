/** Pressure: what sweeping and evicting around a protected key leaves of a recency list. */
module Eviction {
  import opened Types
  import opened Sequences
  import opened Cache
  import opened ListLaws

  /** Dropping the last entry of a list that does not fit does not change what is kept. */
  lemma FitSnoc(l: Limits, es: seq<Entry>, last: Entry, budget: int)
    ensures Mem(l, es + [last]) == Mem(l, es) + SizeOf(l, last)
    ensures Mem(l, es + [last]) > budget ==> Fit(l, es + [last], budget) == Fit(l, es, budget)
  {
    MemConcat(l, es, [last]);
    assert (es + [last])[..|es|] == es;
  }

  /** Taking out the least recent unprotected entry shortens the unprotected part by its last entry. */
  lemma VictimIsLast(es: seq<Entry>, key: Key, i: nat)
    requires Unique(es) && i < |es| && es[i].key != key
    requires i == |es| - 1 || (i == |es| - 2 && es[|es| - 1].key == key)
    ensures Without(es, key) == Without(Cut(es, i), key) + [es[i]]
    ensures Find(Cut(es, i), key) == Find(es, key)
  {
    var a, m, b := es[..i], [es[i]], es[i + 1..];
    assert es == a + m + b;
    WithoutConcat(a + m, b, key);
    WithoutConcat(a, m, key);
    WithoutConcat(a, b, key);
    assert Without(b, key) == [];
    WithoutAt(es, i);
    FindWithout(es, es[i].key, key);
  }

  lemma {:induction false} NoVictim(es: seq<Entry>, key: Key)
    requires forall e :: e in es ==> e.key == key
    ensures Without(es, key) == []
  {
    if es != [] {
      assert es[0] in es;
      NoVictim(es[1..], key);
    }
  }

  /** A full sweep, as the sweeper and the pressure path perform it. */
  function Swept(s: Shard, now: Time): Shard {
    LiveIsShorter(s.entries, now);
    s.(entries := Live(s.entries, now), expirations := s.expirations + |s.entries| - |Live(s.entries, now)|)
  }

  /** The bytes in use once `size` bytes are written under `key` and nothing else changes. */
  function Projected(l: Limits, es: seq<Entry>, key: Key, size: nat): nat {
    Mem(l, Without(es, key)) + size
  }

  /** `t` is `s` after evicting around `key` until `size` more bytes fit, or nothing is left to evict. */
  ghost predicate Evicted(l: Limits, s: Shard, t: Shard, key: Key, size: nat) {
    && Find(t.entries, key) == Find(s.entries, key)
    && Without(t.entries, key) == Fit(l, Without(s.entries, key), l.maxMemoryBytes - size)
    && t.evictions == s.evictions + |s.entries| - |t.entries|
    && t.expirations == s.expirations
  }

  /** Evicting nothing is the right outcome when the write already fits. */
  lemma NothingToEvict(l: Limits, s: Shard, key: Key, size: nat)
    requires Projected(l, s.entries, key, size) <= l.maxMemoryBytes
    ensures Evicted(l, s, s, key, size)
  {
  }

  lemma LengthWithout(es: seq<Entry>, key: Key)
    requires Unique(es)
    ensures |Without(es, key)| == |es| - if Find(es, key).Some? then 1 else 0
  {
    AccountWithout(Limits(0, 0, 0), es, key);
  }

  /** A sweep spares an unexpired key and takes the rest of its toll from the others. */
  lemma SweptEntries(es: seq<Entry>, key: Key, now: Time)
    requires Unique(es)
    requires Find(es, key).Some? ==> !Expired(Find(es, key).value, now)
    ensures var live := Live(es, now);
      && Unique(live) && Find(live, key) == Find(es, key)
      && Without(live, key) == Live(Without(es, key), now)
      && |es| - |live| == |Without(es, key)| - |Without(live, key)|
  {
    LiveUnique(es, now);
    FindLive(es, now, key);
    LiveWithout(es, now, key);
    LengthWithout(es, key);
    LengthWithout(Live(es, now), key);
  }

  /** `t` is `s` after the pressure logic made room for `size` bytes under `key`. */
  ghost predicate Cleared(l: Limits, s: Shard, t: Shard, key: Key, size: nat, now: Time) {
    if Projected(l, s.entries, key, size) <= l.maxMemoryBytes then t == s else Evicted(l, Swept(s, now), t, key, size)
  }

  /** Making room and then writing at the front is the closed form `Write`. */
  lemma ClearedThenWrite(l: Limits, s: Shard, t: Shard, e: Entry, now: Time)
    requires Unique(s.entries) && Unique(t.entries)
    requires Find(s.entries, e.key).Some? ==> !Expired(Find(s.entries, e.key).value, now)
    requires Cleared(l, s, t, e.key, SizeOf(l, e), now)
    ensures Find(t.entries, e.key) == Find(s.entries, e.key)
    ensures Write(l, s, e, now) == t.(entries := [e] + Without(t.entries, e.key))
  {
    if Pressed(l, Without(s.entries, e.key), SizeOf(l, e)) {
      SweptEntries(s.entries, e.key, now);
      LengthWithout(Live(s.entries, now), e.key);
      LengthWithout(t.entries, e.key);
    }
  }
}
