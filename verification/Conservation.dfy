/** Where items go: everything ever inserted is still present or was removed in one counted way. */
module Conservation {
  import opened Types
  import opened Cache
  import opened ListLaws
  import opened Eviction
  import opened Effects
  import opened ShardLaws
  import opened Store

  /** Insertions, explicit deletions, and removals by lazy expiry, which no counter of the store records. */
  datatype Tally = Tally(inserted: nat, deleted: nat, lapsed: nat)

  /** A write inserts when its key holds no live entry. */
  predicate Inserts(s: Shard, ev: Event, r: Reply) {
    r.Wrote() && !ev.op.Cleanup? && LiveEntry(s, ev.op.key, ev.now).None?
  }

  /** An operation removes its own expired key, unless it was turned away before it looked. */
  predicate Lapses(l: Limits, s: Shard, ev: Event) {
    && !ev.op.Cleanup?
    && !((ev.op.Set? || ev.op.Cas?) && |ev.op.value| > l.maxValueBytes)
    && Find(s.entries, ev.op.key).Some? && Expired(Find(s.entries, ev.op.key).value, ev.now)
  }

  function Count(t: Tally, l: Limits, s: Shard, ev: Event, r: Reply): Tally {
    Tally(t.inserted + (if Inserts(s, ev, r) then 1 else 0),
          t.deleted + (if r.Deleted? then 1 else 0),
          t.lapsed + (if Lapses(l, s, ev) then 1 else 0))
  }

  function TallyOf(l: Limits, n: nat, evs: seq<Event>): Tally
    requires 0 < n
  {
    if evs == [] then Tally(0, 0, 0)
    else
      var init, last := evs[..|evs| - 1], evs[|evs| - 1];
      var st := After(l, Init(n), init);
      Count(TallyOf(l, n, init), l, st.shards[Route(last.op, n)], last, Apply(l, st, last).1)
  }

  /** Items present, evicted and expired in one shard. */
  function Disposed(s: Shard): nat {
    |s.entries| + s.evictions + s.expirations
  }

  function DisposedIn(shards: seq<Shard>): nat {
    ItemsIn(shards) + EvictionsIn(shards) + ExpirationsIn(shards)
  }

  lemma EffectBalances(l: Limits, s: Shard, key: Key, f: Effect, now: Time)
    requires Unique(s.entries)
    requires f.Front? || f.Put? ==> f.entry.key == key
    ensures var had := if Find(s.entries, key).Some? then 1 else 0;
      Disposed(Perform(l, s, key, f, now))
      == Disposed(s) + (match f case Keep => 0 case Sweep => 0 case Drop => -had case _ => 1 - had)
  {
    LengthWithout(s.entries, key);
    if f.Put? {
      WriteBalances(l, s, f.entry, now);
    }
  }

  lemma WriteBalances(l: Limits, s: Shard, e: Entry, now: Time)
    ensures Disposed(Write(l, s, e, now)) == |Without(s.entries, e.key)| + 1 + s.evictions + s.expirations
  {
  }

  /** One operation: what it inserts and removes accounts for the change. */
  lemma StepBalances(l: Limits, s: Shard, ev: Event, cas: nat)
    requires ShardInv(l, s)
    ensures var (t, r) := Step(l, s, ev.op, ev.now, cas);
      Disposed(t) + (if r.Deleted? then 1 else 0) + (if Lapses(l, s, ev) then 1 else 0)
      == Disposed(s) + (if Inserts(s, ev, r) then 1 else 0)
  {
    StepIsEffect(l, s, ev.op, ev.now, cas);
    var f := EffectOf(l, s, ev.op, ev.now, cas);
    if f.Front? {
      FindMember(s.entries, ev.op.key);
    }
    EffectBalances(l, s, KeyOf(ev.op), f, ev.now);
  }

  /** Over any run: inserted equals present plus evicted plus swept plus deleted plus lapsed. */
  lemma {:induction false} NothingIsLost(l: Limits, n: nat, evs: seq<Event>)
    requires 0 < n
    ensures var t, shards := TallyOf(l, n, evs), After(l, Init(n), evs).shards;
      t.inserted == ItemsIn(shards) + EvictionsIn(shards) + ExpirationsIn(shards) + t.deleted + t.lapsed
  {
    if evs == [] {
      NothingAtFirst(n);
    } else {
      var init, last := evs[..|evs| - 1], evs[|evs| - 1];
      NothingIsLost(l, n, init);
      InitInv(l, n);
      RunKeepsInv(l, Init(n), init);
      assert ShardInv(l, After(l, Init(n), init).shards[Route(last.op, n)]);
      ApplyBalances(l, After(l, Init(n), init), last, TallyOf(l, n, init));
    }
  }

  lemma ApplyBalances(l: Limits, st: State, ev: Event, t: Tally)
    requires 0 < |st.shards| && ShardInv(l, st.shards[Route(ev.op, |st.shards|)])
    requires t.inserted == DisposedIn(st.shards) + t.deleted + t.lapsed
    ensures var t' := Count(t, l, st.shards[Route(ev.op, |st.shards|)], ev, Apply(l, st, ev).1);
      t'.inserted == DisposedIn(Apply(l, st, ev).0.shards) + t'.deleted + t'.lapsed
  {
    var i := Route(ev.op, |st.shards|);
    var s := st.shards[i];
    StepBalances(l, s, ev, st.counter + 1);
    TotalsUpdate(st.shards, i, Step(l, s, ev.op, ev.now, st.counter + 1).0);
  }

  lemma {:induction false} NothingAtFirst(n: nat)
    ensures ItemsIn(Init(n).shards) == EvictionsIn(Init(n).shards) == ExpirationsIn(Init(n).shards) == 0
  {
    if n > 0 {
      NothingAtFirst(n - 1);
      assert Init(n).shards[..n - 1] == Init(n - 1).shards;
    }
  }
}
