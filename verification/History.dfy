/**
 * The store against an unbounded map that remembers every successful write:
 * hits always agree with it, and every miss has a reason. The map and the
 * reasons are followed key by key.
 */
module History {
  import opened Types
  import opened Decimal
  import opened Hash
  import opened Cache
  import opened ListLaws
  import opened Effects
  import opened ShardLaws
  import opened Sweeper
  import opened Pressure
  import opened Store

  predicate Concerns(op: Op, key: Key) {
    !op.Cleanup? && op.key == key
  }

  /** What an operation on a key makes of that key in the unbounded map, going by its reply alone. */
  function Record(latest: Option<Entry>, ev: Event, r: Reply, token: nat): Option<Entry>
    requires !ev.op.Cleanup?
  {
    match (ev.op, r)
    case (Set(key, value, ttl), Stored) => Some(Entry(key, value, ExpiresAt(ev.now, ttl), token))
    case (Cas(key, value, ttl, _), Stored) => Some(Entry(key, value, ExpiresAt(ev.now, ttl), token))
    case (Incr(key, _), Counted(total)) =>
      Some(Entry(key, Format(total), if latest.Some? then latest.value.expiresAt else 0, token))
    case (_, Deleted) => None
    case _ => latest
  }

  predicate Evicts(l: Limits, s: Shard, ev: Event, cas: nat, key: Key) {
    exists v :: v in Victims(l, s, ev.op, ev.now, cas) && v.key == key
  }

  /** How an event on a shard changes what is known about a key. */
  function Relate(l: Limits, s: Shard, ev: Event, cas: nat, key: Key, latest: Option<Entry>): Option<Entry> {
    if Concerns(ev.op, key) then Record(latest, ev, Step(l, s, ev.op, ev.now, cas).1, cas) else latest
  }

  predicate Loses(l: Limits, s: Shard, ev: Event, cas: nat, key: Key, lost: bool) {
    var r := Step(l, s, ev.op, ev.now, cas).1;
    if Concerns(ev.op, key) then lost && !r.Wrote() && !r.Deleted? else lost || Evicts(l, s, ev, cas, key)
  }

  function RelateIn(l: Limits, st: State, ev: Event, key: Key, latest: Option<Entry>): Option<Entry>
    requires 0 < |st.shards|
  {
    Relate(l, st.shards[Route(ev.op, |st.shards|)], ev, st.counter + 1, key, latest)
  }

  predicate LosesIn(l: Limits, st: State, ev: Event, key: Key, lost: bool)
    requires 0 < |st.shards|
  {
    Loses(l, st.shards[Route(ev.op, |st.shards|)], ev, st.counter + 1, key, lost)
  }

  /** The unbounded map at one key after a run. */
  function Latest(l: Limits, n: nat, evs: seq<Event>, key: Key): Option<Entry>
    requires 0 < n
  {
    if evs == [] then None
    else
      var init, last := evs[..|evs| - 1], evs[|evs| - 1];
      RelateIn(l, After(l, Init(n), init), last, key, Latest(l, n, init, key))
  }

  /** The key was evicted and has not been written or deleted since. */
  predicate Lost(l: Limits, n: nat, evs: seq<Event>, key: Key)
    requires 0 < n
  {
    evs != [] &&
    (var init, last := evs[..|evs| - 1], evs[|evs| - 1];
     LosesIn(l, After(l, Init(n), init), last, key, Lost(l, n, init, key)))
  }

  /**
   * A cached entry is the latest write. A written key is cached, or was
   * evicted, or has expired by its shard's clock. An evicted key is not cached.
   */
  ghost predicate Justified(s: Shard, key: Key, latest: Option<Entry>, lost: bool, clock: Time) {
    && (Find(s.entries, key).Some? ==> latest == Find(s.entries, key))
    && (latest.Some? ==> Find(s.entries, key).Some? || lost || Expired(latest.value, clock))
    && (lost ==> Find(s.entries, key).None?)
  }

  lemma VictimsCameFrom(l: Limits, s: Shard, op: Op, now: Time, cas: nat, v: Entry)
    requires v in Victims(l, s, op, now, cas)
    ensures v in s.entries && !Expired(v, now) && !op.Cleanup? && v.key != op.key
  {
    StepIsEffect(l, s, op, now, cas);
    WithoutMember(Live(s.entries, now), op.key, v);
    LiveMember(s.entries, now, v);
  }

  /** An operation on another key leaves a reason for everything it takes away, and brings nothing back. */
  lemma OtherKey(l: Limits, s: Shard, ev: Event, cas: nat, key: Key)
    requires ShardInv(l, s) && !Concerns(ev.op, key)
    ensures var before, after := Find(s.entries, key), Find(Step(l, s, ev.op, ev.now, cas).0.entries, key);
      && (after.Some? ==> after == before && !Evicts(l, s, ev, cas, key))
      && (before.Some? && after.None? ==> Evicts(l, s, ev, cas, key) || Expired(before.value, ev.now))
  {
    var op, now, t := ev.op, ev.now, Step(l, s, ev.op, ev.now, cas).0;
    FindMember(s.entries, key);
    FindMember(t.entries, key);
    if Find(t.entries, key).Some? {
      var f := Find(t.entries, key).value;
      StepMembers(l, s, op, now, cas, f);
      FindUnique(s.entries, f);
      forall v | v in Victims(l, s, op, now, cas) ensures v.key != key {
        VictimsCameFrom(l, s, op, now, cas, v);
        VictimsAreTheMissing(l, s, op, now, cas, v);
        FindUnique(s.entries, v);
      }
    } else if Find(s.entries, key).Some? && !Expired(Find(s.entries, key).value, now) {
      VictimsAreTheMissing(l, s, op, now, cas, Find(s.entries, key).value);
    }
  }

  /** An operation records its own key truthfully, and drops it unasked only when it has expired. */
  lemma OwnKey(l: Limits, s: Shard, ev: Event, cas: nat, latest: Option<Entry>)
    requires ShardInv(l, s) && !ev.op.Cleanup?
    requires Find(s.entries, ev.op.key).Some? ==> latest == Find(s.entries, ev.op.key)
    ensures var (t, r) := Step(l, s, ev.op, ev.now, cas);
      var before, after := Find(s.entries, ev.op.key), Find(t.entries, ev.op.key);
      && (r.Wrote() ==> after.Some?)
      && (r.Deleted? ==> after.None? && Record(latest, ev, r, cas).None?)
      && (!r.Wrote() && !r.Deleted? ==> Record(latest, ev, r, cas) == latest)
      && (after.Some? ==> after == Record(latest, ev, r, cas))
      && (!r.Wrote() && before.None? ==> after.None?)
      && (!r.Wrote() && !r.Deleted? && before.Some? && after.None? ==> Expired(before.value, ev.now))
  {
    StepIsEffect(l, s, ev.op, ev.now, cas);
    LapseFinds(s, ev.op.key, ev.now);
    FindMember(s.entries, ev.op.key);
    FindWithout(s.entries, ev.op.key, ev.op.key);
  }

  /** One event keeps a key of the same shard justified. */
  lemma StepJustifies(
      l: Limits, s: Shard, ev: Event, cas: nat, key: Key, latest: Option<Entry>, lost: bool, clock: Time)
    requires ShardInv(l, s) && Justified(s, key, latest, lost, clock) && clock <= ev.now
    ensures Justified(Step(l, s, ev.op, ev.now, cas).0, key,
                      Relate(l, s, ev, cas, key, latest), Loses(l, s, ev, cas, key, lost), ev.now)
  {
    if Concerns(ev.op, key) {
      OwnKey(l, s, ev, cas, latest);
    } else {
      OtherKey(l, s, ev, cas, key);
    }
  }

  /** An operation on another shard has no say about a key. */
  lemma Elsewhere(l: Limits, st: State, ev: Event, key: Key, latest: Option<Entry>, lost: bool)
    requires Inv(l, st) && ShardIndex(key, |st.shards|) != Route(ev.op, |st.shards|)
    ensures Apply(l, st, ev).0.shards[ShardIndex(key, |st.shards|)] == st.shards[ShardIndex(key, |st.shards|)]
    ensures RelateIn(l, st, ev, key, latest) == latest
    ensures LosesIn(l, st, ev, key, lost) == lost
  {
    var k := Route(ev.op, |st.shards|);
    forall v | v in Victims(l, st.shards[k], ev.op, ev.now, st.counter + 1) ensures v.key != key {
      VictimsCameFrom(l, st.shards[k], ev.op, ev.now, st.counter + 1, v);
      assert In(st, k, v);
    }
  }

  lemma Here(l: Limits, st: State, ev: Event, i: nat, key: Key, latest: Option<Entry>, lost: bool)
    requires i < |st.shards| && i == Route(ev.op, |st.shards|)
    ensures Apply(l, st, ev).0.shards[i] == Step(l, st.shards[i], ev.op, ev.now, st.counter + 1).0
    ensures RelateIn(l, st, ev, key, latest) == Relate(l, st.shards[i], ev, st.counter + 1, key, latest)
    ensures LosesIn(l, st, ev, key, lost) == Loses(l, st.shards[i], ev, st.counter + 1, key, lost)
  {
  }

  lemma ApplyJustifies(l: Limits, st: State, ev: Event, key: Key, latest: Option<Entry>, lost: bool, clock: Time)
    requires Inv(l, st)
    requires var i := ShardIndex(key, |st.shards|);
      Justified(st.shards[i], key, latest, lost, clock) && (i == Route(ev.op, |st.shards|) ==> clock <= ev.now)
    ensures var i := ShardIndex(key, |st.shards|);
      Justified(Apply(l, st, ev).0.shards[i], key, RelateIn(l, st, ev, key, latest), LosesIn(l, st, ev, key, lost),
                if i == Route(ev.op, |st.shards|) then ev.now else clock)
  {
    var i := ShardIndex(key, |st.shards|);
    if i == Route(ev.op, |st.shards|) {
      assert ShardInv(l, st.shards[i]);
      Here(l, st, ev, i, key, latest, lost);
      StepJustifies(l, st.shards[i], ev, st.counter + 1, key, latest, lost, clock);
    } else {
      Elsewhere(l, st, ev, key, latest, lost);
    }
  }

  /** In every reachable state every key is justified. */
  lemma {:induction false} RunJustifies(l: Limits, n: nat, evs: seq<Event>, key: Key)
    requires 0 < n && Clocked(evs, n, 0)
    ensures var i := ShardIndex(key, n);
      Justified(After(l, Init(n), evs).shards[i], key,
                Latest(l, n, evs, key), Lost(l, n, evs, key), ShardClock(evs, i, n, 0))
  {
    if evs != [] {
      var init, last, i := evs[..|evs| - 1], evs[|evs| - 1], ShardIndex(key, n);
      RunJustifies(l, n, init, key);
      InitInv(l, n);
      RunKeepsInv(l, Init(n), init);
      ApplyJustifies(l, After(l, Init(n), init), last, key,
                     Latest(l, n, init, key), Lost(l, n, init, key), ShardClock(init, i, n, 0));
    }
  }

  /**
   * A read hits exactly when the key was written and not deleted, has not
   * expired, and was not evicted since; a hit returns the value and token of
   * the latest successful write.
   */
  lemma ReadsAgreeWithLatest(l: Limits, n: nat, evs: seq<Event>, key: Key, now: Time)
    requires 0 < n && Clocked(evs + [Event(Get(key), now)], n, 0)
    ensures var latest := Latest(l, n, evs, key);
      Apply(l, After(l, Init(n), evs), Event(Get(key), now)).1
      == if latest.Some? && !Expired(latest.value, now) && !Lost(l, n, evs, key)
         then Hit(latest.value.value, latest.value.cas) else Miss
  {
    var st, i := After(l, Init(n), evs), ShardIndex(key, n);
    Extend(evs, Event(Get(key), now), n, 0);
    RunJustifies(l, n, evs, key);
    LapseFinds(st.shards[i], key, now);
  }
}
