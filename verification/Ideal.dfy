/**
 * The cache against an unbounded map, for every operation: a reply depends only
 * on the latest write of its key, unless that was evicted, and on the limits.
 * Neither memory pressure nor expired entries nor other keys have a say.
 */
module Ideal {
  import opened Types
  import opened Decimal
  import opened Hash
  import opened Cache
  import opened ListLaws
  import opened Effects
  import opened Store
  import opened History
  import opened Increments

  /** What an operation answers when its key holds `live`. */
  function IdealReply(l: Limits, live: Option<Entry>, op: Op): Reply
    requires !op.Cleanup?
  {
    match op
    case Get(_) => if live.Some? then Hit(live.value.value, live.value.cas) else Miss
    case Delete(_) => if live.Some? then Deleted else Absent
    case Set(key, value, _) => WriteReply(l, key, value)
    case Cas(key, value, _, expected) =>
      if |value| > l.maxValueBytes then Failed(ValueTooLarge)
      else if live.None? then Failed(NotFound)
      else if live.value.cas != expected then Failed(CasMismatch)
      else WriteReply(l, key, value)
    case Incr(key, delta) =>
      if live.None? then Failed(NotFound) else Answer(l, key, live.value.value, delta)
  }

  function WriteReply(l: Limits, key: Key, value: Bytes): Reply {
    if |value| > l.maxValueBytes then Failed(ValueTooLarge)
    else if |key| + |value| + l.overheadBytes > l.maxMemoryBytes then Failed(MemoryLimitExceeded)
    else Stored
  }

  lemma StepIsIdeal(l: Limits, s: Shard, op: Op, now: Time, cas: nat)
    requires !op.Cleanup?
    ensures Step(l, s, op, now, cas).1 == IdealReply(l, LiveEntry(s, op.key, now), op)
  {
    LapseFinds(s, op.key, now);
  }

  /** The latest write of a key, if it has not expired and was not evicted since. */
  function Visible(l: Limits, n: nat, evs: seq<Event>, key: Key, now: Time): Option<Entry>
    requires 0 < n
  {
    var latest := Latest(l, n, evs, key);
    if latest.Some? && !Expired(latest.value, now) && !Lost(l, n, evs, key) then latest else None
  }

  lemma VisibleIsLive(l: Limits, n: nat, evs: seq<Event>, ev: Event)
    requires 0 < n && !ev.op.Cleanup? && Clocked(evs + [ev], n, 0)
    ensures LiveEntry(After(l, Init(n), evs).shards[ShardIndex(ev.op.key, n)], ev.op.key, ev.now)
         == Visible(l, n, evs, ev.op.key, ev.now)
  {
    Extend(evs, ev, n, 0);
    RunJustifies(l, n, evs, ev.op.key);
  }

  /** In every run, whatever was evicted or has expired in it, every operation answers as the unbounded map says. */
  lemma RepliesAreIdeal(l: Limits, n: nat, evs: seq<Event>, ev: Event)
    requires 0 < n && !ev.op.Cleanup? && Clocked(evs + [ev], n, 0)
    ensures Apply(l, After(l, Init(n), evs), ev).1 == IdealReply(l, Visible(l, n, evs, ev.op.key, ev.now), ev.op)
  {
    var st, i := After(l, Init(n), evs), ShardIndex(ev.op.key, n);
    VisibleIsLive(l, n, evs, ev);
    StepIsIdeal(l, st.shards[i], ev.op, ev.now, st.counter + 1);
  }

  // ----- how long a value is visible

  /** An event that neither writes nor deletes the key; it may read it, or fail to write it. */
  ghost predicate Leaves(l: Limits, n: nat, before: seq<Event>, ev: Event, key: Key)
    requires 0 < n
  {
    Concerns(ev.op, key) ==>
      var r := Apply(l, After(l, Init(n), before), ev).1; !r.Wrote() && !r.Deleted?
  }

  lemma LatestStays(l: Limits, n: nat, before: seq<Event>, ev: Event, key: Key)
    requires 0 < n && Leaves(l, n, before, ev, key)
    ensures Latest(l, n, before + [ev], key) == Latest(l, n, before, key)
  {
    assert (before + [ev])[..|before|] == before;
    RecordStays(l, After(l, Init(n), before), ev, key, Latest(l, n, before, key));
  }

  lemma RecordStays(l: Limits, st: State, ev: Event, key: Key, latest: Option<Entry>)
    requires 0 < |st.shards|
    requires Concerns(ev.op, key) ==> !Apply(l, st, ev).1.Wrote() && !Apply(l, st, ev).1.Deleted?
    ensures RelateIn(l, st, ev, key, latest) == latest
  {
  }

  /** What no event changes, a run of such events does not change. */
  lemma {:induction false} StaysThrough<T>(f: seq<Event> -> T, before: seq<Event>, more: seq<Event>)
    requires forall j {:trigger more[j]} ::
      0 <= j < |more| ==> f(before + more[..j] + [more[j]]) == f(before + more[..j])
    ensures f(before + more) == f(before)
  {
    if more == [] {
      assert before + more == before;
    } else {
      var init, last := more[..|more| - 1], more[|more| - 1];
      forall j | 0 <= j < |init| ensures f(before + init[..j] + [init[j]]) == f(before + init[..j]) {
        assert init[..j] == more[..j] && init[j] == more[j];
      }
      StaysThrough(f, before, init);
      assert more[..|init|] == init;
      assert before + more == before + init + [last];
    }
  }

  lemma LatestStaysThrough(l: Limits, n: nat, before: seq<Event>, more: seq<Event>, key: Key)
    requires 0 < n && forall j :: 0 <= j < |more| ==> Leaves(l, n, before + more[..j], more[j], key)
    ensures Latest(l, n, before + more, key) == Latest(l, n, before, key)
  {
    var f := evs => Latest(l, n, evs, key);
    forall j | 0 <= j < |more| ensures f(before + more[..j] + [more[j]]) == f(before + more[..j]) {
      LatestStays(l, n, before + more[..j], more[j], key);
    }
    StaysThrough(f, before, more);
  }

  lemma LatestAfterSet(l: Limits, n: nat, evs: seq<Event>, key: Key, value: Bytes, ttl: int, now: Time)
    requires 0 < n && Apply(l, After(l, Init(n), evs), Event(Set(key, value, ttl), now)).1 == Stored
    ensures Latest(l, n, evs + [Event(Set(key, value, ttl), now)], key)
         == Some(Entry(key, value, ExpiresAt(now, ttl), After(l, Init(n), evs).counter + 1))
  {
    assert (evs + [Event(Set(key, value, ttl), now)])[..|evs|] == evs;
    RecordSet(l, After(l, Init(n), evs), key, value, ttl, now, Latest(l, n, evs, key));
  }

  lemma RecordSet(l: Limits, st: State, key: Key, value: Bytes, ttl: int, now: Time, latest: Option<Entry>)
    requires 0 < |st.shards| && Apply(l, st, Event(Set(key, value, ttl), now)).1 == Stored
    ensures RelateIn(l, st, Event(Set(key, value, ttl), now), key, latest)
         == Some(Entry(key, value, ExpiresAt(now, ttl), st.counter + 1))
  {
  }

  /**
   * A stored value stays visible through any events that do not write or delete
   * its key, unless one of them evicts it, until exactly its deadline; without a
   * positive TTL it has none.
   */
  lemma VisibleUntilDeadline(
      l: Limits, n: nat, evs: seq<Event>, key: Key, value: Bytes, ttl: int, now: Time, more: seq<Event>, later: Time)
    requires 0 < n && Apply(l, After(l, Init(n), evs), Event(Set(key, value, ttl), now)).1 == Stored
    requires var before := evs + [Event(Set(key, value, ttl), now)];
      forall j :: 0 <= j < |more| ==> Leaves(l, n, before + more[..j], more[j], key)
    ensures var all := evs + [Event(Set(key, value, ttl), now)] + more;
      Visible(l, n, all, key, later) ==
      if !Lost(l, n, all, key) && (ttl <= 0 || later < now + ttl)
      then Some(Entry(key, value, ExpiresAt(now, ttl), After(l, Init(n), evs).counter + 1)) else None
  {
    LatestAfterSet(l, n, evs, key, value, ttl, now);
    LatestStaysThrough(l, n, evs + [Event(Set(key, value, ttl), now)], more, key);
  }
}
