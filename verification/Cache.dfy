/**
 * The sequential meaning of one shard: a list of entries, most recently used
 * first, and the result of every operation as a function of that list, the
 * clock reading and the token the write would be stamped with.
 */
module Cache {
  import opened Types
  import opened Decimal

  datatype Limits = Limits(maxValueBytes: nat, maxMemoryBytes: nat, overheadBytes: nat)

  datatype Entry = Entry(key: Key, value: Bytes, expiresAt: Time, cas: nat)

  datatype Shard = Shard(entries: seq<Entry>, evictions: nat, expirations: nat)

  datatype Error = NotFound | NotInteger | Overflow | ValueTooLarge | MemoryLimitExceeded | CasMismatch

  /** `Cleanup` names a shard instead of a key: the sweeper visits shards one by one. */
  datatype Op =
    | Set(key: Key, value: Bytes, ttl: int)
    | Get(key: Key)
    | Cas(key: Key, value: Bytes, ttl: int, expected: nat)
    | Delete(key: Key)
    | Incr(key: Key, delta: nat)
    | Cleanup(shard: nat)

  datatype Reply =
    | Stored
    | Hit(value: Bytes, cas: nat)
    | Miss
    | Deleted
    | Absent
    | Counted(total: nat)
    | Removed(count: nat)
    | Failed(error: Error)
  {
    /** Replies of the operations that stamp a new token. */
    predicate Wrote() {
      Stored? || Counted?
    }
  }

  // ----- accounting

  function ItemSize(l: Limits, key: Key, valueBytes: nat): nat {
    |key| + valueBytes + l.overheadBytes
  }

  function SizeOf(l: Limits, e: Entry): nat {
    ItemSize(l, e.key, |e.value|)
  }

  /** What `memoryBytes` has to be. */
  function Mem(l: Limits, es: seq<Entry>): nat {
    if es == [] then 0 else SizeOf(l, es[0]) + Mem(l, es[1..])
  }

  /** What `ttlCount` has to be. */
  function TtlCount(es: seq<Entry>): nat {
    if es == [] then 0 else (if es[0].expiresAt != 0 then 1 else 0) + TtlCount(es[1..])
  }

  // ----- time

  function ExpiresAt(now: Time, ttl: int): Time {
    if ttl <= 0 then 0 else now + ttl
  }

  predicate PastDeadline(expiresAt: Time, now: Time) {
    expiresAt != 0 && expiresAt <= now
  }

  predicate Expired(e: Entry, now: Time) {
    PastDeadline(e.expiresAt, now)
  }

  // ----- the recency list

  predicate Unique(es: seq<Entry>) {
    forall i, j :: 0 <= i < j < |es| ==> es[i].key != es[j].key
  }

  function Find(es: seq<Entry>, key: Key): Option<Entry> {
    if es == [] then None else if es[0].key == key then Some(es[0]) else Find(es[1..], key)
  }

  function Without(es: seq<Entry>, key: Key): seq<Entry> {
    if es == [] then []
    else if es[0].key == key then Without(es[1..], key)
    else [es[0]] + Without(es[1..], key)
  }

  function Live(es: seq<Entry>, now: Time): seq<Entry> {
    if es == [] then []
    else if Expired(es[0], now) then Live(es[1..], now)
    else [es[0]] + Live(es[1..], now)
  }

  /** Drops entries from the least recent end until at most `budget` bytes are left. */
  function Fit(l: Limits, es: seq<Entry>, budget: int): (kept: seq<Entry>)
    ensures |kept| <= |es|
  {
    if es == [] || Mem(l, es) <= budget then es else Fit(l, es[..|es| - 1], budget)
  }

  // ----- operations

  /** Lazy expiry: an operation that looks a key up drops it when its deadline has passed. */
  function Lapse(s: Shard, key: Key, now: Time): Shard {
    match Find(s.entries, key)
    case None => s
    case Some(e) => if Expired(e, now) then s.(entries := Without(s.entries, key)) else s
  }

  function Touch(s: Shard, e: Entry): Shard {
    s.(entries := [e] + Without(s.entries, e.key))
  }

  /** A write of `size` bytes next to `others` would overrun the budget. */
  predicate Pressed(l: Limits, others: seq<Entry>, size: nat) {
    Mem(l, others) + size > l.maxMemoryBytes
  }

  /** The other entries that survive such a write: expired ones go first, then the least recent. */
  function Survivors(l: Limits, others: seq<Entry>, size: nat, now: Time): seq<Entry> {
    if Pressed(l, others, size) then Fit(l, Live(others, now), l.maxMemoryBytes - size) else others
  }

  function Write(l: Limits, s: Shard, e: Entry, now: Time): Shard {
    var others := Without(s.entries, e.key);
    var kept := Survivors(l, others, SizeOf(l, e), now);
    if Pressed(l, others, SizeOf(l, e)) then
      LiveIsShorter(others, now);
      Shard([e] + kept,
            s.evictions + |Live(others, now)| - |kept|,
            s.expirations + |others| - |Live(others, now)|)
    else
      s.(entries := [e] + kept)
  }

  lemma LiveIsShorter(es: seq<Entry>, now: Time)
    ensures |Live(es, now)| <= |es|
  {
  }

  function Put(l: Limits, s: Shard, e: Entry, now: Time, ok: Reply): (Shard, Reply) {
    if SizeOf(l, e) > l.maxMemoryBytes then (s, Failed(MemoryLimitExceeded)) else (Write(l, s, e, now), ok)
  }

  datatype Sum = Next(value: nat) | Bad(error: Error)

  /** The counter arithmetic of `incr` on stored text. */
  function AddDelta(text: Bytes, delta: nat): Sum {
    if !IsDecimal(text) then Bad(NotInteger)
    else match ParseUint(text)
      case None => Bad(NotInteger)
      case Some(current) =>
        if MAX_UINT64 - current < delta then Bad(Overflow) else Next(current + delta)
  }

  function Step(l: Limits, s: Shard, op: Op, now: Time, cas: nat): (Shard, Reply) {
    match op
    case Set(key, value, ttl) =>
      if |value| > l.maxValueBytes then (s, Failed(ValueTooLarge))
      else Put(l, Lapse(s, key, now), Entry(key, value, ExpiresAt(now, ttl), cas), now, Stored)
    case Get(key) =>
      var s1 := Lapse(s, key, now);
      (match Find(s1.entries, key)
       case None => (s1, Miss)
       case Some(e) => (Touch(s1, e), Hit(e.value, e.cas)))
    case Cas(key, value, ttl, expected) =>
      if |value| > l.maxValueBytes then (s, Failed(ValueTooLarge))
      else
        var s1 := Lapse(s, key, now);
        (match Find(s1.entries, key)
         case None => (s1, Failed(NotFound))
         case Some(prior) =>
           if prior.cas != expected then (s1, Failed(CasMismatch))
           else Put(l, s1, Entry(key, value, ExpiresAt(now, ttl), cas), now, Stored))
    case Delete(key) =>
      var s1 := Lapse(s, key, now);
      (match Find(s1.entries, key)
       case None => (s1, Absent)
       case Some(_) => (s1.(entries := Without(s1.entries, key)), Deleted))
    case Incr(key, delta) =>
      var s1 := Lapse(s, key, now);
      (match Find(s1.entries, key)
       case None => (s1, Failed(NotFound))
       case Some(prior) =>
         match AddDelta(prior.value, delta)
         case Bad(error) => (s1, Failed(error))
         case Next(n) =>
           if |Format(n)| > l.maxValueBytes then (s1, Failed(ValueTooLarge))
           else Put(l, s1, Entry(key, Format(n), prior.expiresAt, cas), now, Counted(n)))
    case Cleanup(_) =>
      LiveIsShorter(s.entries, now);
      var removed := |s.entries| - |Live(s.entries, now)|;
      (s.(entries := Live(s.entries, now), expirations := s.expirations + removed), Removed(removed))
  }
}
