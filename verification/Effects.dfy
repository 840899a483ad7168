/**
 * Every operation changes a shard in one of five ways. The theorems about runs
 * argue over these effects instead of over the operations.
 */
module Effects {
  import opened Types
  import opened Decimal
  import opened Cache
  import opened ListLaws
  import opened Eviction

  datatype Effect =
    | Keep                // nothing changes
    | Drop                // the key's entry goes
    | Front(entry: Entry) // the key's entry moves to the front
    | Put(entry: Entry)   // the key gets a new entry, at the cost of others if space is short
    | Sweep               // all expired entries go

  function KeyOf(op: Op): Key {
    if op.Cleanup? then [] else op.key
  }

  function LapseEffect(s: Shard, key: Key, now: Time): Effect {
    match Find(s.entries, key)
    case None => Keep
    case Some(e) => if Expired(e, now) then Drop else Keep
  }

  function PutEffect(l: Limits, e: Entry, otherwise: Effect): Effect {
    if SizeOf(l, e) > l.maxMemoryBytes then otherwise else Put(e)
  }

  function LiveEntry(s: Shard, key: Key, now: Time): Option<Entry> {
    match Find(s.entries, key)
    case None => None
    case Some(e) => if Expired(e, now) then None else Some(e)
  }

  function EffectOf(l: Limits, s: Shard, op: Op, now: Time, cas: nat): Effect {
    if op.Cleanup? then Sweep
    else
      var missing := LapseEffect(s, op.key, now);
      match (op, LiveEntry(s, op.key, now))
      case (Set(key, value, ttl), _) =>
        if |value| > l.maxValueBytes then Keep
        else PutEffect(l, Entry(key, value, ExpiresAt(now, ttl), cas), missing)
      case (Get(_), Some(e)) => Front(e)
      case (Cas(key, value, ttl, expected), Some(e)) =>
        if |value| > l.maxValueBytes || e.cas != expected then Keep
        else PutEffect(l, Entry(key, value, ExpiresAt(now, ttl), cas), Keep)
      case (Cas(_, value, _, _), None) => if |value| > l.maxValueBytes then Keep else missing
      case (Delete(_), Some(_)) => Drop
      case (Incr(key, delta), Some(e)) =>
        (match AddDelta(e.value, delta)
         case Bad(_) => Keep
         case Next(n) =>
           if |Format(n)| > l.maxValueBytes then Keep
           else PutEffect(l, Entry(key, Format(n), e.expiresAt, cas), Keep))
      case (_, None) => missing
  }

  function Perform(l: Limits, s: Shard, key: Key, f: Effect, now: Time): Shard {
    match f
    case Keep => s
    case Drop => s.(entries := Without(s.entries, key))
    case Front(e) => s.(entries := [e] + Without(s.entries, key))
    case Put(e) => Write(l, s, e, now)
    case Sweep => Swept(s, now)
  }

  /** Lazy expiry of the written key makes no difference to a write. */
  lemma WriteAfterLapse(l: Limits, s: Shard, e: Entry, now: Time)
    ensures Write(l, Lapse(s, e.key, now), e, now) == Write(l, s, e, now)
  {
    WithoutTwice(s.entries, e.key);
  }

  lemma LapseFinds(s: Shard, key: Key, now: Time)
    ensures Find(Lapse(s, key, now).entries, key) == LiveEntry(s, key, now)
    ensures Lapse(s, key, now) == Perform(Limits(0, 0, 0), s, key, LapseEffect(s, key, now), now)
    ensures Without(Lapse(s, key, now).entries, key) == Without(s.entries, key)
  {
    FindWithout(s.entries, key, key);
    WithoutTwice(s.entries, key);
  }

  /** What the reply says about the effect. */
  ghost predicate Explains(l: Limits, s: Shard, op: Op, now: Time, cas: nat, f: Effect, r: Reply) {
    && (r.Wrote() <==> f.Put?)
    && (r.Hit? <==> f.Front?)
    && (f.Sweep? <==> op.Cleanup?)
    && (f.Put? ==>
          && f.entry.key == op.key && f.entry.cas == cas && !Expired(f.entry, now)
          && SizeOf(l, f.entry) <= l.maxMemoryBytes)
    && (f.Front? ==> LiveEntry(s, op.key, now) == Some(f.entry) && r == Hit(f.entry.value, f.entry.cas))
    && (f.Drop? ==> Find(s.entries, op.key).Some? && (r.Deleted? <==> LiveEntry(s, op.key, now).Some?))
    && (r.Deleted? ==> f.Drop?)
    && (r.Miss? <==> op.Get? && LiveEntry(s, op.key, now).None?)
  }

  lemma StepIsEffect(l: Limits, s: Shard, op: Op, now: Time, cas: nat)
    ensures var f := EffectOf(l, s, op, now, cas);
      && Step(l, s, op, now, cas).0 == Perform(l, s, KeyOf(op), f, now)
      && Explains(l, s, op, now, cas, f, Step(l, s, op, now, cas).1)
  {
    if !op.Cleanup? {
      LapseFinds(s, op.key, now);
      FindMember(s.entries, op.key);
      var f := EffectOf(l, s, op, now, cas);
      if f.Put? {
        WriteAfterLapse(l, s, f.entry, now);
      }
    }
  }
}
