/** What every operation keeps in one shard, and what it does to the entries that are still live. */
module ShardLaws {
  import opened Types
  import opened Sequences
  import opened Cache
  import opened ListLaws
  import opened Eviction
  import opened Effects

  ghost predicate ShardInv(l: Limits, s: Shard) {
    Unique(s.entries) && Mem(l, s.entries) <= l.maxMemoryBytes
  }

  // ----- the shard invariant

  lemma FrontUnique(e: Entry, others: seq<Entry>)
    requires Unique(others) && forall f :: f in others ==> f.key != e.key
    ensures Unique([e] + others)
  {
    assert forall i :: 0 <= i < |others| ==> others[i] in others;
  }

  lemma FrontMem(l: Limits, e: Entry, others: seq<Entry>)
    ensures Mem(l, [e] + others) == SizeOf(l, e) + Mem(l, others)
  {
    assert ([e] + others)[1..] == others;
  }

  lemma SurvivorsLaws(l: Limits, others: seq<Entry>, size: nat, now: Time)
    requires Unique(others) && size <= l.maxMemoryBytes
    ensures var kept := Survivors(l, others, size, now);
      && Unique(kept) && Mem(l, kept) + size <= l.maxMemoryBytes
      && forall e :: e in kept ==> e in others
  {
    if Pressed(l, others, size) {
      LiveUnique(others, now);
      FitMember(l, Live(others, now), l.maxMemoryBytes - size);
      FitLongest(l, Live(others, now), l.maxMemoryBytes - size);
    }
  }

  /** Neither the uniqueness of keys nor the memory budget is ever violated. */
  lemma StepKeepsInv(l: Limits, s: Shard, op: Op, now: Time, cas: nat)
    requires ShardInv(l, s)
    ensures ShardInv(l, Step(l, s, op, now, cas).0)
  {
    StepIsEffect(l, s, op, now, cas);
    var f, key := EffectOf(l, s, op, now, cas), KeyOf(op);
    var others := Without(s.entries, key);
    WithoutUnique(s.entries, key);
    match f {
      case Keep =>
      case Drop => AccountWithout(l, s.entries, key);
      case Front(e) =>
        AccountWithout(l, s.entries, key);
        FindMember(s.entries, key);
        FrontUnique(e, others);
        FrontMem(l, e, others);
      case Put(e) =>
        SurvivorsLaws(l, others, SizeOf(l, e), now);
        FrontUnique(e, Survivors(l, others, SizeOf(l, e), now));
        FrontMem(l, e, Survivors(l, others, SizeOf(l, e), now));
      case Sweep =>
        LiveUnique(s.entries, now);
        MemLive(l, s.entries, now);
    }
  }

  /** Where the entries of the next state come from. */
  lemma StepMembers(l: Limits, s: Shard, op: Op, now: Time, cas: nat, e: Entry)
    requires ShardInv(l, s)
    requires e in Step(l, s, op, now, cas).0.entries
    ensures var (t, r) := Step(l, s, op, now, cas);
      && (r.Wrote() && e.key == op.key ==> e == t.entries[0] && e.cas == cas)
      && (e in s.entries || (r.Wrote() && e.key == op.key))
      && (r.Deleted? ==> e.key != op.key)
  {
    StepIsEffect(l, s, op, now, cas);
    var f, key := EffectOf(l, s, op, now, cas), KeyOf(op);
    var others := Without(s.entries, key);
    WithoutUnique(s.entries, key);
    match f {
      case Keep =>
      case Drop =>
      case Front(_) => FindMember(s.entries, key);
      case Put(p) => SurvivorsLaws(l, others, SizeOf(l, p), now);
      case Sweep => LiveMember(s.entries, now, e);
    }
  }

  /** The entries whose deadline has passed. */
  function Overdue(es: seq<Entry>, now: Time): seq<Entry> {
    if es == [] then []
    else (if Expired(es[0], now) then [es[0]] else []) + Overdue(es[1..], now)
  }

  lemma {:induction false} OverdueOrLive(es: seq<Entry>, now: Time)
    ensures |Overdue(es, now)| + |Live(es, now)| == |es|
  {
    if es != [] {
      OverdueOrLive(es[1..], now);
    }
  }

  /** A sweep reports how many entries it removed, which is how many were overdue, and counts them as expired. */
  lemma SweepCounts(l: Limits, s: Shard, shard: nat, now: Time, cas: nat)
    ensures var (t, r) := Step(l, s, Cleanup(shard), now, cas);
      && r == Removed(|Overdue(s.entries, now)|)
      && |s.entries| - |t.entries| == r.count == t.expirations - s.expirations
      && t.evictions == s.evictions
  {
    OverdueOrLive(s.entries, now);
  }

  /** The token a write would be stamped with influences nothing else. */
  lemma TokenFree(l: Limits, s: Shard, op: Op, now: Time, a: nat, b: nat)
    ensures Step(l, s, op, now, a).1 == Step(l, s, op, now, b).1
    ensures !Step(l, s, op, now, a).1.Wrote() ==> Step(l, s, op, now, a) == Step(l, s, op, now, b)
  {
  }

  // ----- live entries

  /** The live part of a shard after an effect, computed from the live part before it. */
  function PerformLive(l: Limits, live: seq<Entry>, key: Key, f: Effect): seq<Entry> {
    match f
    case Keep => live
    case Drop => Without(live, key)
    case Front(e) => [e] + Without(live, key)
    case Put(e) => [e] + Fit(l, Without(live, key), l.maxMemoryBytes - SizeOf(l, e))
    case Sweep => live
  }

  lemma FitLive(l: Limits, es: seq<Entry>, now: Time, budget: int)
    requires forall e :: e in es ==> !Expired(e, now)
    ensures Live(Fit(l, es, budget), now) == Fit(l, es, budget)
  {
    FitLongest(l, es, budget);
    var kept := Fit(l, es, budget);
    assert kept == es[..|kept|];
    LiveAll(kept, now);
  }

  /** Whether or not a write meets pressure, its live survivors and its eviction count are the same. */
  lemma WriteLive(l: Limits, s: Shard, e: Entry, now: Time)
    requires !Expired(e, now)
    ensures var t := Write(l, s, e, now);
      var live := Without(Live(s.entries, now), e.key);
      var kept := Fit(l, live, l.maxMemoryBytes - SizeOf(l, e));
      && Live(t.entries, now) == [e] + kept
      && t.evictions == s.evictions + |live| - |kept|
  {
    var others, size := Without(s.entries, e.key), SizeOf(l, e);
    var kept := Survivors(l, others, size, now);
    LiveWithout(s.entries, now, e.key);
    LiveConcat([e], kept, now);
    if Pressed(l, others, size) {
      forall x | x in Live(others, now) ensures !Expired(x, now) { LiveMember(others, now, x); }
      FitLive(l, Live(others, now), now, l.maxMemoryBytes - size);
    } else {
      MemLive(l, others, now);
      FitWhole(l, Live(others, now), l.maxMemoryBytes - size);
    }
  }

  lemma PerformLiveLaw(l: Limits, s: Shard, op: Op, now: Time, cas: nat)
    ensures var f := EffectOf(l, s, op, now, cas);
      var live := Live(s.entries, now);
      var t := Step(l, s, op, now, cas).0;
      && Live(t.entries, now) == PerformLive(l, live, KeyOf(op), f)
      && t.evictions == s.evictions + (if f.Put? then |Without(live, op.key)| + 1 - |Live(t.entries, now)| else 0)
  {
    StepIsEffect(l, s, op, now, cas);
    var f, key := EffectOf(l, s, op, now, cas), KeyOf(op);
    LiveWithout(s.entries, now, key);
    match f {
      case Keep =>
      case Drop =>
      case Front(e) => LiveConcat([e], Without(s.entries, key), now);
      case Put(e) => WriteLive(l, s, e, now);
      case Sweep => LiveLater(s.entries, now, now);
    }
  }
}
