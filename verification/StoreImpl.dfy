/** The store as it runs: an array of shards that share one token counter. */
module StoreImpl {
  import opened Types
  import opened Hash
  import opened Cache
  import opened Lru
  import opened ShardImpl
  import opened ShardLaws
  import opened Store

  datatype Config = Config(maxValueBytes: int, maxMemoryBytes: int, itemOverheadBytes: int, shards: int)

  const DEFAULTS := Config(1024 * 1024, 64 * 1024 * 1024, 64, 16)

  predicate Usable(c: Config) {
    c.maxValueBytes > 0 && c.maxMemoryBytes > 0 && c.itemOverheadBytes >= 0 && c.shards > 0
  }

  /** Values that make no sense are replaced by defaults, and a usable configuration is left as it is. */
  function Normalize(c: Config): (d: Config)
    ensures Usable(d) && (Usable(c) ==> d == c)
    ensures c.maxValueBytes > 0 ==> d.maxValueBytes == c.maxValueBytes
    ensures c.maxMemoryBytes > 0 ==> d.maxMemoryBytes == c.maxMemoryBytes
    ensures c.itemOverheadBytes >= 0 ==> d.itemOverheadBytes == c.itemOverheadBytes
    ensures c.shards > 0 ==> d.shards == c.shards
  {
    Config(if c.maxValueBytes <= 0 then DEFAULTS.maxValueBytes else c.maxValueBytes,
           if c.maxMemoryBytes <= 0 then DEFAULTS.maxMemoryBytes else c.maxMemoryBytes,
           if c.itemOverheadBytes < 0 then DEFAULTS.itemOverheadBytes else c.itemOverheadBytes,
           if c.shards <= 0 then DEFAULTS.shards else c.shards)
  }

  /** The limits of one shard. */
  function ShardLimits(c: Config): Limits
    requires Usable(c)
  {
    var perShard := c.maxMemoryBytes / c.shards;
    Limits(c.maxValueBytes, if perShard < 1 then 1 else perShard, c.itemOverheadBytes)
  }

  /**
   * The limits of one shard in terms of the configuration: value size and
   * overhead as configured, and an equal share of the budget, rounded down but
   * at least one byte.
   */
  ghost predicate SplitOf(c: Config, l: Limits) {
    && l.maxValueBytes == c.maxValueBytes && l.overheadBytes == c.itemOverheadBytes && 1 <= l.maxMemoryBytes
    && (c.maxMemoryBytes >= c.shards ==>
          c.shards * l.maxMemoryBytes <= c.maxMemoryBytes < c.shards * (l.maxMemoryBytes + 1))
    && (c.maxMemoryBytes < c.shards ==> l.maxMemoryBytes == 1)
  }

  lemma SplitIsEven(c: Config)
    requires Usable(c)
    ensures SplitOf(c, ShardLimits(c))
  {
    var per := c.maxMemoryBytes / c.shards;
    assert c.maxMemoryBytes == c.shards * per + c.maxMemoryBytes % c.shards;
    assert c.shards * (per + 1) == c.shards * per + c.shards;
    assert per >= 1 ==> c.shards * per >= c.shards;
    assert per < 1 ==> per == 0;
  }

  /** As many items of this size as there are shards fit the configured memory; a single byte always fits. */
  predicate FitsShare(c: Config, size: nat) {
    size <= 1 || c.shards * size <= c.maxMemoryBytes
  }

  lemma Monotone(n: nat, a: nat, b: nat)
    requires a <= b
    ensures n * a <= n * b
  {
  }

  lemma FloorIsExact(n: nat, m: nat, total: nat, size: nat)
    requires 0 < n && n * m <= total < n * (m + 1)
    ensures size <= m <==> n * size <= total
  {
    if size <= m {
      Monotone(n, size, m);
    } else {
      Monotone(n, m + 1, size);
    }
  }

  /** An item fits its shard if and only if it fits an equal share of the configured memory. */
  lemma FitsItsShard(c: Config, size: nat)
    requires Usable(c)
    ensures size <= ShardLimits(c).maxMemoryBytes <==> FitsShare(c, size)
  {
    var m := ShardLimits(c).maxMemoryBytes;
    SplitIsEven(c);
    if c.maxMemoryBytes >= c.shards {
      FloorIsExact(c.shards, m, c.maxMemoryBytes, size);
    } else if size > 1 {
      Monotone(c.shards, 1, size);
    }
  }

  /** What is not configured is 1 MiB for values, 64 MiB in all, 64 bytes of overhead and 16 shards. */
  lemma DefaultsAre(c: Config)
    ensures c.maxValueBytes <= 0 ==> Normalize(c).maxValueBytes == 1048576
    ensures c.maxMemoryBytes <= 0 ==> Normalize(c).maxMemoryBytes == 67108864
    ensures c.itemOverheadBytes < 0 ==> Normalize(c).itemOverheadBytes == 64
    ensures c.shards <= 0 ==> Normalize(c).shards == 16
    ensures ShardLimits(Config(1048576, 67108864, 64, 16)) == Limits(1048576, 4194304, 64)
  {
  }

  class MutableStore {
    const config: Config   // normalised
    const limits: Limits
    const counter: Counter
    const shards: seq<MutableShard>
    ghost var repr: set<object>

    ghost predicate Owned(i: nat)
      requires i < |shards|
      reads this`repr, shards[i].lru
    {
      shards[i].Repr() <= repr
    }

    /** Two shards own disjoint parts of the heap. */
    ghost predicate Disjoint(i: nat, j: nat)
      requires i < |shards| && j < |shards|
      reads shards[i].lru, shards[j].lru
    {
      Apart(shards[i], shards[j])
    }

    ghost predicate Working(i: nat)
      requires i < |shards|
      reads shards[i], shards[i].lru, shards[i].lru.repr
    {
      shards[i].limits == limits && shards[i].counter == counter && shards[i].Valid()
    }

    ghost predicate Configured() {
      Usable(config) && limits == ShardLimits(config) && |shards| == config.shards
    }

    ghost predicate Sound()
      reads shards, set s | s in shards :: s.lru, set s, n | s in shards && n in s.lru.repr :: n
    {
      && 0 < |shards|
      && (forall i {:trigger Working(i)} :: 0 <= i < |shards| ==> Working(i))
      && (forall i, j {:trigger Disjoint(i, j)} :: 0 <= i < |shards| && 0 <= j < |shards| && i != j ==> Disjoint(i, j))
    }

    ghost predicate Valid()
      reads this`repr, shards, set s | s in shards :: s.lru, set s, n | s in shards && n in s.lru.repr :: n
    {
      Configured() && Sound() && forall i {:trigger Owned(i)} :: 0 <= i < |shards| ==> Owned(i)
    }

    ghost function Contents(): (ss: seq<Shard>)
      reads shards
      ensures |ss| == |shards| && forall i :: 0 <= i < |ss| ==> ss[i] == shards[i].Abs()
    {
      seq(|shards|, i requires 0 <= i < |shards| reads shards => shards[i].Abs())
    }

    ghost function Abs(): State
      reads shards, counter
    {
      State(Contents(), counter.value)
    }

    constructor (config: Config)
      ensures Valid() && fresh(counter) && fresh(repr)
      ensures this.config == Normalize(config) && SplitOf(this.config, limits)
      ensures Abs() == Init(|shards|)
    {
      var c := Normalize(config);
      var k := new Counter();
      var made, owned := MakeShards(ShardLimits(c), k, c.shards);
      SplitIsEven(c);
      this.config, limits, counter, shards, repr := c, ShardLimits(c), k, made, owned;
    }

    static method MakeShards(l: Limits, k: Counter, n: nat) returns (made: seq<MutableShard>, ghost owned: set<object>)
      ensures |made| == n && fresh(owned)
      ensures forall i {:trigger made[i]} :: 0 <= i < |made| ==> Fresh(made[i], l, k, owned)
      ensures forall i, j {:trigger made[i], made[j]} ::
        0 <= i < |made| && 0 <= j < |made| && i != j ==> Apart(made[i], made[j])
    {
      made, owned := [], {};
      while |made| < n
        invariant |made| <= n && fresh(owned)
        invariant forall i {:trigger made[i]} :: 0 <= i < |made| ==> Fresh(made[i], l, k, owned)
        invariant forall i, j {:trigger made[i], made[j]} ::
          0 <= i < |made| && 0 <= j < |made| && i != j ==> Apart(made[i], made[j])
      {
        var s := new MutableShard(l, k);
        made, owned := made + [s], owned + s.Repr();
      }
    }

    static ghost predicate Fresh(s: MutableShard, l: Limits, k: Counter, owned: set<object>)
      reads s, s.lru, s.lru.repr
    {
      s.Repr() <= owned && s.limits == l && s.counter == k && s.Valid() && s.Abs() == Shard([], 0, 0)
    }

    static ghost predicate Apart(s: MutableShard, t: MutableShard)
      reads s.lru, t.lru
    {
      s != t && s.lru != t.lru && s.lru.repr !! t.lru.repr
    }

    /** Runs an operation on one shard and leaves the others alone. */
    method ExecuteAt(i: nat, op: Op, now: Time) returns (r: Reply)
      requires Sound() && i < |shards|
      modifies counter, shards[i], shards[i].lru, shards[i].lru.repr
      ensures Sound() && fresh(shards[i].lru.repr - old(shards[i].lru.repr))
      ensures (shards[i].Abs(), r) == Step(limits, old(shards[i].Abs()), op, now, old(counter.value) + 1)
      ensures Contents() == old(Contents())[i := shards[i].Abs()]
      ensures counter.value == old(counter.value) + if r.Wrote() then 1 else 0
    {
      assert Working(i);
      r := shards[i].Execute(op, now);
      forall j: nat | j < |shards| && j != i
        ensures Working(j) && Disjoint(i, j) && Disjoint(j, i) && shards[j].Abs() == old(shards[j].Abs())
      {
        assert old(Disjoint(i, j)) && old(Working(j));
      }
      forall j: nat, k: nat | j < |shards| && k < |shards| && j != k && j != i && k != i ensures Disjoint(j, k) {
        assert old(Disjoint(j, k)) && old(Disjoint(i, j)) && old(Disjoint(i, k));
      }
    }

    /** The shard a key goes to, by its hash. */
    method ShardFor(key: Key) returns (i: nat)
      requires Valid() && |shards| % TWO_32 != 0
      ensures i == ShardIndex(key, |shards|)
    {
      i := ShardIndexOf(key, |shards|);
    }

    /** The same, keeping the footprint up to date. */
    method ExecuteIn(i: nat, op: Op, now: Time) returns (r: Reply)
      requires Valid() && i < |shards|
      modifies this`repr, counter, repr
      ensures Valid() && fresh(repr - old(repr))
      ensures (shards[i].Abs(), r) == Step(limits, old(shards[i].Abs()), op, now, old(counter.value) + 1)
      ensures Contents() == old(Contents())[i := shards[i].Abs()]
      ensures counter.value == old(counter.value) + if r.Wrote() then 1 else 0
    {
      assert Owned(i);
      r := ExecuteAt(i, op, now);
      repr := repr + shards[i].lru.repr;
      forall j: nat | j < |shards| ensures Owned(j) {
        assert old(Owned(j)) && (j != i ==> old(Disjoint(i, j)));
      }
    }

    /** The same, as a step of the whole store. */
    method ExecuteOn(i: nat, op: Op, now: Time) returns (r: Reply)
      requires Valid() && i == Route(op, |shards|)
      modifies this`repr, counter, repr
      ensures Valid() && fresh(repr - old(repr))
      ensures (Abs(), r) == Apply(limits, old(Abs()), Event(op, now))
    {
      r := ExecuteIn(i, op, now);
    }

    /** The public operations: find the shard and run there. */
    method Execute(op: Op, now: Time) returns (r: Reply)
      requires Valid() && |shards| % TWO_32 != 0 && !op.Cleanup?
      modifies this`repr, counter, repr
      ensures Valid() && fresh(repr - old(repr))
      ensures (Abs(), r) == Apply(limits, old(Abs()), Event(op, now))
    {
      var i := ShardFor(op.key);
      r := ExecuteOn(i, op, now);
    }

    /** The first `i` shards have been swept since `st`, and `total` items have gone, all of them expired. */
    ghost predicate SweptUpTo(st: State, nows: seq<Time>, i: nat, total: nat)
      requires 0 < |st.shards| && i <= |nows|
      reads shards, counter
    {
      && Abs() == After(limits, st, Sweeps(nows[..i]))
      && ItemsIn(st.shards) - ItemsIn(Contents()) == total == ExpirationsIn(Contents()) - ExpirationsIn(st.shards)
    }

    method SweepNext(i: nat, nows: seq<Time>, total: nat, ghost st: State) returns (sum: nat)
      requires Valid() && i < |shards| == |nows| == |st.shards| && SweptUpTo(st, nows, i, total)
      modifies this`repr, counter, repr
      ensures Valid() && fresh(repr - old(repr))
      ensures SweptUpTo(st, nows, i + 1, sum)
    {
      ghost var before := Abs();
      SweepOneMore(limits, st, nows, i);
      var r := ExecuteOn(i, Cleanup(i), nows[i]);
      SweepBalances(limits, before, i, nows[i], Abs(), r);
      sum := total + r.count;
    }

    /** Sweeps every shard in turn, each under its own clock reading, and returns how many items are gone. */
    method CleanupExpired(nows: seq<Time>) returns (total: nat)
      requires Valid() && |nows| == |shards|
      modifies this`repr, counter, repr
      ensures Valid() && fresh(repr - old(repr))
      ensures Abs() == After(limits, old(Abs()), Sweeps(nows))
      ensures total == ItemsIn(old(Contents())) - ItemsIn(Contents())
      ensures total == ExpirationsIn(Contents()) - ExpirationsIn(old(Contents()))
    {
      total := 0;
      ghost var st := Abs();
      for i := 0 to |shards|
        invariant Valid() && fresh(repr - old(repr)) && SweptUpTo(st, nows, i, total)
      {
        total := SweepNext(i, nows, total, st);
      }
      assert nows[..|shards|] == nows;
    }

    /** Bytes in use, summed shard by shard, and never more than the configured budget allows. */
    method MemoryBytes() returns (total: int)
      requires Valid()
      ensures total == MemIn(limits, Contents()) <= Budget(config)
    {
      total := 0;
      for i := 0 to |shards|
        invariant total == MemIn(limits, Contents()[..i])
      {
        assert Working(i);
        assert Contents()[..i + 1][..i] == Contents()[..i];
        total := total + shards[i].memoryBytes;
      }
      assert Contents()[..|shards|] == Contents();
      SampleIsBounded();
    }

    lemma SampleIsBounded()
      requires Valid()
      ensures MemIn(limits, Contents()) <= Budget(config)
    {
      forall i | 0 <= i < |shards| ensures Mem(limits, Contents()[i].entries) <= limits.maxMemoryBytes {
        assert Working(i);
      }
      TotalIsBounded(config, Contents());
    }

    /** The snapshot behind the `stats` command, summed shard by shard. */
    method Stats() returns (stats: Snapshot)
      requires Valid()
      ensures stats == SnapshotOf(limits, Contents())
    {
      stats := Snapshot(0, 0, 0, 0, 0, []);
      for i := 0 to |shards|
        invariant stats == SnapshotOf(limits, Contents()[..i])
      {
        assert Working(i);
        SampleOneMore(limits, Contents(), i);
        var n := shards[i].Len();
        stats := Snapshot(
          stats.items + n, stats.memoryBytes + shards[i].memoryBytes, stats.maxMemoryBytes + limits.maxMemoryBytes,
          stats.evictions + shards[i].evictions, stats.expirations + shards[i].expirations, stats.itemsPerShard + [n]);
      }
      assert Contents()[..|shards|] == Contents();
    }
  }

  /** `itemsPerShard` has one number per shard, so its length is the number of shards. */
  datatype Snapshot = Snapshot(
    items: nat, memoryBytes: int, maxMemoryBytes: nat, evictions: nat, expirations: nat, itemsPerShard: seq<nat>)

  ghost function SnapshotOf(l: Limits, shards: seq<Shard>): Snapshot {
    Snapshot(ItemsIn(shards), MemIn(l, shards), |shards| * l.maxMemoryBytes, EvictionsIn(shards), ExpirationsIn(shards),
             seq(|shards|, i requires 0 <= i < |shards| => |shards[i].entries|))
  }

  lemma SampleOneMore(l: Limits, shards: seq<Shard>, i: nat)
    requires i < |shards|
    ensures var x, s := SnapshotOf(l, shards[..i]), shards[i];
      SnapshotOf(l, shards[..i + 1]) ==
      Snapshot(x.items + |s.entries|, x.memoryBytes + Mem(l, s.entries), x.maxMemoryBytes + l.maxMemoryBytes,
               x.evictions + s.evictions, x.expirations + s.expirations, x.itemsPerShard + [|s.entries|])
  {
    assert shards[..i + 1][..i] == shards[..i];
    OneMore(i, l.maxMemoryBytes);
  }

  // ----- the store-wide budget

  /** The configured budget, or one byte per shard if it is smaller than that. */
  function Budget(c: Config): int {
    if c.maxMemoryBytes < c.shards then c.shards else c.maxMemoryBytes
  }

  lemma TotalIsBounded(c: Config, samples: seq<Shard>)
    requires Usable(c) && |samples| == c.shards
    requires forall i :: 0 <= i < |samples| ==> Mem(ShardLimits(c), samples[i].entries) <= ShardLimits(c).maxMemoryBytes
    ensures MemIn(ShardLimits(c), samples) <= Budget(c)
  {
    MemoryPerShard(ShardLimits(c), samples);
    SplitBudget(c);
  }

  /** Shards sampled one by one in the course of a run, shard `i` after its first `moments[i]` events. */
  function Samples(l: Limits, evs: seq<Event>, moments: seq<nat>): (samples: seq<Shard>)
    requires 0 < |moments| && forall i :: 0 <= i < |moments| ==> moments[i] <= |evs|
    ensures |samples| == |moments|
    ensures forall i :: 0 <= i < |moments| ==> samples[i] == After(l, Init(|moments|), evs[..moments[i]]).shards[i]
  {
    seq(|moments|, i requires 0 <= i < |moments| => After(l, Init(|moments|), evs[..moments[i]]).shards[i])
  }

  /** In every run, and at whatever different moments its shards are sampled, their total is within the budget. */
  lemma MemoryIsBounded(c: Config, evs: seq<Event>, moments: seq<nat>)
    requires Usable(c) && |moments| == c.shards && forall i :: 0 <= i < |moments| ==> moments[i] <= |evs|
    ensures MemIn(ShardLimits(c), Samples(ShardLimits(c), evs, moments)) <= Budget(c)
  {
    var l, n := ShardLimits(c), |moments|;
    var samples := Samples(l, evs, moments);
    forall i | 0 <= i < n ensures Mem(l, samples[i].entries) <= l.maxMemoryBytes {
      InitInv(l, n);
      RunKeepsInv(l, Init(n), evs[..moments[i]]);
      assert ShardInv(l, samples[i]);
    }
    TotalIsBounded(c, samples);
  }

  lemma SplitBudget(c: Config)
    requires Usable(c)
    ensures c.shards * ShardLimits(c).maxMemoryBytes <= Budget(c)
  {
    var per := c.maxMemoryBytes / c.shards;
    assert c.maxMemoryBytes == c.shards * per + c.maxMemoryBytes % c.shards;
    assert per >= 1 ==> c.shards * per >= c.shards;
  }

  lemma {:induction false} MemoryPerShard(l: Limits, samples: seq<Shard>)
    requires forall i :: 0 <= i < |samples| ==> Mem(l, samples[i].entries) <= l.maxMemoryBytes
    ensures MemIn(l, samples) <= |samples| * l.maxMemoryBytes
  {
    if samples != [] {
      var n := |samples| - 1;
      MemoryPerShard(l, samples[..n]);
      OneMore(n, l.maxMemoryBytes);
    }
  }

  lemma OneMore(n: nat, m: nat)
    ensures (n + 1) * m == n * m + m
  {
  }

  // ----- sweeping all shards

  function Sweeps(nows: seq<Time>): (evs: seq<Event>)
    ensures |evs| == |nows| && forall i :: 0 <= i < |nows| ==> evs[i] == Event(Cleanup(i), nows[i])
  {
    seq(|nows|, i requires 0 <= i < |nows| => Event(Cleanup(i), nows[i]))
  }

  lemma SweepOneMore(l: Limits, st: State, nows: seq<Time>, i: nat)
    requires 0 < |st.shards| && i < |nows|
    ensures After(l, st, Sweeps(nows[..i + 1]))
         == Apply(l, After(l, st, Sweeps(nows[..i])), Event(Cleanup(i), nows[i])).0
  {
    var evs, ev := Sweeps(nows[..i]), Event(Cleanup(i), nows[i]);
    assert Sweeps(nows[..i + 1]) == evs + [ev];
    ExtendRun(l, st, evs, ev);
  }
}
