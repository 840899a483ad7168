/** The shard as it runs: a map and a linked list over the same heap nodes, and running totals. */
module ShardImpl {
  import opened Types
  import opened Sequences
  import opened Decimal
  import opened Cache
  import opened ListLaws
  import opened Eviction
  import opened Lru

  /** The token source that all shards of a store share. */
  class Counter {
    var value: nat

    constructor ()
      ensures value == 0
    {
      value := 0;
    }

    method Add() returns (token: nat)
      modifies this
      ensures value == old(value) + 1 == token
    {
      value := value + 1;
      token := value;
    }
  }

  /** A heap node represents an entry, with its accounted size. */
  ghost predicate Holds(l: Limits, n: Item, e: Entry)
    reads n`value, n`expiresAt, n`size, n`cas
  {
    n.key == e.key && n.value == e.value && n.expiresAt == e.expiresAt && n.cas == e.cas && n.size == SizeOf(l, e)
  }

  ghost predicate Mirrors(l: Limits, nodes: seq<Item>, es: seq<Entry>)
    reads nodes`value, nodes`expiresAt, nodes`size, nodes`cas
  {
    |nodes| == |es| && forall i {:trigger Holds(l, nodes[i], es[i])} :: 0 <= i < |nodes| ==> Holds(l, nodes[i], es[i])
  }

  ghost predicate Maps(items: map<Key, Item>, n: Item) {
    n.key in items && items[n.key] == n
  }

  /** The map and the list hold the same nodes, one per key. */
  ghost predicate Indexed(items: map<Key, Item>, nodes: seq<Item>) {
    && (forall n {:trigger Maps(items, n)} :: n in nodes ==> Maps(items, n))
    && (forall k {:trigger items[k]} :: k in items ==> items[k] in nodes && items[k].key == k)
  }

  /** Every key that is left still has the node it had. */
  ghost predicate Within(after: map<Key, Item>, before: map<Key, Item>) {
    forall k {:trigger after[k]} :: k in after ==> k in before && after[k] == before[k]
  }

  lemma IndexedUnique(l: Limits, items: map<Key, Item>, nodes: seq<Item>, es: seq<Entry>)
    requires Distinct(nodes) && Indexed(items, nodes) && Mirrors(l, nodes, es)
    ensures Unique(es)
  {
    forall i, j | 0 <= i < j < |es| ensures es[i].key != es[j].key {
      assert Apart(nodes, i, j) && Maps(items, nodes[i]) && Maps(items, nodes[j]);
      assert Holds(l, nodes[i], es[i]) && Holds(l, nodes[j], es[j]);
    }
  }

  lemma IndexedCut(items: map<Key, Item>, nodes: seq<Item>, at: nat)
    requires Distinct(nodes) && Indexed(items, nodes) && at < |nodes|
    ensures Indexed(items - {nodes[at].key}, Cut(nodes, at))
  {
    CutMember(nodes, at);
    assert Maps(items, nodes[at]);
    assert forall n :: n in nodes ==> Maps(items, n);
  }

  lemma MirrorsCut(l: Limits, nodes: seq<Item>, es: seq<Entry>, at: nat)
    requires Mirrors(l, nodes, es) && at < |nodes|
    ensures Mirrors(l, Cut(nodes, at), Cut(es, at))
  {
    assert forall i :: 0 <= i < |nodes| ==> Holds(l, nodes[i], es[i]);
  }

  lemma MirrorsMove(l: Limits, nodes: seq<Item>, es: seq<Entry>, at: nat)
    requires Mirrors(l, nodes, es) && at < |nodes|
    ensures Mirrors(l, [nodes[at]] + Cut(nodes, at), [es[at]] + Cut(es, at))
  {
    assert forall i :: 0 <= i < |nodes| ==> Holds(l, nodes[i], es[i]);
  }

  lemma MirrorsPush(l: Limits, nodes: seq<Item>, es: seq<Entry>, n: Item, e: Entry)
    requires Mirrors(l, nodes, es) && Holds(l, n, e)
    ensures Mirrors(l, [n] + nodes, [e] + es)
  {
    assert forall i :: 0 <= i < |nodes| ==> Holds(l, nodes[i], es[i]);
  }

  lemma IndexedPush(items: map<Key, Item>, nodes: seq<Item>, n: Item)
    requires Indexed(items, nodes) && n.key !in items
    ensures Indexed(items[n.key := n], [n] + nodes)
    ensures n !in nodes
  {
    assert forall m :: m in nodes ==> Maps(items, m);
    assert forall k :: k in items ==> items[k] in nodes;
  }

  lemma IndexedMove(items: map<Key, Item>, nodes: seq<Item>, at: nat)
    requires Distinct(nodes) && Indexed(items, nodes) && at < |nodes|
    ensures Indexed(items, [nodes[at]] + Cut(nodes, at))
  {
    CutMember(nodes, at);
    assert forall m :: m in nodes ==> Maps(items, m);
    assert forall k :: k in items ==> items[k] in nodes;
  }

  lemma KeyHasNode(items: map<Key, Item>, nodes: seq<Item>, key: Key)
    requires Indexed(items, nodes)
    ensures key in items ==> nodes != []
  {
    if key in items {
      assert items[key] in nodes;
    }
  }

  /** The map has as many keys as the list has nodes. */
  lemma {:induction false} IndexedSize(items: map<Key, Item>, nodes: seq<Item>)
    requires Distinct(nodes) && Indexed(items, nodes)
    ensures |items| == |nodes|
    decreases |nodes|
  {
    if nodes == [] {
      assert items.Keys == {} by {
        forall k ensures k in items ==> nodes != [] { KeyHasNode(items, nodes, k); }
      }
    } else {
      assert Maps(items, nodes[0]);
      CutMember(nodes, 0);
      IndexedCut(items, nodes, 0);
      var rest := items - {nodes[0].key};
      IndexedSize(rest, Cut(nodes, 0));
      assert items.Keys == rest.Keys + {nodes[0].key};
    }
  }

  /** The map answers the same lookups as the list. */
  lemma IndexedLookup(l: Limits, items: map<Key, Item>, nodes: seq<Item>, es: seq<Entry>, key: Key) returns (at: nat)
    requires Distinct(nodes) && Indexed(items, nodes) && Mirrors(l, nodes, es)
    ensures key !in items ==> Find(es, key) == None && Without(es, key) == es
    ensures key in items ==> at < |nodes| && nodes[at] == items[key] && Find(es, key) == Some(es[at])
    ensures key in items ==> Holds(l, items[key], es[at])
    ensures Unique(es)
  {
    IndexedUnique(l, items, nodes, es);
    at := 0;
    if key in items {
      at :| 0 <= at < |nodes| && nodes[at] == items[key];
      assert Holds(l, nodes[at], es[at]);
      WithoutAt(es, at);
    } else {
      forall e | e in es ensures e.key != key {
        var i :| 0 <= i < |es| && es[i] == e;
        assert Maps(items, nodes[i]) && Holds(l, nodes[i], es[i]);
      }
      FindMember(es, key);
      WithoutAbsent(es, key);
    }
  }

  /** The list while a sweep is under way: keys still in `pending` have not been visited. */
  ghost function Sweeping(es: seq<Entry>, pending: set<Key>, now: Time): seq<Entry> {
    if es == [] then []
    else if Expired(es[0], now) && es[0].key !in pending then Sweeping(es[1..], pending, now)
    else [es[0]] + Sweeping(es[1..], pending, now)
  }

  lemma {:induction false} SweepStarts(es: seq<Entry>, pending: set<Key>, now: Time)
    requires forall e :: e in es ==> e.key in pending
    ensures Sweeping(es, pending, now) == es
  {
    if es != [] {
      assert es[0] in es;
      SweepStarts(es[1..], pending, now);
    }
  }

  lemma {:induction false} SweepEnds(es: seq<Entry>, now: Time)
    ensures Sweeping(es, {}, now) == Live(es, now)
  {
    if es != [] {
      SweepEnds(es[1..], now);
    }
  }

  lemma {:induction false} SweepMember(es: seq<Entry>, pending: set<Key>, now: Time, e: Entry)
    ensures e in Sweeping(es, pending, now) <==> e in es && !(Expired(e, now) && e.key !in pending)
  {
    if es != [] {
      SweepMember(es[1..], pending, now, e);
      assert es == [es[0]] + es[1..];
    }
  }

  lemma SweepStep(es: seq<Entry>, pending: set<Key>, now: Time, e: Entry)
    requires Unique(es) && e.key in pending && e in Sweeping(es, pending, now)
    ensures Sweeping(es, pending - {e.key}, now)
         == if Expired(e, now) then Without(Sweeping(es, pending, now), e.key) else Sweeping(es, pending, now)
  {
    SweepMember(es, pending, now, e);
    forall a, b | a in es && b in es && a.key == b.key ensures a == b {
      FindUnique(es, a);
      FindUnique(es, b);
    }
    SweepVisits(es, pending, now, e.key);
  }

  /** Visiting one key removes it if it is expired and otherwise changes nothing. */
  lemma {:induction false} SweepVisits(es: seq<Entry>, pending: set<Key>, now: Time, key: Key)
    requires key in pending
    requires forall e, f :: e in es && f in es && e.key == f.key ==> e == f
    ensures (forall e :: e in es && e.key == key ==> Expired(e, now)) ==>
        Sweeping(es, pending - {key}, now) == Without(Sweeping(es, pending, now), key)
    ensures (forall e :: e in es && e.key == key ==> !Expired(e, now)) ==>
        Sweeping(es, pending - {key}, now) == Sweeping(es, pending, now)
  {
    if es != [] {
      assert es[0] in es && forall e :: e in es[1..] ==> e in es;
      SweepVisits(es[1..], pending, now, key);
    }
  }

  /** Taking one node out releases its entry's bytes and deadline. */
  lemma CutAccount(l: Limits, items: map<Key, Item>, nodes: seq<Item>, es: seq<Entry>, at: nat)
    requires Distinct(nodes) && Indexed(items, nodes) && Mirrors(l, nodes, es) && at < |nodes|
    ensures Cut(es, at) == Without(es, nodes[at].key)
    ensures Mem(l, es) == Mem(l, Cut(es, at)) + nodes[at].size
    ensures TtlCount(es) == TtlCount(Cut(es, at)) + (if nodes[at].expiresAt != 0 then 1 else 0)
  {
    IndexedUnique(l, items, nodes, es);
    assert Holds(l, nodes[at], es[at]);
    WithoutAt(es, at);
    AccountAt(l, es, at);
  }

  ghost predicate HasDeadline(es: seq<Entry>, key: Key) {
    Find(es, key).Some? && Find(es, key).value.expiresAt != 0
  }

  /** Moving an entry to the front changes no total. */
  lemma MovedAccount(l: Limits, es: seq<Entry>, at: nat)
    requires at < |es|
    ensures Mem(l, [es[at]] + Cut(es, at)) == Mem(l, es)
    ensures TtlCount([es[at]] + Cut(es, at)) == TtlCount(es)
  {
    AccountAt(l, es, at);
    assert ([es[at]] + Cut(es, at))[1..] == Cut(es, at);
  }

  /** The totals after an entry replaces whatever its key held. */
  lemma AccountFront(l: Limits, es: seq<Entry>, e: Entry)
    requires Unique(es)
    ensures Mem(l, [e] + Without(es, e.key)) == Projected(l, es, e.key, SizeOf(l, e))
    ensures TtlCount([e] + Without(es, e.key))
         == TtlCount(es) - (if HasDeadline(es, e.key) then 1 else 0) + (if e.expiresAt != 0 then 1 else 0)
  {
    AccountWithout(l, es, e.key);
    var others := Without(es, e.key);
    assert ([e] + others)[1..] == others;
  }

  class MutableShard {
    const limits: Limits
    const counter: Counter
    const lru: List
    var items: map<Key, Item>
    var memoryBytes: int
    var ttlCount: int
    var evictions: nat
    var expirations: nat
    ghost var entries: seq<Entry>

    ghost function Abs(): Shard
      reads this
    {
      Shard(entries, evictions, expirations)
    }

    ghost function Repr(): set<object>
      reads lru
    {
      {this, lru} + lru.repr
    }

    ghost predicate Linked()
      reads this`items, this`entries, lru, lru.repr
    {
      lru.Valid() && Indexed(items, lru.nodes) && Mirrors(limits, lru.nodes, entries)
    }

    /** The running totals are exact and within budget. */
    ghost predicate Accounted()
      reads this`memoryBytes, this`ttlCount, this`entries
    {
      memoryBytes == Mem(limits, entries) <= limits.maxMemoryBytes && ttlCount == TtlCount(entries)
    }

    ghost predicate Valid()
      reads this, lru, lru.repr
    {
      Linked() && Accounted()
    }

    constructor (limits: Limits, counter: Counter)
      ensures Valid() && fresh(Repr())
      ensures this.limits == limits && this.counter == counter
      ensures Abs() == Shard([], 0, 0)
    {
      this.limits, this.counter := limits, counter;
      lru := new List();
      items := map[];
      memoryBytes, ttlCount, evictions, expirations := 0, 0, 0, 0;
      entries := [];
    }

    /** Takes a node out of the map and the list. */
    method Unlink(item: Item, ghost at: nat)
      requires Linked() && at < |lru.nodes| && lru.nodes[at] == item
      modifies this`items, this`entries, lru, lru.repr`prev, lru.repr`next
      ensures Linked()
      ensures entries == Cut(old(entries), at)
      ensures lru.nodes == Cut(old(lru.nodes), at) && lru.repr == old(lru.repr)
      ensures items == old(items) - {item.key}
    {
      ghost var nodes := lru.nodes;
      IndexedCut(items, nodes, at);
      items := items - {item.key};
      lru.Remove(item, at);
      assert Mirrors(limits, nodes, entries);
      MirrorsCut(limits, nodes, entries, at);
      entries := Cut(entries, at);
    }

    method DeleteLocked(item: Item, ghost at: nat)
      requires Valid() && at < |lru.nodes| && lru.nodes[at] == item
      modifies this`items, this`entries, this`memoryBytes, this`ttlCount, lru, lru.repr`prev, lru.repr`next
      ensures Valid()
      ensures entries == Cut(old(entries), at) == Without(old(entries), item.key)
      ensures lru.nodes == Cut(old(lru.nodes), at) && lru.repr == old(lru.repr)
      ensures items == old(items) - {item.key}
    {
      CutAccount(limits, items, lru.nodes, entries, at);
      memoryBytes := memoryBytes - item.size;
      if item.expiresAt != 0 {
        ttlCount := ttlCount - 1;
      }
      Unlink(item, at);
    }

    method RemoveExpiredLocked(now: Time) returns (removed: nat)
      requires Valid()
      modifies this, lru, lru.repr`prev, lru.repr`next
      ensures Valid()
      ensures Abs() == Swept(old(Abs()), now) && lru.repr == old(lru.repr)
      ensures removed == |old(entries)| - |entries|
      ensures Within(items, old(items))
    {
      ghost var es := entries;
      var pending := items.Keys;
      IndexedUnique(limits, items, lru.nodes, es);
      SweepAll(now);
      removed := 0;
      while pending != {}
        invariant Valid()
        invariant pending <= items.Keys
        invariant entries == Sweeping(es, pending, now)
        invariant removed == |es| - |entries|
        invariant evictions == old(evictions) && expirations == old(expirations) && lru.repr == old(lru.repr)
        invariant Within(items, old(items))
        decreases pending
      {
        var key :| key in pending;
        var item := items[key];
        ghost var at := IndexedLookup(limits, items, lru.nodes, entries, key);
        SweepStep(es, pending, now, entries[at]);
        if PastDeadline(item.expiresAt, now) {
          DeleteLocked(item, at);
          removed := removed + 1;
        }
        pending := pending - {key};
      }
      SweepEnds(es, now);
      if removed > 0 {
        expirations := expirations + removed;
      }
    }

    lemma SweepAll(now: Time)
      requires Linked()
      ensures Sweeping(entries, items.Keys, now) == entries
    {
      forall e | e in entries ensures e.key in items {
        var i :| 0 <= i < |entries| && entries[i] == e;
        assert Maps(items, lru.nodes[i]) && Holds(limits, lru.nodes[i], entries[i]);
      }
      SweepStarts(entries, items.Keys, now);
    }

    /** The least recent node whose key is not the protected one, found by walking towards the head. */
    method EvictionCandidate(protectedKey: Key) returns (candidate: Item?, ghost at: int)
      requires Linked()
      ensures candidate == null ==> forall e :: e in entries ==> e.key == protectedKey
      ensures candidate != null ==>
        && 0 <= at < |lru.nodes| && lru.nodes[at] == candidate && entries[at].key != protectedKey
        && (at == |entries| - 1 || (at == |entries| - 2 && entries[|entries| - 1].key == protectedKey))
    {
      at := |lru.nodes| - 1;
      candidate := lru.Back();
      IndexedUnique(limits, items, lru.nodes, entries);
      assert forall i :: 0 <= i < |lru.nodes| ==> Holds(limits, lru.nodes[i], entries[i]);
      assert |entries| > 1 ==> entries[|entries| - 2].key != entries[|entries| - 1].key;
      while candidate != null && candidate.key == protectedKey
        invariant -1 <= at < |lru.nodes|
        invariant candidate == if at == -1 then null else lru.nodes[at]
        invariant forall j :: at < j < |entries| ==> entries[j].key == protectedKey
        decreases at
      {
        candidate, at := candidate.prev, at - 1;
      }
    }

    /** One round of the eviction loop: the unprotected part loses its least recent entry. */
    method EvictOne(protectedKey: Key, ghost budget: int) returns (found: bool, size: nat)
      requires Valid() && Mem(limits, Without(entries, protectedKey)) > budget
      modifies this`items, this`entries, this`memoryBytes, this`ttlCount, lru, lru.repr`prev, lru.repr`next
      ensures Valid() && lru.repr == old(lru.repr)
      ensures Find(entries, protectedKey) == Find(old(entries), protectedKey)
      ensures !found ==> entries == old(entries) && Without(entries, protectedKey) == []
      ensures found ==> |entries| == |old(entries)| - 1
      ensures found ==>
        Mem(limits, Without(entries, protectedKey)) == Mem(limits, Without(old(entries), protectedKey)) - size
      ensures Fit(limits, Without(entries, protectedKey), budget)
           == Fit(limits, Without(old(entries), protectedKey), budget)
      ensures Within(items, old(items))
    {
      found, size := false, 0;
      var candidate, at := EvictionCandidate(protectedKey);
      if candidate == null {
        NoVictim(entries, protectedKey);
      } else {
        assert Holds(limits, lru.nodes[at], entries[at]);
        found, size := true, candidate.size;
        IndexedUnique(limits, items, lru.nodes, entries);
        VictimIsLast(entries, protectedKey, at);
        FitSnoc(limits, Without(Cut(entries, at), protectedKey), entries[at], budget);
        DeleteLocked(candidate, at);
      }
    }

    /** Fails exactly when the item being written does not fit by itself. */
    method EvictUntilFitsLocked(protectedKey: Key, projected: int, ghost size: nat) returns (ok: bool)
      requires Valid() && projected == Projected(limits, entries, protectedKey, size)
      modifies this, lru, lru.repr`prev, lru.repr`next
      ensures Valid() && lru.repr == old(lru.repr)
      ensures Evicted(limits, old(Abs()), Abs(), protectedKey, size)
      ensures ok <==> size <= limits.maxMemoryBytes
      ensures Within(items, old(items))
    {
      ghost var budget := limits.maxMemoryBytes - size;
      ghost var kept := Fit(limits, Without(entries, protectedKey), budget);
      var total, evicted := projected, 0;
      ok := true;
      while total > limits.maxMemoryBytes
        invariant Valid() && ok && lru.repr == old(lru.repr)
        invariant evictions == old(evictions) && expirations == old(expirations)
        invariant Find(entries, protectedKey) == Find(old(entries), protectedKey)
        invariant Fit(limits, Without(entries, protectedKey), budget) == kept
        invariant total == Mem(limits, Without(entries, protectedKey)) + size
        invariant evicted == |old(entries)| - |entries|
        invariant Within(items, old(items))
        decreases |entries|
      {
        var found, freed := EvictOne(protectedKey, budget);
        if !found {
          ok := false;
          break;
        }
        total := total - freed;
        evicted := evicted + 1;
      }
      if evicted > 0 {
        evictions := evictions + evicted;
      }
    }

    /** The total after writing `size` bytes under `key`, before anything is removed. */
    method ProjectedBytes(key: Key, size: nat) returns (projected: int)
      requires Valid()
      ensures projected == Projected(limits, entries, key, size)
    {
      ghost var at := IndexedLookup(limits, items, lru.nodes, entries, key);
      AccountWithout(limits, entries, key);
      var oldSize := 0;
      if key in items {
        oldSize := items[key].size;
      }
      projected := memoryBytes - oldSize + size;
    }

    /**
     * Sweeps and evicts until an item of `size` bytes fits under `key`: the
     * pressure logic of `set`.
     */
    method MakeRoom(key: Key, size: nat, now: Time) returns (projected: int)
      requires Valid() && size <= limits.maxMemoryBytes
      modifies this, lru, lru.repr`prev, lru.repr`next
      ensures Valid() && lru.repr == old(lru.repr)
      ensures Cleared(limits, old(Abs()), Abs(), key, size, now)
      ensures projected == Projected(limits, entries, key, size) <= limits.maxMemoryBytes
    {
      projected := ProjectedBytes(key, size);
      if projected > limits.maxMemoryBytes {
        NoDeadlinesNoSweep(now);
        if ttlCount > 0 {
          var _ := RemoveExpiredLocked(now);
          projected := ProjectedBytes(key, size);
        }
        projected := Evict(key, size, projected);
      }
    }

    /** Evicts if the projection is still over budget after the sweep, and cannot fail. */
    method Evict(key: Key, size: nat, projected: int) returns (total: int)
      requires Valid() && size <= limits.maxMemoryBytes
      requires projected == Projected(limits, entries, key, size)
      modifies this, lru, lru.repr`prev, lru.repr`next
      ensures Valid() && lru.repr == old(lru.repr)
      ensures Evicted(limits, old(Abs()), Abs(), key, size)
      ensures total == Projected(limits, entries, key, size) <= limits.maxMemoryBytes
    {
      total := projected;
      if projected > limits.maxMemoryBytes {
        FitLongest(limits, Without(entries, key), limits.maxMemoryBytes - size);
        var ok := EvictUntilFitsLocked(key, projected, size);
        assert ok;
        total := ProjectedBytes(key, size);
      } else {
        NothingToEvict(limits, Abs(), key, size);
      }
    }

    /** A key with an entry has a node: the late error returns of `cas` and `incr` are dead. */
    lemma EntryHasNode(key: Key)
      requires Linked() && Find(entries, key).Some?
      ensures key in items
    {
      var at := IndexedLookup(limits, items, lru.nodes, entries, key);
    }

    /** The total after `size` bytes replace the payload of the node that an operation holds. */
    method HeldBytes(node: Item, size: nat) returns (projected: int)
      requires Valid() && node.key in items && items[node.key] == node
      ensures projected == Projected(limits, entries, node.key, size)
    {
      ghost var at := IndexedLookup(limits, items, lru.nodes, entries, node.key);
      AccountWithout(limits, entries, node.key);
      projected := memoryBytes - node.size + size;
    }

    /** Evicts around the node that an operation holds, which stays in the map and in the list. */
    method EvictAround(node: Item, size: nat, projected: int) returns (total: int)
      requires Valid() && size <= limits.maxMemoryBytes
      requires node.key in items && items[node.key] == node
      requires projected == Projected(limits, entries, node.key, size)
      modifies this, lru, lru.repr`prev, lru.repr`next
      ensures Valid() && lru.repr == old(lru.repr)
      ensures Evicted(limits, old(Abs()), Abs(), node.key, size)
      ensures node.key in items && items[node.key] == node
      ensures total == Projected(limits, entries, node.key, size) <= limits.maxMemoryBytes
    {
      total := projected;
      if total > limits.maxMemoryBytes {
        ghost var at := IndexedLookup(limits, items, lru.nodes, entries, node.key);
        FitLongest(limits, Without(entries, node.key), limits.maxMemoryBytes - size);
        var ok := EvictUntilFitsLocked(node.key, total, size);
        if !ok {
          assert false;
        }
        EntryHasNode(node.key);
        total := HeldBytes(node, size);
      } else {
        NothingToEvict(limits, Abs(), node.key, size);
      }
    }

    /**
     * The pressure logic of `cas` and `incr`. They hold the node they are going
     * to write, fetch it again after the sweep and not after the eviction; it is
     * the same node all along, and still the one in the map.
     */
    method MakeRoomFor(held: Item, size: nat, now: Time) returns (node: Item, projected: int)
      requires Valid() && size <= limits.maxMemoryBytes
      requires held.key in items && items[held.key] == held && !PastDeadline(held.expiresAt, now)
      modifies this, lru, lru.repr`prev, lru.repr`next
      ensures Valid() && lru.repr == old(lru.repr)
      ensures Cleared(limits, old(Abs()), Abs(), held.key, size, now)
      ensures node == held && node.key in items && items[node.key] == node
      ensures projected == Projected(limits, entries, node.key, size) <= limits.maxMemoryBytes
    {
      node := held;
      projected := HeldBytes(node, size);
      if projected > limits.maxMemoryBytes {
        NoDeadlinesNoSweep(now);
        if ttlCount > 0 {
          HeldSurvives(held, now);
          var _ := RemoveExpiredLocked(now);
          EntryHasNode(held.key);
          if held.key !in items {
            assert false;
          }
          node := items[held.key];
          projected := HeldBytes(node, size);
        }
        projected := EvictAround(node, size, projected);
      }
    }

    lemma HeldSurvives(held: Item, now: Time)
      requires Linked() && held.key in items && items[held.key] == held && !PastDeadline(held.expiresAt, now)
      ensures Find(Swept(Abs(), now).entries, held.key).Some?
    {
      var at := IndexedLookup(limits, items, lru.nodes, entries, held.key);
      IndexedUnique(limits, items, lru.nodes, entries);
      FindLive(entries, now, held.key);
    }

    /** Skipping the sweep when no item carries a deadline changes nothing. */
    lemma NoDeadlinesNoSweep(now: Time)
      requires Accounted()
      ensures ttlCount == 0 ==> Abs() == Swept(Abs(), now)
    {
      if ttlCount == 0 {
        LiveWithNoDeadlines(entries, now);
      }
    }

    /** Finds the live item under `key`, dropping an expired one on the way. */
    method Lookup(key: Key, now: Time) returns (item: Item?, ghost at: nat)
      requires Valid()
      modifies this`items, this`entries, this`memoryBytes, this`ttlCount, lru, lru.repr`prev, lru.repr`next
      ensures Valid() && lru.repr == old(lru.repr)
      ensures Abs() == Lapse(old(Abs()), key, now) && Unique(entries)
      ensures item == null ==> Find(entries, key) == None
      ensures item != null ==>
        && item.key == key && key in items && items[key] == item
        && at < |lru.nodes| && lru.nodes[at] == item && Holds(limits, item, entries[at])
        && Find(entries, key) == Some(entries[at]) && !Expired(entries[at], now)
    {
      at := IndexedLookup(limits, items, lru.nodes, entries, key);
      WithoutUnique(entries, key);
      FindWithout(entries, key, key);
      if key !in items {
        return null, at;
      }
      item := items[key];
      if PastDeadline(item.expiresAt, now) {
        DeleteLocked(item, at);
        item := null;
      }
    }

    /** Moves a node, with its payload as it is now, to the front. */
    method Refresh(item: Item, ghost at: nat, ghost e: Entry)
      requires lru.Valid() && Indexed(items, lru.nodes) && at < |lru.nodes| && lru.nodes[at] == item
      requires |entries| == |lru.nodes| && Mirrors(limits, lru.nodes, entries[at := e])
      modifies this`entries, lru, lru.repr`prev, lru.repr`next
      ensures Linked() && lru.repr == old(lru.repr)
      ensures entries == [e] + Cut(old(entries), at)
    {
      ghost var nodes, es := lru.nodes, entries[at := e];
      IndexedMove(items, nodes, at);
      lru.MoveToFront(item, at);
      MirrorsMove(limits, nodes, es, at);
      assert Cut(es, at) == Cut(entries, at);
      entries := [e] + Cut(entries, at);
    }

    /** Overwrites an item in place and moves it to the front. */
    method Rewrite(item: Item, ghost at: nat, value: Bytes, expiry: Time, size: nat, cas: nat)
      requires Linked() && at < |lru.nodes| && lru.nodes[at] == item
      requires size == ItemSize(limits, item.key, |value|)
      modifies this`entries, lru, lru.repr
      ensures Linked() && lru.repr == old(lru.repr)
      ensures entries == [Entry(item.key, value, expiry, cas)] + Cut(old(entries), at)
    {
      ghost var e := Entry(item.key, value, expiry, cas);
      AllApart(lru.nodes);
      assert forall i :: 0 <= i < |lru.nodes| ==> Holds(limits, lru.nodes[i], entries[i]);
      item.value := value;
      item.expiresAt := expiry;
      item.size := size;
      item.cas := cas;
      assert Holds(limits, item, e);
      Refresh(item, at, e);
    }

    /** Puts a new item into the map and at the front of the list. */
    method Insert(key: Key, value: Bytes, expiry: Time, size: nat, cas: nat)
      requires Linked() && key !in items && size == ItemSize(limits, key, |value|)
      modifies this`items, this`entries, lru, lru.repr`prev
      ensures Linked() && fresh(lru.repr - old(lru.repr))
      ensures entries == [Entry(key, value, expiry, cas)] + old(entries)
    {
      var item := new Item(key, value, expiry, size, cas);
      ghost var nodes, e := lru.nodes, Entry(key, value, expiry, cas);
      IndexedPush(items, nodes, item);
      items := items[key := item];
      lru.PushFront(item);
      assert Holds(limits, item, e);
      MirrorsPush(limits, nodes, entries, item, e);
      entries := [e] + entries;
    }

    /** Reuses the node when the key is present and makes a new one otherwise. */
    method Place(key: Key, value: Bytes, expiry: Time, size: nat, cas: nat) returns (hadTtl: bool)
      requires Linked() && size == ItemSize(limits, key, |value|)
      modifies this`items, this`entries, lru, lru.repr
      ensures Linked() && fresh(lru.repr - old(lru.repr))
      ensures entries == [Entry(key, value, expiry, cas)] + Without(old(entries), key)
      ensures hadTtl <==> HasDeadline(old(entries), key)
    {
      ghost var es := entries;
      ghost var at := IndexedLookup(limits, items, lru.nodes, es, key);
      hadTtl := false;
      if key in items {
        WithoutAt(es, at);
        var existing := items[key];
        hadTtl := existing.expiresAt != 0;
        Rewrite(existing, at, value, expiry, size, cas);
      } else {
        Insert(key, value, expiry, size, cas);
      }
    }

    /** Brings the number of deadlines up to date after a write. */
    method CountDeadline(hadTtl: bool, hasTtl: bool)
      modifies this`ttlCount
      ensures ttlCount == old(ttlCount) - (if hadTtl then 1 else 0) + (if hasTtl then 1 else 0)
    {
      if hadTtl && !hasTtl {
        ttlCount := ttlCount - 1;
      } else if !hadTtl && hasTtl {
        ttlCount := ttlCount + 1;
      }
    }

    /** Stamps a new token, stores the item and brings the totals up to date. */
    method Commit(key: Key, value: Bytes, expiry: Time, size: nat, projected: int)
      requires Valid() && size == ItemSize(limits, key, |value|)
      requires projected == Projected(limits, entries, key, size) <= limits.maxMemoryBytes
      modifies this`items, this`entries, this`memoryBytes, this`ttlCount, lru, lru.repr, counter
      ensures Valid() && fresh(lru.repr - old(lru.repr)) && counter.value == old(counter.value) + 1
      ensures entries == [Entry(key, value, expiry, counter.value)] + Without(old(entries), key)
    {
      IndexedUnique(limits, items, lru.nodes, entries);
      AccountFront(limits, entries, Entry(key, value, expiry, counter.value + 1));
      var newCas := counter.Add();
      var hadTtl := Place(key, value, expiry, size, newCas);
      CountDeadline(hadTtl, expiry != 0);
      memoryBytes := projected;
    }

    /** Writes through a node that is in the map: stamps it, moves it to the front and sets the total. */
    method Overwrite(node: Item, value: Bytes, expiry: Time, size: nat, projected: int)
      requires Valid() && node.key in items && items[node.key] == node && size == ItemSize(limits, node.key, |value|)
      requires projected == Projected(limits, entries, node.key, size) <= limits.maxMemoryBytes
      modifies this`entries, this`memoryBytes, lru, lru.repr, counter
      ensures Linked() && lru.repr == old(lru.repr) && counter.value == old(counter.value) + 1
      ensures entries == [Entry(node.key, value, expiry, counter.value)] + Without(old(entries), node.key)
      ensures memoryBytes == Mem(limits, entries) <= limits.maxMemoryBytes
      ensures TtlCount(entries)
           == ttlCount - (if old(node.expiresAt) != 0 then 1 else 0) + (if expiry != 0 then 1 else 0)
    {
      ghost var at := IndexedLookup(limits, items, lru.nodes, entries, node.key);
      IndexedUnique(limits, items, lru.nodes, entries);
      WithoutAt(entries, at);
      AccountFront(limits, entries, Entry(node.key, value, expiry, counter.value + 1));
      var newCas := counter.Add();
      Rewrite(node, at, value, expiry, size, newCas);
      memoryBytes := projected;
    }

    /** The tail of `cas` and `incr`: size check, pressure logic, write through the held node. */
    method WriteHeld(held: Item, value: Bytes, expiry: Time, now: Time, ghost ok: Reply) returns (stored: bool)
      requires Valid() && held.key in items && items[held.key] == held && !PastDeadline(held.expiresAt, now)
      modifies this, lru, lru.repr, counter
      ensures Linked() && lru.repr == old(lru.repr)
      ensures memoryBytes == Mem(limits, entries) <= limits.maxMemoryBytes
      ensures TtlCount(entries) == ttlCount +
        if stored then (if expiry != 0 then 1 else 0) - (if old(held.expiresAt) != 0 then 1 else 0) else 0
      ensures counter.value == old(counter.value) + if stored then 1 else 0
      ensures (Abs(), if stored then ok else Failed(MemoryLimitExceeded))
           == Put(limits, old(Abs()), Entry(held.key, value, expiry, old(counter.value) + 1), now, ok)
    {
      var size := ItemSize(limits, held.key, |value|);
      if size > limits.maxMemoryBytes {
        return false;
      }
      ghost var s, e := Abs(), Entry(held.key, value, expiry, counter.value + 1);
      HeldIsLive(held, now);
      var node, projected := MakeRoomFor(held, size, now);
      IndexedUnique(limits, items, lru.nodes, entries);
      ClearedThenWrite(limits, s, Abs(), e, now);
      Overwrite(node, value, expiry, size, projected);
      stored := true;
    }

    /** The same for `cas`, which also brings the number of deadlines up to date. */
    method ReplaceHeld(held: Item, value: Bytes, expiry: Time, now: Time) returns (stored: bool)
      requires Valid() && held.key in items && items[held.key] == held && !PastDeadline(held.expiresAt, now)
      modifies this, lru, lru.repr, counter
      ensures Valid() && lru.repr == old(lru.repr)
      ensures counter.value == old(counter.value) + if stored then 1 else 0
      ensures (Abs(), if stored then Stored else Failed(MemoryLimitExceeded))
           == Put(limits, old(Abs()), Entry(held.key, value, expiry, old(counter.value) + 1), now, Stored)
    {
      var hadTtl := held.expiresAt != 0;
      stored := WriteHeld(held, value, expiry, now, Stored);
      if stored {
        CountDeadline(hadTtl, expiry != 0);
      }
    }

    lemma HeldIsLive(held: Item, now: Time)
      requires Linked() && held.key in items && items[held.key] == held && !PastDeadline(held.expiresAt, now)
      ensures Unique(entries) && Find(entries, held.key).Some? && !Expired(Find(entries, held.key).value, now)
    {
      var at := IndexedLookup(limits, items, lru.nodes, entries, held.key);
    }

    /** The tail of `set`: size check, pressure logic, write. */
    method PutLocked(key: Key, value: Bytes, expiry: Time, now: Time, ghost ok: Reply) returns (stored: bool)
      requires Valid() && Unique(entries)
      requires Find(entries, key).Some? ==> !Expired(Find(entries, key).value, now)
      modifies this, lru, lru.repr, counter
      ensures Valid() && fresh(lru.repr - old(lru.repr))
      ensures counter.value == old(counter.value) + if stored then 1 else 0
      ensures (Abs(), if stored then ok else Failed(MemoryLimitExceeded))
           == Put(limits, old(Abs()), Entry(key, value, expiry, old(counter.value) + 1), now, ok)
    {
      var size := ItemSize(limits, key, |value|);
      if size > limits.maxMemoryBytes {
        return false;
      }
      ghost var s, e := Abs(), Entry(key, value, expiry, counter.value + 1);
      var projected := MakeRoom(key, size, now);
      IndexedUnique(limits, items, lru.nodes, entries);
      ClearedThenWrite(limits, s, Abs(), e, now);
      Commit(key, value, expiry, size, projected);
      stored := true;
    }

    method Set(key: Key, value: Bytes, ttl: int, now: Time) returns (r: Reply)
      requires Valid()
      modifies this, lru, lru.repr, counter
      ensures Valid() && fresh(lru.repr - old(lru.repr))
      ensures (Abs(), r) == Step(limits, old(Abs()), Op.Set(key, value, ttl), now, old(counter.value) + 1)
      ensures counter.value == old(counter.value) + if r.Wrote() then 1 else 0
    {
      if |value| > limits.maxValueBytes {
        return Failed(ValueTooLarge);
      }
      var item, at := Lookup(key, now);
      var stored := PutLocked(key, value, ExpiresAt(now, ttl), now, Stored);
      r := if stored then Stored else Failed(MemoryLimitExceeded);
    }

    method Get(key: Key, now: Time) returns (r: Reply)
      requires Valid()
      modifies this, lru, lru.repr, counter
      ensures Valid() && fresh(lru.repr - old(lru.repr))
      ensures (Abs(), r) == Step(limits, old(Abs()), Op.Get(key), now, old(counter.value) + 1)
      ensures counter.value == old(counter.value)
    {
      var item, at := Lookup(key, now);
      if item == null {
        return Miss;
      }
      WithoutAt(entries, at);
      MovedAccount(limits, entries, at);
      r := Hit(item.value, item.cas);
      assert entries[at := entries[at]] == entries;
      Refresh(item, at, entries[at]);
    }

    method Cas(key: Key, value: Bytes, ttl: int, expected: nat, now: Time) returns (r: Reply)
      requires Valid()
      modifies this, lru, lru.repr, counter
      ensures Valid() && fresh(lru.repr - old(lru.repr))
      ensures (Abs(), r) == Step(limits, old(Abs()), Op.Cas(key, value, ttl, expected), now, old(counter.value) + 1)
      ensures counter.value == old(counter.value) + if r.Wrote() then 1 else 0
    {
      if |value| > limits.maxValueBytes {
        return Failed(ValueTooLarge);
      }
      var existing, at := Lookup(key, now);
      if existing == null {
        return Failed(NotFound);
      }
      if existing.cas != expected {
        return Failed(CasMismatch);
      }
      var stored := ReplaceHeld(existing, value, ExpiresAt(now, ttl), now);
      r := if stored then Stored else Failed(MemoryLimitExceeded);
    }

    method Delete(key: Key, now: Time) returns (r: Reply)
      requires Valid()
      modifies this, lru, lru.repr, counter
      ensures Valid() && fresh(lru.repr - old(lru.repr))
      ensures (Abs(), r) == Step(limits, old(Abs()), Op.Delete(key), now, old(counter.value) + 1)
      ensures counter.value == old(counter.value)
    {
      var item, at := Lookup(key, now);
      if item == null {
        return Absent;
      }
      DeleteLocked(item, at);
      r := Deleted;
    }

    method Incr(key: Key, delta: nat, now: Time) returns (r: Reply)
      requires Valid()
      modifies this, lru, lru.repr, counter
      ensures Valid() && fresh(lru.repr - old(lru.repr))
      ensures (Abs(), r) == Step(limits, old(Abs()), Op.Incr(key, delta), now, old(counter.value) + 1)
      ensures counter.value == old(counter.value) + if r.Wrote() then 1 else 0
    {
      var item, at := Lookup(key, now);
      if item == null {
        return Failed(NotFound);
      }
      var sum := AddDelta(item.value, delta);
      if sum.Bad? {
        return Failed(sum.error);
      }
      var next := Format(sum.value);
      if |next| > limits.maxValueBytes {
        return Failed(ValueTooLarge);
      }
      var stored := WriteHeld(item, next, item.expiresAt, now, Counted(sum.value));
      r := if stored then Counted(sum.value) else Failed(MemoryLimitExceeded);
    }

    method CleanupExpired(ghost index: nat, now: Time) returns (r: Reply)
      requires Valid()
      modifies this, lru, lru.repr, counter
      ensures Valid() && fresh(lru.repr - old(lru.repr))
      ensures (Abs(), r) == Step(limits, old(Abs()), Op.Cleanup(index), now, old(counter.value) + 1)
      ensures r.Removed? && r.count == |old(entries)| - |entries| == expirations - old(expirations)
      ensures counter.value == old(counter.value)
    {
      var removed := RemoveExpiredLocked(now);
      r := Removed(removed);
    }

    /** Any operation, by name. */
    method Execute(op: Op, now: Time) returns (r: Reply)
      requires Valid()
      modifies this, lru, lru.repr, counter
      ensures Valid() && fresh(lru.repr - old(lru.repr))
      ensures (Abs(), r) == Step(limits, old(Abs()), op, now, old(counter.value) + 1)
      ensures counter.value == old(counter.value) + if r.Wrote() then 1 else 0
    {
      match op {
        case Set(key, value, ttl) => r := Set(key, value, ttl, now);
        case Get(key) => r := Get(key, now);
        case Cas(key, value, ttl, expected) => r := Cas(key, value, ttl, expected, now);
        case Delete(key) => r := Delete(key, now);
        case Incr(key, delta) => r := Incr(key, delta, now);
        case Cleanup(index) => r := CleanupExpired(index, now);
      }
    }

    /** The number of items, as `len(items)` gives it. */
    method Len() returns (n: nat)
      requires Valid()
      ensures n == |entries|
    {
      IndexedSize(items, lru.nodes);
      n := |items|;
    }
  }
}
