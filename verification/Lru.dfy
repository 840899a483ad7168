/** The intrusive doubly linked recency list, over the heap nodes that the shard's map also holds. */
module Lru {
  import opened Types
  import opened Sequences

  class Item {
    const key: Key
    var value: Bytes
    var expiresAt: Time
    var size: nat
    var cas: nat
    var prev: Item?
    var next: Item?

    constructor (key: Key, value: Bytes, expiresAt: Time, size: nat, cas: nat)
      ensures this.key == key && this.value == value && this.expiresAt == expiresAt
      ensures this.size == size && this.cas == cas
      ensures prev == null && next == null
    {
      this.key, this.value, this.expiresAt, this.size, this.cas := key, value, expiresAt, size, cas;
      prev, next := null, null;
    }
  }

  ghost function First(s: seq<Item>): Item? {
    if s == [] then null else s[0]
  }

  ghost function Last(s: seq<Item>): Item? {
    if s == [] then null else s[|s| - 1]
  }

  /** The links inside `s` mirror each other, and its ends point to `before` and `after`. */
  ghost predicate Chain(s: seq<Item>, before: Item?, after: Item?)
    reads s
  {
    && (forall i {:trigger s[i].prev} :: 0 <= i < |s| ==> s[i].prev == if i == 0 then before else s[i - 1])
    && (forall i {:trigger s[i].next} :: 0 <= i < |s| ==> s[i].next == if i == |s| - 1 then after else s[i + 1])
  }

  lemma SplitChain(s: seq<Item>, at: nat)
    requires at < |s| && Chain(s, null, null)
    ensures Chain(s[..at], null, s[at]) && Chain(s[at + 1..], s[at], null)
    ensures s[at].prev == Last(s[..at]) && s[at].next == First(s[at + 1..])
  {
  }

  lemma JoinChains(p: seq<Item>, q: seq<Item>)
    requires Chain(p, null, First(q)) && Chain(q, Last(p), null)
    ensures Chain(p + q, null, null)
  {
  }

  class List {
    var head: Item?
    var tail: Item?
    ghost var nodes: seq<Item>
    ghost var repr: set<Item>

    /** The nodes form one acyclic chain that starts at `head` and ends at `tail`. */
    ghost predicate Valid()
      reads this, repr
    {
      (forall i :: 0 <= i < |nodes| ==> nodes[i] in repr)
      && Distinct(nodes) && head == First(nodes) && tail == Last(nodes) && Chain(nodes, null, null)
    }

    constructor ()
      ensures Valid() && nodes == [] && repr == {}
    {
      head, tail, nodes, repr := null, null, [], {};
    }

    method PushFront(item: Item)
      requires Valid() && item !in nodes
      modifies this, item`prev, item`next, repr`prev
      ensures Valid() && nodes == [item] + old(nodes) && repr == old(repr) + {item}
    {
      AllApart(nodes);
      item.prev := null;
      item.next := head;
      if head != null {
        head.prev := item;
      }
      head := item;
      if tail == null {
        tail := item;
      }
      nodes := [item] + nodes;
      repr := repr + {item};
    }

    /** Unlinks the node at position `at`, which only the proof knows. */
    method Remove(item: Item, ghost at: nat)
      requires Valid() && at < |nodes| && nodes[at] == item
      modifies this, repr`prev, repr`next
      ensures Valid() && nodes == Cut(old(nodes), at) && repr == old(repr)
      ensures item !in nodes && item.prev == null && item.next == null
    {
      ghost var p, q := nodes[..at], nodes[at + 1..];
      AllApart(nodes);
      SplitChain(nodes, at);
      CutMember(nodes, at);
      if item.prev != null {
        item.prev.next := item.next;
      } else {
        head := item.next;
      }
      if item.next != null {
        item.next.prev := item.prev;
      } else {
        tail := item.prev;
      }
      item.prev := null;
      item.next := null;
      nodes := p + q;
      assert Chain(p, null, First(q));
      assert Chain(q, Last(p), null);
      JoinChains(p, q);
    }

    method MoveToFront(item: Item, ghost at: nat)
      requires Valid() && at < |nodes| && nodes[at] == item
      modifies this, repr`prev, repr`next
      ensures Valid() && nodes == [item] + Cut(old(nodes), at) && repr == old(repr)
    {
      AllApart(nodes);
      if head == item {
        return;
      }
      Remove(item, at);
      PushFront(item);
    }

    method Back() returns (item: Item?)
      requires Valid()
      ensures item == Last(nodes)
    {
      item := tail;
    }
  }
}
