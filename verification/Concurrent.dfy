/** What the theorems about serial runs say about threads: they hold under every schedule. */
module Concurrent {
  import opened Types
  import opened Hash
  import opened Cache
  import opened ListLaws
  import opened Effects
  import opened Store
  import opened History
  import opened Ideal
  import opened Aba
  import Interleaving

  // ----- serial runs, place by place

  lemma {:induction false} ReplyAt(l: Limits, st: State, evs: seq<Event>, at: nat)
    requires 0 < |st.shards| && at < |evs|
    ensures Replies(l, st, evs)[at] == Apply(l, After(l, st, evs[..at]), evs[at]).1
  {
    var init := evs[..|evs| - 1];
    if at < |init| {
      ReplyAt(l, st, init, at);
      assert init[..at] == evs[..at] && init[at] == evs[at];
      assert Replies(l, st, evs)[at] == Replies(l, st, init)[at];
    }
  }

  lemma {:induction false} ClockedSoFar(evs: seq<Event>, n: nat, k: nat)
    requires 0 < n && k <= |evs| && Clocked(evs, n, 0)
    ensures Clocked(evs[..k], n, 0)
  {
    if k == |evs| {
      assert evs[..k] == evs;
    } else {
      ClockedSoFar(evs[..|evs| - 1], n, k);
      assert evs[..|evs| - 1][..k] == evs[..k];
    }
  }

  /** The state after a longer stretch of a run, from the state after a shorter one. */
  lemma AfterBetween(l: Limits, st: State, evs: seq<Event>, i: nat, j: nat, mid: State)
    requires 0 < |st.shards| && i <= j <= |evs| && mid == After(l, st, evs[..i])
    ensures After(l, st, evs[..j]) == After(l, mid, evs[i..j])
  {
    var a, b := evs[..i], evs[i..j];
    assert a + b == evs[..j];
    RunsCompose(l, st, a, b, mid);
  }

  /** One place of a run from an empty store: the states around it and its reply. */
  lemma Around(l: Limits, n: nat, evs: seq<Event>, at: nat, before: State, after: State)
    requires 0 < n && at < |evs|
    requires before == After(l, Init(n), evs[..at]) && after == After(l, Init(n), evs[..at + 1])
    ensures Inv(l, before) && Apply(l, before, evs[at]) == (after, Replies(l, Init(n), evs)[at])
  {
    InitInv(l, n);
    RunKeepsInv(l, Init(n), evs[..at]);
    ReplyAt(l, Init(n), evs, at);
    AfterLast(l, Init(n), evs[..at + 1], evs[..at], before);
  }

  // ----- replies

  /**
   * Under every schedule, every operation of every thread answers as the
   * unbounded map says at the operation's place in the serial order.
   */
  lemma RepliesAreIdeal(l: Limits, n: nat, acts: seq<Interleaving.Action>, at: nat)
    requires 0 < n && Interleaving.Feasible(l, Interleaving.Boot(n), acts)
    requires var y := Interleaving.Exec(l, Interleaving.Boot(n), acts);
      at in y.outcomes && !y.outcomes[at].event.op.Cleanup?
    ensures var y := Interleaving.Exec(l, Interleaving.Boot(n), acts);
      var ev := y.outcomes[at].event;
      && at < |y.order| && y.order[at] == ev
      && y.outcomes[at].reply == IdealReply(l, Visible(l, n, y.order[..at], ev.op.key, ev.now), ev.op)
  {
    var y := Interleaving.Exec(l, Interleaving.Boot(n), acts);
    Interleaving.Linearizable(l, n, acts);
    SerialIsIdeal(l, n, y.order, at, y.order[..at], y.order[at]);
  }

  lemma SerialIsIdeal(l: Limits, n: nat, order: seq<Event>, at: nat, before: seq<Event>, ev: Event)
    requires 0 < n && Clocked(order, n, 0) && at < |order| && before == order[..at] && ev == order[at]
    requires !ev.op.Cleanup?
    ensures Replies(l, Init(n), order)[at] == IdealReply(l, Visible(l, n, before, ev.op.key, ev.now), ev.op)
  {
    ReplyAt(l, Init(n), order, at);
    ClockedSoFar(order, n, at + 1);
    assert before + [ev] == order[..at + 1];
    Ideal.RepliesAreIdeal(l, n, before, ev);
  }

  // ----- tokens

  /** At place `a` of a serial run a read of the key returned the token, at place `b` a `cas` with it succeeded. */
  ghost predicate ReadAndSwapped(
      l: Limits, n: nat, order: seq<Event>, a: nat, b: nat, key: Key, value: Bytes, token: nat)
    requires 0 < n
  {
    var replies := Replies(l, Init(n), order);
    && a < |order| && order[a].op == Get(key) && replies[a] == Hit(value, token)
    && b < |order| && order[b].op.Cas? && order[b].op.key == key && order[b].op.expected == token
    && replies[b] == Stored
  }

  lemma HitCarries(l: Limits, st: State, key: Key, now: Time, value: Bytes, token: nat)
    requires 0 < |st.shards| && Apply(l, st, Event(Get(key), now)).1 == Hit(value, token)
    ensures Carries(st, key, token)
  {
    LapseFinds(st.shards[ShardIndex(key, |st.shards|)], key, now);
  }

  lemma SwapReplaces(l: Limits, st: State, write: Event, t: State)
    requires Inv(l, st) && write.op.Cas? && Apply(l, st, write) == (t, Stored)
    ensures Inv(l, t) && Carries(st, write.op.key, write.op.expected)
    ensures Cached(t, write.op.key).Some?
    ensures write.op.expected <= st.counter < Cached(t, write.op.key).value.cas == t.counter
  {
    ApplyKeepsInv(l, st, write);
    CasNeedsToken(l, st, write);
    TokenInRange(l, st, write.op.key);
    WriteIsStamped(l, st, write);
  }

  /** Once a `cas` has used a token up, nobody reads it again. */
  lemma UsedTokensAreGone(l: Limits, st: State, write: Event, t: State, more: seq<Event>)
    requires Inv(l, st) && write.op.Cas? && Apply(l, st, write) == (t, Stored)
    ensures 0 < |t.shards| && !Carries(After(l, t, more), write.op.key, write.op.expected)
  {
    SwapReplaces(l, st, write, t);
    if Carries(After(l, t, more), write.op.key, write.op.expected) {
      TokenWasThereThroughout(l, t, more, write.op.key, write.op.expected, 0);
    }
  }

  lemma ReadCameFirst(l: Limits, n: nat, order: seq<Event>, a: nat, b: nat, key: Key, value: Bytes, token: nat)
    requires 0 < n && ReadAndSwapped(l, n, order, a, b, key, value, token)
    ensures a < b
  {
    if b < a {
      var st, t, s := After(l, Init(n), order[..b]), After(l, Init(n), order[..b + 1]), After(l, Init(n), order[..a]);
      Around(l, n, order, b, st, t);
      UsedTokensAreGone(l, st, order[b], t, order[b + 1..a]);
      AfterBetween(l, Init(n), order, b + 1, a, t);
      ReplyAt(l, Init(n), order, a);
      HitCarries(l, s, key, order[a].now, value, token);
    }
  }

  /** At every point in between, the key held the entry that was read. */
  lemma HeldInBetween(l: Limits, n: nat, order: seq<Event>, a: nat, b: nat, key: Key, value: Bytes, token: nat, j: nat)
    requires 0 < n && ReadAndSwapped(l, n, order, a, b, key, value, token) && a < j <= b
    ensures var c := Cached(After(l, Init(n), order[..j]), key);
      c.Some? && c.value.value == value && c.value.cas == token && !Expired(c.value, order[b].now)
  {
    var st, seen := After(l, Init(n), order[..a]), After(l, Init(n), order[..a + 1]);
    var last, mid := After(l, Init(n), order[..b]), After(l, Init(n), order[..j]);
    Around(l, n, order, a, st, seen);
    ReplyAt(l, Init(n), order, b);
    Stretches(l, n, order, a + 1, j, b, seen);
    HeldAt(l, st, order[a], seen, value, token, order[a + 1..b], last, order[b], j - (a + 1), mid);
  }

  lemma Stretches(l: Limits, n: nat, order: seq<Event>, i: nat, j: nat, k: nat, mid: State)
    requires 0 < n && i <= j <= k <= |order| && mid == After(l, Init(n), order[..i])
    ensures After(l, Init(n), order[..k]) == After(l, mid, order[i..k])
    ensures After(l, Init(n), order[..j]) == After(l, mid, order[i..k][..j - i])
  {
    AfterBetween(l, Init(n), order, i, k, mid);
    AfterBetween(l, Init(n), order, i, j, mid);
    assert order[i..k][..j - i] == order[i..j];
  }

  lemma HeldAt(l: Limits, st: State, read: Event, seen: State, value: Bytes, token: nat,
               between: seq<Event>, last: State, write: Event, k: nat, mid: State)
    requires Inv(l, st) && read.op.Get? && Apply(l, st, read) == (seen, Hit(value, token))
    requires write.op.Cas? && write.op.key == read.op.key && write.op.expected == token
    requires 0 < |seen.shards| && k <= |between|
    requires last == After(l, seen, between) && Apply(l, last, write).1 == Stored
    requires mid == After(l, seen, between[..k])
    ensures 0 < |mid.shards|
    ensures var c := Cached(mid, read.op.key);
      c.Some? && c.value.value == value && c.value.cas == token && !Expired(c.value, write.now)
  {
    Aba.StaleTokensNeverMatch(l, st, read, seen, value, token, between, write, k);
  }

  /**
   * Under every schedule: if some thread's `get` returned a token and some
   * thread's `cas` with that token succeeded, then the `get` came first in the
   * serial order, and at every point in between the key held the very value and
   * token that were read, not yet expired.
   */
  lemma StaleTokensNeverMatch(
      l: Limits, n: nat, acts: seq<Interleaving.Action>, a: nat, b: nat, key: Key, value: Bytes, token: nat, j: nat)
    requires 0 < n && Interleaving.Feasible(l, Interleaving.Boot(n), acts)
    requires var done := Interleaving.Exec(l, Interleaving.Boot(n), acts).outcomes;
      && a in done && done[a].event.op == Get(key) && done[a].reply == Hit(value, token)
      && b in done && done[b].event.op.Cas? && done[b].event.op.key == key && done[b].event.op.expected == token
      && done[b].reply == Stored
    ensures a < b
    ensures var y := Interleaving.Exec(l, Interleaving.Boot(n), acts);
      a < j <= b ==>
        && j <= |y.order| && |After(l, Init(n), y.order[..j]).shards| == n
        && var c := Cached(After(l, Init(n), y.order[..j]), key);
           c.Some? && c.value.value == value && c.value.cas == token && !Expired(c.value, y.outcomes[b].event.now)
  {
    var y := Interleaving.Exec(l, Interleaving.Boot(n), acts);
    Interleaving.Linearizable(l, n, acts);
    assert ReadAndSwapped(l, n, y.order, a, b, key, value, token);
    ReadCameFirst(l, n, y.order, a, b, key, value, token);
    if a < j <= b {
      HeldInBetween(l, n, y.order, a, b, key, value, token, j);
    }
  }
}
