/** Tokens over whole runs: a token that still matches proves that nothing happened to its key. */
module Aba {
  import opened Types
  import opened Hash
  import opened Cache
  import opened ListLaws
  import opened Effects
  import opened ShardLaws
  import opened Sweeper
  import opened Pressure
  import opened Store
  import opened History

  function Cached(st: State, key: Key): Option<Entry>
    requires 0 < |st.shards|
  {
    Find(st.shards[ShardIndex(key, |st.shards|)].entries, key)
  }

  predicate Carries(st: State, key: Key, token: nat)
    requires 0 < |st.shards|
  {
    Cached(st, key).Some? && Cached(st, key).value.cas == token
  }

  /** A token given out before an event and found after it was there all along, on an untouched entry. */
  lemma TokenWasThere(l: Limits, st: State, ev: Event, key: Key, token: nat)
    requires Inv(l, st) && token <= st.counter && Carries(Apply(l, st, ev).0, key, token)
    ensures Cached(st, key) == Cached(Apply(l, st, ev).0, key)
    ensures Concerns(ev.op, key) ==> !Apply(l, st, ev).1.Wrote() && !Apply(l, st, ev).1.Deleted?
  {
    var t, i := Apply(l, st, ev).0, ShardIndex(key, |st.shards|);
    var e := Cached(t, key).value;
    FindMember(t.shards[i].entries, key);
    assert In(t, i, e);
    ApplyMembers(l, st, ev, i, e);
    assert ShardInv(l, st.shards[i]);
    FindUnique(st.shards[i].entries, e);
  }

  /** Before event `j` of a run the key holds `e`, and the event neither writes nor deletes it. */
  ghost predicate UndisturbedAt(l: Limits, st: State, evs: seq<Event>, key: Key, e: Entry, j: nat)
    requires 0 < |st.shards| && j <= |evs|
  {
    && Cached(After(l, st, evs[..j]), key) == Some(e)
    && (j < |evs| && Concerns(evs[j].op, key) ==>
          !Apply(l, After(l, st, evs[..j]), evs[j]).1.Wrote() && !Apply(l, After(l, st, evs[..j]), evs[j]).1.Deleted?)
  }

  /** The same over a run: at every point of it the entry was there, and no operation wrote or deleted it. */
  lemma {:induction false} TokenWasThereThroughout(l: Limits, st: State, evs: seq<Event>, key: Key, token: nat, j: nat)
    requires Inv(l, st) && token <= st.counter && j <= |evs| && Carries(After(l, st, evs), key, token)
    ensures UndisturbedAt(l, st, evs, key, Cached(After(l, st, evs), key).value, j)
  {
    if j == |evs| {
      assert evs[..j] == evs;
    } else {
      var init, last := evs[..|evs| - 1], evs[|evs| - 1];
      RunKeepsInv(l, st, init);
      TokenWasThere(l, After(l, st, init), last, key, token);
      if j < |init| {
        TokenWasThereThroughout(l, st, init, key, token, j);
        assert evs[..j] == init[..j] && evs[j] == init[j];
      }
    }
  }

  lemma TokenHeld(l: Limits, st: State, evs: seq<Event>, key: Key, e: Entry, j: nat)
    requires Inv(l, st) && j <= |evs| && Cached(st, key) == Some(e) && Carries(After(l, st, evs), key, e.cas)
    ensures UndisturbedAt(l, st, evs, key, e, j)
    ensures Cached(After(l, st, evs), key) == Some(e)
  {
    TokenInRange(l, st, key);
    TokenWasThereThroughout(l, st, evs, key, e.cas, j);
    TokenWasThereThroughout(l, st, evs, key, e.cas, 0);
    assert evs[..0] == [];
  }

  /**
   * If a read returned a token and a later `cas` with that token succeeds, then
   * at every point in between the key held the very entry that was read, and it
   * has not expired: it was not written, deleted, evicted or lost.
   */
  lemma StaleTokensNeverMatch(
      l: Limits, st: State, read: Event, seen: State, value: Bytes, token: nat,
      between: seq<Event>, write: Event, j: nat)
    requires Inv(l, st) && read.op.Get? && Apply(l, st, read) == (seen, Hit(value, token))
    requires write.op.Cas? && write.op.key == read.op.key && write.op.expected == token
    requires Apply(l, After(l, seen, between), write).1 == Stored && j <= |between|
    ensures Cached(seen, read.op.key).Some?
    ensures var e := Cached(seen, read.op.key).value;
      && e.value == value && e.cas == token && !Expired(e, write.now)
      && UndisturbedAt(l, seen, between, read.op.key, e, j)
  {
    ApplyKeepsInv(l, st, read);
    ReadLeavesEntry(l, st, read);
    CasNeedsToken(l, After(l, seen, between), write);
    TokenHeld(l, seen, between, read.op.key, Cached(seen, read.op.key).value, j);
  }

  lemma TokenInRange(l: Limits, st: State, key: Key)
    requires Inv(l, st) && Cached(st, key).Some?
    ensures Cached(st, key).value.cas <= st.counter
  {
    var i := ShardIndex(key, |st.shards|);
    FindMember(st.shards[i].entries, key);
    assert In(st, i, Cached(st, key).value);
  }

  /** After a hit the key still holds the entry that was returned. */
  lemma ReadLeavesEntry(l: Limits, st: State, read: Event)
    requires 0 < |st.shards| && read.op.Get? && Apply(l, st, read).1.Hit?
    ensures var e := Cached(Apply(l, st, read).0, read.op.key);
      e.Some? && Apply(l, st, read).1 == Hit(e.value.value, e.value.cas)
  {
    var s := st.shards[ShardIndex(read.op.key, |st.shards|)];
    StepIsEffect(l, s, read.op, read.now, st.counter + 1);
    FindMember(s.entries, read.op.key);
  }

  /** A successful `cas` found a live entry with the expected token. */
  lemma CasNeedsToken(l: Limits, st: State, write: Event)
    requires 0 < |st.shards| && write.op.Cas? && Apply(l, st, write).1 == Stored
    ensures Carries(st, write.op.key, write.op.expected) && !Expired(Cached(st, write.op.key).value, write.now)
  {
    LapseFinds(st.shards[ShardIndex(write.op.key, |st.shards|)], write.op.key, write.now);
  }
}
