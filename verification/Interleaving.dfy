/**
 * Threads on a store: each operation locks its shard, reads the clock, adds to
 * the shared token counter if it is going to write, and unlocks. Operations on
 * different shards interleave at every one of these steps.
 */
module Interleaving {
  import opened Types
  import opened Sequences
  import opened Cache
  import opened ShardLaws
  import opened Store

  /** `begun` is the length of the serial order when the operation took its lock. */
  datatype Phase =
    | Idle
    | Held(op: Op, begun: nat)
    | Timed(op: Op, begun: nat, now: Time)
    | Tokened(op: Op, begun: nat, now: Time, token: nat, at: nat)

  /** A finished operation: when it began, what it was, and what it answered. */
  datatype Outcome = Outcome(begun: nat, event: Event, reply: Reply)

  /**
   * `order` lists the operations in the order in which they take effect, and
   * `outcomes` holds, by position in that order, those that have returned.
   */
  datatype System = System(
    shards: seq<Shard>, counter: nat, locks: seq<Option<nat>>, threads: map<nat, Phase>, clock: Time,
    order: seq<Event>, outcomes: map<nat, Outcome>)

  datatype Action =
    | Lock(thread: nat, op: Op)
    | ReadClock(thread: nat, now: Time)
    | Stamp(thread: nat)
    | Unlock(thread: nat)

  function PhaseOf(y: System, t: nat): Phase {
    if t in y.threads then y.threads[t] else Idle
  }

  /** The shard an active thread works on. */
  function Home(y: System, t: nat): (i: nat)
    requires 0 < |y.shards| && !PhaseOf(y, t).Idle?
    ensures i < |y.shards|
  {
    Route(PhaseOf(y, t).op, |y.shards|)
  }

  /** The state and reply an active thread arrives at if it is stamped with `token`. */
  function Outgoing(l: Limits, y: System, t: nat, token: nat): (Shard, Reply)
    requires 0 < |y.shards| && (PhaseOf(y, t).Timed? || PhaseOf(y, t).Tokened?)
  {
    Step(l, y.shards[Home(y, t)], PhaseOf(y, t).op, PhaseOf(y, t).now, token)
  }

  predicate Enabled(l: Limits, y: System, a: Action)
    requires 0 < |y.shards| == |y.locks|
  {
    match a
    case Lock(t, op) => PhaseOf(y, t).Idle? && y.locks[Route(op, |y.shards|)].None?
    case ReadClock(t, now) => PhaseOf(y, t).Held? && y.clock <= now
    case Stamp(t) => PhaseOf(y, t).Timed? && Outgoing(l, y, t, 0).1.Wrote()
    case Unlock(t) =>
      || PhaseOf(y, t).Tokened?
      || (PhaseOf(y, t).Timed? && !Outgoing(l, y, t, 0).1.Wrote())
  }

  function Do(l: Limits, y: System, a: Action): (z: System)
    requires 0 < |y.shards| == |y.locks| && Enabled(l, y, a)
    ensures |z.shards| == |z.locks| == |y.shards|
  {
    var t := a.thread;
    var p := PhaseOf(y, t);
    match a
    case Lock(_, op) =>
      y.(locks := y.locks[Route(op, |y.shards|) := Some(t)], threads := y.threads[t := Held(op, |y.order|)])
    case ReadClock(_, now) =>
      y.(threads := y.threads[t := Timed(p.op, p.begun, now)], clock := now)
    case Stamp(_) =>
      y.(counter := y.counter + 1,
         threads := y.threads[t := Tokened(p.op, p.begun, p.now, y.counter + 1, |y.order|)],
         order := y.order + [Event(p.op, p.now)])
    case Unlock(_) =>
      var (s, r) := Outgoing(l, y, t, if p.Tokened? then p.token else 0);
      var at := if p.Tokened? then p.at else |y.order|;
      y.(shards := y.shards[Home(y, t) := s],
         locks := y.locks[Home(y, t) := None],
         threads := y.threads[t := Idle],
         order := if p.Tokened? then y.order else y.order + [Event(p.op, p.now)],
         outcomes := y.outcomes[at := Outcome(p.begun, Event(p.op, p.now), r)])
  }

  function Boot(n: nat): System {
    System(Init(n).shards, 0, seq(n, _ => None), map[], 0, [], map[])
  }

  // ----- the invariant

  /** Locks and active threads match. */
  ghost predicate LocksMatch(y: System) {
    && 0 < |y.shards| == |y.locks|
    && (forall t: nat {:trigger PhaseOf(y, t)} :: !PhaseOf(y, t).Idle? ==> y.locks[Home(y, t)] == Some(t))
    && (forall i {:trigger y.locks[i]} :: 0 <= i < |y.locks| && y.locks[i].Some? ==>
          !PhaseOf(y, y.locks[i].value).Idle? && Home(y, y.locks[i].value) == i)
  }

  /** A shard as the serial order sees it: a stamped operation counts as done. */
  function Settled(l: Limits, y: System, i: nat): Shard
    requires i < |y.shards| == |y.locks|
  {
    match y.locks[i]
    case None => y.shards[i]
    case Some(t) =>
      if PhaseOf(y, t).Tokened? && Home(y, t) == i then Outgoing(l, y, t, PhaseOf(y, t).token).0 else y.shards[i]
  }

  /** The state after running the serial order. */
  function Serial(l: Limits, y: System): (st: State)
    requires 0 < |y.shards|
    ensures |st.shards| == |y.shards|
  {
    After(l, Init(|y.shards|), y.order)
  }

  function SerialReplies(l: Limits, y: System): (rs: seq<Reply>)
    requires 0 < |y.shards|
    ensures |rs| == |y.order|
  {
    Replies(l, Init(|y.shards|), y.order)
  }

  /** A stamped operation has its place in the serial order and will give that place's reply. */
  ghost predicate Promised(l: Limits, y: System, t: nat)
    requires 0 < |y.shards|
  {
    PhaseOf(y, t).Tokened? ==>
      var p := PhaseOf(y, t);
      && p.begun <= p.at < |y.order| && y.order[p.at] == Event(p.op, p.now)
      && SerialReplies(l, y)[p.at] == Outgoing(l, y, t, p.token).1
  }

  /** A finished operation gave the reply of its place in the serial order. */
  ghost predicate Kept(l: Limits, y: System, at: nat)
    requires 0 < |y.shards|
  {
    at in y.outcomes ==>
      && y.outcomes[at].begun <= at < |y.order| && y.order[at] == y.outcomes[at].event
      && SerialReplies(l, y)[at] == y.outcomes[at].reply
  }

  /** The serial run explains the counter, every shard, and every reply given or about to be given. */
  ghost predicate Explained(l: Limits, y: System) {
    && 0 < |y.shards| == |y.locks|
    && Serial(l, y).counter == y.counter
    && (forall i {:trigger Settled(l, y, i)} :: 0 <= i < |y.shards| ==> Serial(l, y).shards[i] == Settled(l, y, i))
    && (forall t {:trigger Promised(l, y, t)} :: Promised(l, y, t))
    && (forall at {:trigger Kept(l, y, at)} :: Kept(l, y, at))
  }

  ghost predicate Waiting(y: System, t: nat)
    requires 0 < |y.shards|
  {
    && (PhaseOf(y, t).Timed? ==> ShardClock(y.order, Home(y, t), |y.shards|, 0) <= PhaseOf(y, t).now <= y.clock)
    && (PhaseOf(y, t).Held? || PhaseOf(y, t).Timed? ==> PhaseOf(y, t).begun <= |y.order|)
  }

  /** Each shard's clock readings come in order, so the serial run is a clocked one. */
  ghost predicate Timely(y: System) {
    var n := |y.shards|;
    && 0 < n
    && Clocked(y.order, n, 0)
    && (forall i: nat {:trigger ShardClock(y.order, i, n, 0)} :: ShardClock(y.order, i, n, 0) <= y.clock)
    && (forall t {:trigger Waiting(y, t)} :: Waiting(y, t))
  }

  ghost predicate Inv(l: Limits, y: System) {
    LocksMatch(y) && Explained(l, y) && Timely(y)
  }

  lemma HomesApart(y: System, t: nat, u: nat)
    requires LocksMatch(y) && t != u && !PhaseOf(y, t).Idle? && !PhaseOf(y, u).Idle?
    ensures Home(y, t) != Home(y, u)
  {
  }

  /** A step of one thread leaves the others, and the shards they hold, alone. */
  lemma OthersUntouched(l: Limits, y: System, a: Action, u: nat)
    requires LocksMatch(y) && Enabled(l, y, a) && u != a.thread
    ensures PhaseOf(Do(l, y, a), u) == PhaseOf(y, u)
    ensures !PhaseOf(y, u).Idle? ==> Do(l, y, a).shards[Home(y, u)] == y.shards[Home(y, u)]
    ensures PhaseOf(y, u).Tokened? ==>
      Outgoing(l, Do(l, y, a), u, PhaseOf(y, u).token) == Outgoing(l, y, u, PhaseOf(y, u).token)
  {
    if a.Unlock? && !PhaseOf(y, u).Idle? {
      HomesApart(y, a.thread, u);
    }
  }

  lemma LocksStayMatched(l: Limits, y: System, a: Action)
    requires LocksMatch(y) && Enabled(l, y, a)
    ensures LocksMatch(Do(l, y, a))
  {
    var z := Do(l, y, a);
    var t := a.thread;
    forall u: nat | !PhaseOf(z, u).Idle? ensures z.locks[Home(z, u)] == Some(u) {
      if u != t {
        OthersUntouched(l, y, a, u);
        if !PhaseOf(y, t).Idle? {
          HomesApart(y, t, u);
        }
      }
    }
    forall i | 0 <= i < |z.locks| && z.locks[i].Some?
      ensures !PhaseOf(z, z.locks[i].value).Idle? && Home(z, z.locks[i].value) == i
    {
      var u := z.locks[i].value;
      if u != t {
        OthersUntouched(l, y, a, u);
      }
    }
  }

  /** Where the serial run is after a thread that has read the clock takes effect. */
  lemma SerialStep(l: Limits, y: System, t: nat)
    requires Inv(l, y) && PhaseOf(y, t).Timed?
    ensures var n, p := |y.shards|, PhaseOf(y, t);
      var ev := Event(p.op, p.now);
      var (s, r) := Outgoing(l, y, t, y.counter + 1);
      && After(l, Init(n), y.order + [ev])
         == State(Serial(l, y).shards[Home(y, t) := s], y.counter + if r.Wrote() then 1 else 0)
      && Replies(l, Init(n), y.order + [ev]) == SerialReplies(l, y) + [r]
      && r == Outgoing(l, y, t, 0).1
      && (!r.Wrote() ==> s == Outgoing(l, y, t, 0).0)
  {
    var n, p, i := |y.shards|, PhaseOf(y, t), Home(y, t);
    assert Settled(l, y, i) == y.shards[i];
    ExtendRun(l, Init(n), y.order, Event(p.op, p.now));
    TokenFree(l, y.shards[i], p.op, p.now, y.counter + 1, 0);
  }

  /** An action that does not extend the serial order changes no settled shard. */
  lemma QuietKeepsUp(l: Limits, y: System, a: Action, i: nat)
    requires Inv(l, y) && Enabled(l, y, a) && i < |y.shards| && !PhaseOf(y, a.thread).Timed?
    ensures Do(l, y, a).order == y.order && Do(l, y, a).counter == y.counter
    ensures Settled(l, Do(l, y, a), i) == Settled(l, y, i)
  {
    var z := Do(l, y, a);
    if z.locks[i].Some? && z.locks[i].value != a.thread {
      OthersUntouched(l, y, a, z.locks[i].value);
    }
  }

  /** An action that extends it settles the shard of its thread and no other. */
  lemma TimedKeepsUp(l: Limits, y: System, a: Action, i: nat)
    requires Inv(l, y) && Enabled(l, y, a) && i < |y.shards| && PhaseOf(y, a.thread).Timed?
    ensures var (s, r) := Outgoing(l, y, a.thread, y.counter + 1);
      && Do(l, y, a).counter == y.counter + (if r.Wrote() then 1 else 0)
      && Settled(l, Do(l, y, a), i) == if i == Home(y, a.thread) then s else Settled(l, y, i)
  {
    var z := Do(l, y, a);
    SerialStep(l, y, a.thread);
    if z.locks[i].Some? && z.locks[i].value != a.thread {
      OthersUntouched(l, y, a, z.locks[i].value);
    }
  }

  lemma SerialKeepsUp(l: Limits, y: System, a: Action, i: nat)
    requires Inv(l, y) && Enabled(l, y, a) && i < |y.shards|
    ensures Serial(l, Do(l, y, a)).counter == Do(l, y, a).counter
    ensures Serial(l, Do(l, y, a)).shards[i] == Settled(l, Do(l, y, a), i)
  {
    assert Serial(l, y).shards[i] == Settled(l, y, i);
    if PhaseOf(y, a.thread).Timed? {
      SerialStep(l, y, a.thread);
      TimedKeepsUp(l, y, a, i);
    } else {
      QuietKeepsUp(l, y, a, i);
    }
  }

  lemma OrderGrows(l: Limits, y: System, a: Action)
    requires Inv(l, y) && Enabled(l, y, a)
    ensures y.order <= Do(l, y, a).order
    ensures SerialReplies(l, y) <= SerialReplies(l, Do(l, y, a))
  {
    if PhaseOf(y, a.thread).Timed? {
      SerialStep(l, y, a.thread);
    }
  }

  lemma PromisesStay(l: Limits, y: System, a: Action, u: nat)
    requires Inv(l, y) && Enabled(l, y, a)
    ensures Promised(l, Do(l, y, a), u)
  {
    if u == a.thread {
      OwnPromise(l, y, a);
    } else {
      OrderGrows(l, y, a);
      assert Promised(l, y, u);
      OthersUntouched(l, y, a, u);
    }
  }

  lemma OwnPromise(l: Limits, y: System, a: Action)
    requires Inv(l, y) && Enabled(l, y, a)
    ensures Promised(l, Do(l, y, a), a.thread)
  {
    if a.Stamp? {
      SerialStep(l, y, a.thread);
      assert Waiting(y, a.thread);
      assert Outgoing(l, Do(l, y, a), a.thread, y.counter + 1) == Outgoing(l, y, a.thread, y.counter + 1);
    }
  }

  lemma OutcomesStay(l: Limits, y: System, a: Action, at: nat)
    requires Inv(l, y) && Enabled(l, y, a)
    ensures Kept(l, Do(l, y, a), at)
  {
    var t := a.thread;
    OrderGrows(l, y, a);
    assert Kept(l, y, at);
    if a.Unlock? {
      if PhaseOf(y, t).Timed? {
        SerialStep(l, y, t);
        assert Waiting(y, t);
      } else {
        assert Promised(l, y, t);
      }
    }
  }

  lemma OtherStaysWaiting(l: Limits, y: System, a: Action, u: nat)
    requires Inv(l, y) && Enabled(l, y, a) && u != a.thread
    ensures Waiting(Do(l, y, a), u)
  {
    var t, n := a.thread, |y.shards|;
    assert Waiting(y, u) && Waiting(y, t);
    OthersUntouched(l, y, a, u);
    if PhaseOf(y, t).Timed? {
      Extend(y.order, Event(PhaseOf(y, t).op, PhaseOf(y, t).now), n, 0);
      if !PhaseOf(y, u).Idle? {
        HomesApart(y, t, u);
      }
    }
  }

  lemma StaysTimely(l: Limits, y: System, a: Action)
    requires Inv(l, y) && Enabled(l, y, a)
    ensures Timely(Do(l, y, a))
  {
    var z, t, n := Do(l, y, a), a.thread, |y.shards|;
    assert Waiting(y, t);
    if PhaseOf(y, t).Timed? {
      Extend(y.order, Event(PhaseOf(y, t).op, PhaseOf(y, t).now), n, 0);
    }
    forall u: nat ensures Waiting(z, u) {
      if u != t {
        OtherStaysWaiting(l, y, a, u);
      }
    }
  }

  lemma DoKeepsInv(l: Limits, y: System, a: Action)
    requires Inv(l, y) && Enabled(l, y, a)
    ensures Inv(l, Do(l, y, a))
  {
    var z := Do(l, y, a);
    LocksStayMatched(l, y, a);
    StaysTimely(l, y, a);
    assert Serial(l, z).counter == z.counter by { SerialKeepsUp(l, y, a, 0); }
    forall i: nat | i < |z.shards| ensures Serial(l, z).shards[i] == Settled(l, z, i) { SerialKeepsUp(l, y, a, i); }
    forall u: nat ensures Promised(l, z, u) { PromisesStay(l, y, a, u); }
    forall at: nat ensures Kept(l, z, at) { OutcomesStay(l, y, a, at); }
  }

  // ----- whole runs

  /** The actions can be taken in this order. */
  ghost predicate Feasible(l: Limits, y: System, acts: seq<Action>)
    decreases |acts|
  {
    && 0 < |y.shards| == |y.locks|
    && (acts != [] ==> Enabled(l, y, acts[0]) && Feasible(l, Do(l, y, acts[0]), acts[1..]))
  }

  ghost function Exec(l: Limits, y: System, acts: seq<Action>): (z: System)
    requires Feasible(l, y, acts)
    ensures |z.shards| == |z.locks| == |y.shards|
    decreases |acts|
  {
    if acts == [] then y else Exec(l, Do(l, y, acts[0]), acts[1..])
  }

  /** Every place in the serial order has been answered or is about to be. */
  ghost predicate Complete(y: System) {
    forall at: nat {:trigger at in y.outcomes} :: at < |y.order| && at !in y.outcomes ==>
      exists t :: PhaseOf(y, t).Tokened? && PhaseOf(y, t).at == at
  }

  lemma StaysComplete(l: Limits, y: System, a: Action)
    requires LocksMatch(y) && Complete(y) && Enabled(l, y, a)
    ensures Complete(Do(l, y, a))
  {
    var z := Do(l, y, a);
    forall at: nat | at < |z.order| && at !in z.outcomes
      ensures exists t :: PhaseOf(z, t).Tokened? && PhaseOf(z, t).at == at
    {
      if at < |y.order| {
        assert at !in y.outcomes;
        var t :| PhaseOf(y, t).Tokened? && PhaseOf(y, t).at == at;
        assert PhaseOf(z, t).Tokened? && PhaseOf(z, t).at == at;
      } else {
        assert PhaseOf(z, a.thread).Tokened? && PhaseOf(z, a.thread).at == at;
      }
    }
  }

  lemma BootInv(l: Limits, n: nat)
    requires 0 < n
    ensures Inv(l, Boot(n)) && Complete(Boot(n))
  {
    var y := Boot(n);
    forall i | 0 <= i < n ensures Serial(l, y).shards[i] == Settled(l, y, i) { }
    forall t: nat ensures Promised(l, y, t) && Waiting(y, t) { }
  }

  lemma {:induction false} ExecKeepsInv(l: Limits, y: System, acts: seq<Action>)
    requires Inv(l, y) && Complete(y) && Feasible(l, y, acts)
    ensures Inv(l, Exec(l, y, acts)) && Complete(Exec(l, y, acts))
    decreases |acts|
  {
    if acts != [] {
      DoKeepsInv(l, y, acts[0]);
      StaysComplete(l, y, acts[0]);
      ExecKeepsInv(l, Do(l, y, acts[0]), acts[1..]);
    }
  }

  /**
   * Every interleaving answers as one serial run does. That run reads each
   * shard's clock in order. Once all threads are idle it has answered every
   * operation and its final store is the system's.
   */
  lemma Linearizable(l: Limits, n: nat, acts: seq<Action>)
    requires 0 < n && Feasible(l, Boot(n), acts)
    ensures var y := Exec(l, Boot(n), acts);
      && |y.shards| == n
      && Clocked(y.order, n, 0)
      && (forall at :: at in y.outcomes ==>
            && at < |y.order| && y.outcomes[at].event == y.order[at]
            && y.outcomes[at].reply == Replies(l, Init(n), y.order)[at])
      && y.counter == Writes(Replies(l, Init(n), y.order))
      && ((forall t :: PhaseOf(y, t).Idle?) ==>
            && State(y.shards, y.counter) == After(l, Init(n), y.order)
            && forall at :: 0 <= at < |y.order| ==> at in y.outcomes)
  {
    var y := Exec(l, Boot(n), acts);
    BootInv(l, n);
    ExecKeepsInv(l, Boot(n), acts);
    CounterCountsWrites(l, Init(n), y.order);
    forall at | at in y.outcomes
      ensures at < |y.order| && y.outcomes[at].event == y.order[at]
      ensures y.outcomes[at].reply == Replies(l, Init(n), y.order)[at]
    {
      assert Kept(l, y, at);
    }
    if forall t :: PhaseOf(y, t).Idle? {
      AllSettled(l, y);
    }
  }

  lemma AllSettled(l: Limits, y: System)
    requires Inv(l, y) && forall t :: PhaseOf(y, t).Idle?
    ensures y.shards == Serial(l, y).shards
  {
    forall i: nat | i < |y.shards| ensures y.shards[i] == Serial(l, y).shards[i] {
      assert Serial(l, y).shards[i] == Settled(l, y, i);
    }
  }

  /**
   * Nothing blocks but locks: an idle thread can start an operation if and only if
   * its shard is unlocked, and a thread that has started can always go on, with
   * at most three more actions until it is idle again.
   */
  lemma OnlyLocksBlock(l: Limits, y: System, t: nat, op: Op)
    requires LocksMatch(y)
    ensures PhaseOf(y, t).Idle? ==> (Enabled(l, y, Lock(t, op)) <==> y.locks[Route(op, |y.shards|)].None?)
    ensures PhaseOf(y, t).Held? ==> Enabled(l, y, ReadClock(t, y.clock))
    ensures Enabled(l, y, ReadClock(t, y.clock)) ==> PhaseOf(Do(l, y, ReadClock(t, y.clock)), t).Timed?
    ensures PhaseOf(y, t).Timed? ==> Enabled(l, y, Stamp(t)) || Enabled(l, y, Unlock(t))
    ensures Enabled(l, y, Stamp(t)) ==> PhaseOf(Do(l, y, Stamp(t)), t).Tokened?
    ensures PhaseOf(y, t).Tokened? ==> Enabled(l, y, Unlock(t))
    ensures Enabled(l, y, Unlock(t)) ==> PhaseOf(Do(l, y, Unlock(t)), t).Idle?
  {
  }

  // ----- real time

  lemma {:induction false} PrefixRuns(l: Limits, y: System, acts: seq<Action>, i: nat)
    requires Feasible(l, y, acts) && i <= |acts|
    ensures Feasible(l, y, acts[..i])
    ensures i < |acts| ==>
      && Enabled(l, Exec(l, y, acts[..i]), acts[i])
      && Feasible(l, y, acts[..i + 1]) && Exec(l, y, acts[..i + 1]) == Do(l, Exec(l, y, acts[..i]), acts[i])
    decreases |acts|
  {
    if acts != [] {
      var z, rest := Do(l, y, acts[0]), acts[1..];
      if i == 0 {
        assert acts[..1][1..] == [];
      } else {
        PrefixRuns(l, z, rest, i - 1);
        TailOfPrefix(acts, i);
        if i < |acts| {
          TailOfPrefix(acts, i + 1);
        }
      }
    }
  }

  /** The system after the first `i` actions of a schedule. */
  ghost function SystemAt(l: Limits, n: nat, acts: seq<Action>, i: nat): System
    requires 0 < n && Feasible(l, Boot(n), acts) && i <= |acts|
  {
    PrefixRuns(l, Boot(n), acts, i);
    Exec(l, Boot(n), acts[..i])
  }

  /** One action of a schedule. */
  lemma NextSystem(l: Limits, n: nat, acts: seq<Action>, i: nat, y: System)
    requires 0 < n && Feasible(l, Boot(n), acts) && i < |acts| && y == SystemAt(l, n, acts, i)
    ensures Inv(l, y) && |y.shards| == n && Enabled(l, y, acts[i]) && SystemAt(l, n, acts, i + 1) == Do(l, y, acts[i])
  {
    PrefixRuns(l, Boot(n), acts, i);
    BootInv(l, n);
    ExecKeepsInv(l, Boot(n), acts[..i]);
  }

  lemma {:induction false} OrderOnlyGrows(l: Limits, n: nat, acts: seq<Action>, i: nat, j: nat)
    requires 0 < n && Feasible(l, Boot(n), acts) && i <= j <= |acts|
    ensures SystemAt(l, n, acts, i).order <= SystemAt(l, n, acts, j).order
    decreases j
  {
    if i < j {
      OrderOnlyGrows(l, n, acts, i, j - 1);
      var y := SystemAt(l, n, acts, j - 1);
      NextSystem(l, n, acts, j - 1, y);
      OrderGrows(l, y, acts[j - 1]);
    }
  }

  /** The place in the serial order at which a thread's operation answers when it unlocks. */
  function Place(y: System, t: nat): nat {
    if PhaseOf(y, t).Tokened? then PhaseOf(y, t).at else |y.order|
  }

  /** Unlocking records the outcome at that place, which is not before the operation began. */
  lemma UnlockAnswers(l: Limits, y: System, t: nat)
    requires Inv(l, y) && Enabled(l, y, Unlock(t))
    ensures PhaseOf(y, t).begun <= Place(y, t) < |Do(l, y, Unlock(t)).order|
    ensures Place(y, t) in Do(l, y, Unlock(t)).outcomes
    ensures Do(l, y, Unlock(t)).outcomes[Place(y, t)].event == Event(PhaseOf(y, t).op, PhaseOf(y, t).now)
  {
    assert Promised(l, y, t) && Waiting(y, t);
  }

  lemma BegunKept(l: Limits, y: System, a: Action, t: nat)
    requires LocksMatch(y) && Enabled(l, y, a) && !PhaseOf(y, t).Idle? && a != Unlock(t)
    ensures !PhaseOf(Do(l, y, a), t).Idle? && PhaseOf(Do(l, y, a), t).begun == PhaseOf(y, t).begun
  {
    if a.thread != t {
      OthersUntouched(l, y, a, t);
    }
  }

  /** From its lock on, and until it unlocks, an operation remembers how long the serial order was. */
  lemma {:induction false} BegunStays(l: Limits, n: nat, acts: seq<Action>, j: nat, k: nat, t: nat, op: Op)
    requires 0 < n && Feasible(l, Boot(n), acts) && j < k <= |acts| && acts[j] == Lock(t, op)
    requires forall i :: j < i < k ==> acts[i] != Unlock(t)
    ensures var p := PhaseOf(SystemAt(l, n, acts, k), t);
      !p.Idle? && p.begun == |SystemAt(l, n, acts, j).order|
    decreases k
  {
    var y := SystemAt(l, n, acts, k - 1);
    NextSystem(l, n, acts, k - 1, y);
    if j < k - 1 {
      BegunStays(l, n, acts, j, k - 1, t, op);
      BegunKept(l, y, acts[k - 1], t);
    }
  }

  /**
   * The serial order respects real time: an operation that locks its shard after
   * another has unlocked answers at a later place, whatever the schedule does in
   * between.
   */
  lemma RealTimeOrder(l: Limits, n: nat, acts: seq<Action>, i: nat, j: nat, k: nat, u: nat, t: nat, op: Op)
    requires 0 < n && Feasible(l, Boot(n), acts) && i < j < k < |acts|
    requires acts[i] == Unlock(u) && acts[j] == Lock(t, op) && acts[k] == Unlock(t)
    requires forall m :: j < m < k ==> acts[m] != Unlock(t)
    ensures Place(SystemAt(l, n, acts, i), u) < Place(SystemAt(l, n, acts, k), t)
  {
    NextSystem(l, n, acts, i, SystemAt(l, n, acts, i));
    NextSystem(l, n, acts, k, SystemAt(l, n, acts, k));
    UnlockAnswers(l, SystemAt(l, n, acts, i), u);
    UnlockAnswers(l, SystemAt(l, n, acts, k), t);
    OrderOnlyGrows(l, n, acts, i + 1, j);
    BegunStays(l, n, acts, j, k, t, op);
  }
}
