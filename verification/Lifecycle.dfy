/**
 * Connection handlers: the slot, WaitGroup, registry and counter regions of
 * `ServeConn`, under every interleaving of any number of handlers.
 */
module Lifecycle {
  import opened Types

  /** Where a handler stands; each step of `ServeConn` and each of its deferred calls is a move of its own. */
  datatype Stage =
    | Fresh | Counted | Refused | Rejected
    | Slotted | Awaited | Registered | Active | Closed | Inactive | Deregistered | Unawaited | Finished

  predicate IsCounted(s: Stage) { !s.Fresh? }
  predicate IsRejected(s: Stage) { s.Rejected? }
  predicate IsFinished(s: Stage) { s.Finished? }
  predicate HoldsSlot(s: Stage) { s.Slotted? || s.Unawaited? || IsAwaited(s) }
  predicate IsAwaited(s: Stage) { s.Awaited? || s.Deregistered? || IsRegistered(s) }
  predicate IsRegistered(s: Stage) { s.Registered? || s.Inactive? || IsActive(s) }
  predicate IsActive(s: Stage) { s.Active? || s.Closed? }

  /** A handler between its first move and its last. */
  predicate InFlight(s: Stage) { s.Counted? || s.Refused? || HoldsSlot(s) }

  /** The shared state; `slots` is the fill of the semaphore channel, which is not used when there is no cap. */
  datatype Shared = Shared(accepted: int, rejected: int, active: int, conns: set<nat>, waitGroup: int, slots: int)

  datatype Server = Server(handlers: seq<Stage>, shared: Shared)

  function Boot(n: nat): Server {
    Server(seq(n, _ => Fresh), Shared(0, 0, 0, {}, 0, 0))
  }

  /** The move of handler `h` out of a stage. */
  function Step(cap: Option<nat>, sh: Shared, h: nat, s: Stage): (Stage, Shared) {
    match s
    case Fresh => (Counted, sh.(accepted := sh.accepted + 1))
    case Counted =>
      if cap.None? then (Slotted, sh)
      else if sh.slots < cap.value then (Slotted, sh.(slots := sh.slots + 1))
      else (Refused, sh)
    case Refused => (Rejected, sh.(rejected := sh.rejected + 1))
    case Slotted => (Awaited, sh.(waitGroup := sh.waitGroup + 1))
    case Awaited => (Registered, sh.(conns := sh.conns + {h}))
    case Registered => (Active, sh.(active := sh.active + 1))
    case Active => (Closed, sh)
    case Closed => (Inactive, sh.(active := sh.active - 1))
    case Inactive => (Deregistered, sh.(conns := sh.conns - {h}))
    case Deregistered => (Unawaited, sh.(waitGroup := sh.waitGroup - 1))
    case Unawaited => (Finished, if cap.None? then sh else sh.(slots := sh.slots - 1))
    case Rejected => (s, sh)
    case Finished => (s, sh)
  }

  function Move(cap: Option<nat>, sv: Server, h: nat): (t: Server)
    requires h < |sv.handlers|
    ensures |t.handlers| == |sv.handlers|
  {
    var (s, sh) := Step(cap, sv.shared, h, sv.handlers[h]);
    Server(sv.handlers[h := s], sh)
  }

  /** Any schedule of any length over `n` handlers. */
  function Run(cap: Option<nat>, n: nat, schedule: seq<nat>): (t: Server)
    ensures |t.handlers| == n
  {
    if schedule == [] then Boot(n)
    else
      var sv, h := Run(cap, n, schedule[..|schedule| - 1]), schedule[|schedule| - 1];
      if h < n then Move(cap, sv, h) else sv
  }

  // ----- counting handlers

  function Bit(b: bool): nat {
    if b then 1 else 0
  }

  function Count(p: Stage -> bool, hs: seq<Stage>): nat {
    if hs == [] then 0 else Bit(p(hs[0])) + Count(p, hs[1..])
  }

  lemma {:induction false} CountUpdate(p: Stage -> bool, hs: seq<Stage>, h: nat, s: Stage)
    requires h < |hs|
    ensures Count(p, hs[h := s]) == Count(p, hs) - Bit(p(hs[h])) + Bit(p(s))
  {
    if h == 0 {
      assert hs[0 := s][1..] == hs[1..];
    } else {
      CountUpdate(p, hs[1..], h - 1, s);
      assert hs[h := s][1..] == hs[1..][h - 1 := s];
    }
  }

  lemma {:induction false} CountNone(p: Stage -> bool, hs: seq<Stage>)
    requires forall i :: 0 <= i < |hs| ==> !p(hs[i])
    ensures Count(p, hs) == 0
  {
    if hs != [] {
      CountNone(p, hs[1..]);
    }
  }

  lemma {:induction false} CountSome(p: Stage -> bool, hs: seq<Stage>, h: nat)
    requires h < |hs| && p(hs[h])
    ensures Count(p, hs) > 0
  {
    if h > 0 {
      CountSome(p, hs[1..], h - 1);
    }
  }

  /** A region inside another holds no more handlers. */
  lemma {:induction false} CountWithin(p: Stage -> bool, q: Stage -> bool, hs: seq<Stage>)
    requires forall s :: p(s) ==> q(s)
    ensures Count(p, hs) <= Count(q, hs)
  {
    if hs != [] {
      CountWithin(p, q, hs[1..]);
    }
  }

  lemma {:induction false} CountSplits(hs: seq<Stage>)
    ensures Count(IsCounted, hs) == Count(IsRejected, hs) + Count(IsFinished, hs) + Count(InFlight, hs)
  {
    if hs != [] {
      CountSplits(hs[1..]);
    }
  }

  // ----- what every interleaving keeps

  ghost predicate Registry(hs: seq<Stage>, conns: set<nat>) {
    && |conns| == Count(IsRegistered, hs)
    && forall h: nat :: h in conns <==> h < |hs| && IsRegistered(hs[h])
  }

  /** Every shared counter is the number of handlers in its region. */
  ghost predicate Inv(cap: Option<nat>, sv: Server) {
    var hs, sh := sv.handlers, sv.shared;
    && sh.accepted == Count(IsCounted, hs)
    && sh.rejected == Count(IsRejected, hs)
    && sh.active == Count(IsActive, hs)
    && sh.waitGroup == Count(IsAwaited, hs)
    && Registry(hs, sh.conns)
    && sh.slots == (if cap.None? then 0 else Count(HoldsSlot, hs))
    && (cap.Some? ==> sh.slots <= cap.value)
  }

  lemma BootInv(cap: Option<nat>, n: nat)
    ensures Inv(cap, Boot(n))
  {
    var hs := Boot(n).handlers;
    CountNone(IsCounted, hs);
    CountNone(IsRejected, hs);
    CountNone(IsActive, hs);
    CountNone(IsAwaited, hs);
    CountNone(IsRegistered, hs);
    CountNone(HoldsSlot, hs);
  }

  /** A move changes a counter exactly when its handler enters or leaves the counter's region. */
  lemma StepCounts(cap: Option<nat>, sh: Shared, h: nat, s: Stage)
    ensures var (t, sh1) := Step(cap, sh, h, s);
      && sh1.accepted == sh.accepted - Bit(IsCounted(s)) + Bit(IsCounted(t))
      && sh1.rejected == sh.rejected - Bit(IsRejected(s)) + Bit(IsRejected(t))
      && sh1.active == sh.active - Bit(IsActive(s)) + Bit(IsActive(t))
      && sh1.waitGroup == sh.waitGroup - Bit(IsAwaited(s)) + Bit(IsAwaited(t))
      && sh1.slots == sh.slots - (if cap.None? then 0 else Bit(HoldsSlot(s)) - Bit(HoldsSlot(t)))
      && (IsRegistered(s) == IsRegistered(t) ==> sh1.conns == sh.conns)
      && (!IsRegistered(s) && IsRegistered(t) ==> sh1.conns == sh.conns + {h})
      && (IsRegistered(s) && !IsRegistered(t) ==> sh1.conns == sh.conns - {h})
      && (cap.Some? && sh.slots <= cap.value ==> sh1.slots <= cap.value)
  {
  }

  lemma RegistryUpdate(hs: seq<Stage>, conns: set<nat>, h: nat, t: Stage, conns1: set<nat>)
    requires Registry(hs, conns) && h < |hs|
    requires IsRegistered(hs[h]) == IsRegistered(t) ==> conns1 == conns
    requires !IsRegistered(hs[h]) && IsRegistered(t) ==> conns1 == conns + {h}
    requires IsRegistered(hs[h]) && !IsRegistered(t) ==> conns1 == conns - {h}
    ensures Registry(hs[h := t], conns1)
  {
    CountUpdate(IsRegistered, hs, h, t);
  }

  lemma MoveKeepsInv(cap: Option<nat>, sv: Server, h: nat)
    requires Inv(cap, sv) && h < |sv.handlers|
    ensures Inv(cap, Move(cap, sv, h))
  {
    var hs, t, sh := sv.handlers, Step(cap, sv.shared, h, sv.handlers[h]).0, Step(cap, sv.shared, h, sv.handlers[h]).1;
    StepCounts(cap, sv.shared, h, hs[h]);
    CountUpdate(IsCounted, hs, h, t);
    CountUpdate(IsRejected, hs, h, t);
    CountUpdate(IsActive, hs, h, t);
    CountUpdate(IsAwaited, hs, h, t);
    CountUpdate(HoldsSlot, hs, h, t);
    RegistryUpdate(hs, sv.shared.conns, h, t, sh.conns);
  }

  lemma {:induction false} RunKeepsInv(cap: Option<nat>, n: nat, schedule: seq<nat>)
    ensures Inv(cap, Run(cap, n, schedule))
  {
    if schedule == [] {
      BootInv(cap, n);
    } else {
      var init := schedule[..|schedule| - 1];
      RunKeepsInv(cap, n, init);
      if schedule[|init|] < n {
        MoveKeepsInv(cap, Run(cap, n, init), schedule[|init|]);
      }
    }
  }

  /** At every moment: active <= registered <= awaited <= slots held <= cap. */
  lemma RegionsNest(cap: Option<nat>, n: nat, schedule: seq<nat>)
    ensures var sv := Run(cap, n, schedule); var held := Count(HoldsSlot, sv.handlers);
      && 0 <= sv.shared.active <= |sv.shared.conns| <= sv.shared.waitGroup <= held
      && (cap.Some? ==> held == sv.shared.slots <= cap.value)
  {
    RunKeepsInv(cap, n, schedule);
    var hs := Run(cap, n, schedule).handlers;
    CountWithin(IsActive, IsRegistered, hs);
    CountWithin(IsRegistered, IsAwaited, hs);
    CountWithin(IsAwaited, HoldsSlot, hs);
  }

  /** At every moment each accepted connection is rejected, completed or still being handled. */
  lemma ConnectionsBalance(cap: Option<nat>, n: nat, schedule: seq<nat>)
    ensures var sv := Run(cap, n, schedule);
      sv.shared.accepted == sv.shared.rejected + Count(IsFinished, sv.handlers) + Count(InFlight, sv.handlers)
  {
    RunKeepsInv(cap, n, schedule);
    CountSplits(Run(cap, n, schedule).handlers);
  }

  /** When no handler is at work, nothing is held and accepted is rejected plus completed. */
  lemma Quiescence(cap: Option<nat>, n: nat, schedule: seq<nat>)
    requires var hs := Run(cap, n, schedule).handlers; forall h :: 0 <= h < |hs| ==> !InFlight(hs[h])
    ensures var sv := Run(cap, n, schedule);
      && sv.shared.accepted == sv.shared.rejected + Count(IsFinished, sv.handlers)
      && sv.shared.active == 0 && sv.shared.conns == {} && sv.shared.waitGroup == 0 && sv.shared.slots == 0
  {
    var sv := Run(cap, n, schedule);
    ConnectionsBalance(cap, n, schedule);
    CountNone(InFlight, sv.handlers);
    RunKeepsInv(cap, n, schedule);
    CountWithin(HoldsSlot, InFlight, sv.handlers);
    RegionsNest(cap, n, schedule);
  }

  /** A released slot or WaitGroup is one that is held: neither call can block or go below zero. */
  lemma ReleasesAreBacked(cap: Option<nat>, n: nat, schedule: seq<nat>, h: nat)
    requires h < n
    ensures var sv := Run(cap, n, schedule);
      && (cap.Some? && sv.handlers[h].Unawaited? ==> sv.shared.slots > 0)
      && (sv.handlers[h].Deregistered? ==> sv.shared.waitGroup > 0)
      && (sv.handlers[h].Closed? ==> sv.shared.active > 0)
      && (sv.handlers[h].Inactive? ==> h in sv.shared.conns)
  {
    RunKeepsInv(cap, n, schedule);
    var hs := Run(cap, n, schedule).handlers;
    if HoldsSlot(hs[h]) { CountSome(HoldsSlot, hs, h); }
    if IsAwaited(hs[h]) { CountSome(IsAwaited, hs, h); }
    if IsActive(hs[h]) { CountSome(IsActive, hs, h); }
  }

  /** A connection is refused exactly when as many handlers as the cap allows hold a slot. */
  lemma RefusedOnlyWhenFull(cap: Option<nat>, n: nat, schedule: seq<nat>, h: nat)
    requires h < n && Run(cap, n, schedule).handlers[h].Counted?
    ensures var sv := Run(cap, n, schedule);
      Move(cap, sv, h).handlers[h].Refused? <==> cap == Some(Count(HoldsSlot, sv.handlers))
  {
    RunKeepsInv(cap, n, schedule);
  }

  // ----- every handler gets to its end

  /** How many moves a handler has left at most. */
  function MovesLeft(s: Stage): nat {
    match s
    case Fresh => 10
    case Counted => 9
    case Slotted => 8
    case Awaited => 7
    case Registered => 6
    case Active => 5
    case Closed => 4
    case Inactive => 3
    case Deregistered => 2
    case Unawaited => 1
    case Refused => 1
    case Rejected => 0
    case Finished => 0
  }

  function TotalLeft(hs: seq<Stage>): nat {
    if hs == [] then 0 else MovesLeft(hs[0]) + TotalLeft(hs[1..])
  }

  lemma {:induction false} TotalUpdate(hs: seq<Stage>, h: nat, s: Stage)
    requires h < |hs|
    ensures TotalLeft(hs[h := s]) == TotalLeft(hs) - MovesLeft(hs[h]) + MovesLeft(s)
  {
    if h == 0 {
      assert hs[0 := s][1..] == hs[1..];
    } else {
      TotalUpdate(hs[1..], h - 1, s);
      assert hs[h := s][1..] == hs[1..][h - 1 := s];
    }
  }

  lemma {:induction false} TotalAtBoot(n: nat, hs: seq<Stage>)
    requires |hs| == n && forall i :: 0 <= i < n ==> hs[i] == Fresh
    ensures TotalLeft(hs) == 10 * n
  {
    if n > 0 {
      TotalAtBoot(n - 1, hs[1..]);
    }
  }

  lemma StepMovesOn(cap: Option<nat>, sh: Shared, h: nat, s: Stage)
    requires MovesLeft(s) > 0
    ensures MovesLeft(Step(cap, sh, h, s).0) < MovesLeft(s)
  {
  }

  /** A schedule whose every move is made by a handler that has not come to its end. */
  ghost predicate Busy(cap: Option<nat>, n: nat, schedule: seq<nat>) {
    schedule == [] ||
    (var init, h := schedule[..|schedule| - 1], schedule[|schedule| - 1];
     Busy(cap, n, init) && h < n && MovesLeft(Run(cap, n, init).handlers[h]) > 0)
  }

  /** No handler waits for another: busy schedules are bounded, whatever order they choose. */
  lemma {:induction false} BusySchedulesEnd(cap: Option<nat>, n: nat, schedule: seq<nat>)
    requires Busy(cap, n, schedule)
    ensures |schedule| + TotalLeft(Run(cap, n, schedule).handlers) <= 10 * n
  {
    if schedule == [] {
      TotalAtBoot(n, Boot(n).handlers);
    } else {
      var init, h := schedule[..|schedule| - 1], schedule[|schedule| - 1];
      BusySchedulesEnd(cap, n, init);
      var sv := Run(cap, n, init);
      var t := Move(cap, sv, h);
      StepMovesOn(cap, sv.shared, h, sv.handlers[h]);
      TotalUpdate(sv.handlers, h, t.handlers[h]);
    }
  }
}
