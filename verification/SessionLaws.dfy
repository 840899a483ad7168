/** What holds of every session, whatever bytes arrive. */
module SessionLaws {
  import opened Types
  import opened Decimal
  import opened Wire
  import opened Protocol
  import opened Framing
  import opened Session
  import Cache
  import Store

  // ----- the server knows every error its store can report

  /** What each kind of write can report. */
  lemma WriteReplies(l: Cache.Limits, s: Cache.Shard, op: Cache.Op, now: Time, cas: nat)
    ensures var r := Cache.Step(l, s, op, now, cas).1;
      && (op.Set? ==> WriteAnswer(r).Some?)
      && (op.Cas? ==> CasAnswer(r).Some?)
      && (op.Incr? ==> IncrAnswer(r).Some?)
  {
  }

  lemma EveryReplyHasAnAnswer(env: Env, sv: Server, c: Command)
    requires 0 < |sv.store.shards| && !c.Auth?
    ensures Execute(env, sv, c).1.Some?
  {
    if c.Set? && c.ttl <= MAX_TTL_SECONDS {
      AskAnswers(env, sv, Cache.Set(c.key, c.value, c.ttl * NANOS));
    } else if c.Cas? && c.ttl <= MAX_TTL_SECONDS {
      AskAnswers(env, sv, Cache.Cas(c.key, c.value, c.ttl * NANOS, c.version));
    } else if c.Incr? {
      AskAnswers(env, sv, Cache.Incr(c.key, c.delta));
    }
  }

  lemma AskAnswers(env: Env, sv: Server, op: Cache.Op)
    requires 0 < |sv.store.shards|
    ensures var r := Ask(env, sv, op).1;
      && (op.Set? ==> WriteAnswer(r).Some?)
      && (op.Cas? ==> CasAnswer(r).Some?)
      && (op.Incr? ==> IncrAnswer(r).Some?)
  {
    var i := Store.Route(op, |sv.store.shards|);
    WriteReplies(env.limits, sv.store.shards[i], op, env.clock(sv.ticks), sv.store.counter + 1);
  }

  /** An answer tells which reply it stands for: different replies to the same kind of write print differently. */
  lemma AnswersTellReplies(r: Cache.Reply, q: Cache.Reply)
    ensures CasAnswer(r).Some? && CasAnswer(r) == CasAnswer(q) ==> r == q
    ensures WriteAnswer(r).Some? && WriteAnswer(r) == WriteAnswer(q) ==> r == q
  {
    CasShape(r);
    CasShape(q);
  }

  lemma CasShape(r: Cache.Reply)
    ensures CasAnswer(r).Some? ==>
      && CasAnswer(r).value != []
      && (|CasAnswer(r).value|, CasAnswer(r).value[0]) ==
        (match r
         case Stored => (8, 83)
         case Failed(CasMismatch) => (8, 69)
         case Failed(NotFound) => (11, 78)
         case Failed(ValueTooLarge) => (30, 83)
         case _ => (36, 83))
  {
  }

  lemma IncrAnswersTellReplies(r: Cache.Reply, q: Cache.Reply)
    requires IncrAnswer(r).Some? && IncrAnswer(r) == IncrAnswer(q)
    ensures r == q
  {
    IncrShape(r);
    IncrShape(q);
    if r.Counted? && q.Counted? {
      CountedText(r.total);
      CountedText(q.total);
      var a := IncrAnswer(r).value;
      assert a[6..|a| - 2] == Format(r.total) == Format(q.total);
      FormatInjective(r.total, q.total);
    }
  }

  lemma CountedText(n: nat)
    ensures var a := Join([Ascii("VALUE"), Format(n)]) + CRLF;
      |a| == |Format(n)| + 8 && a[6..|a| - 2] == Format(n) && a[|a| - 5] <= 69
  {
    FormatThenValue(n);
    JoinTwo(Ascii("VALUE"), Format(n));
    var a := Join([Ascii("VALUE"), Format(n)]) + CRLF;
    var word, text := Ascii("VALUE") + [SPACE], Format(n);
    assert |word| == 6 && word[4] == 69 && word[5] == 32;
    assert a == word + text + CRLF;
    if |text| > 2 {
      assert text[|text| - 3] == a[|a| - 5];
    }
  }

  /** Five bytes before the end an answer differs from all others. */
  lemma IncrShape(r: Cache.Reply)
    requires IncrAnswer(r).Some?
    ensures |IncrAnswer(r).value| > 5
    ensures var mark := IncrAnswer(r).value[|IncrAnswer(r).value| - 5];
      match r
      case Counted(_) => mark <= 69
      case Failed(NotFound) => mark == 85
      case Failed(NotInteger) => mark == 103
      case Failed(Overflow) => mark == 116
      case Failed(ValueTooLarge) => mark == 114
      case _ => r == Cache.Failed(Cache.MemoryLimitExceeded) && mark == 100
  {
    if r.Counted? {
      CountedText(r.total);
    }
  }

  // ----- authentication

  /** Without the right first command the session ends at once, and the store has not been asked anything. */
  lemma GateHolds(env: Env, sv: Server, s: Bytes)
    requires 0 < |sv.store.shards|
    requires Parse(s).Ok? ==> Parse(s).command != Auth(env.token)
    ensures Run(env, sv, false, s).0.store == sv.store && Run(env, sv, false, s).0.ticks == sv.ticks
    ensures Run(env, sv, false, s).1 in
      {[], Text("CLIENT_ERROR bad command"), Text("CLIENT_ERROR auth required"), Text("CLIENT_ERROR auth failed")}
  {
  }

  /**
   * A token that no command line can carry, because it is no valid key or holds
   * white space, locks everyone out: no bytes at all reach the store.
   */
  lemma LockedOut(env: Env, sv: Server, s: Bytes)
    requires 0 < |sv.store.shards| && !(ValidKey(env.token) && IsWord(env.token))
    ensures Run(env, sv, false, s).0.store == sv.store && Run(env, sv, false, s).0.ticks == sv.ticks
  {
    if Parse(s).Ok? {
      ParsedIsClean(s);
      if Parse(s).command.Auth? {
        assert IsWord(Names(Parse(s).command)[0]);
      }
    }
    GateHolds(env, sv, s);
  }

  /** The same server without a token. */
  function Open(env: Env): Env {
    env.(token := [])
  }

  lemma {:induction false} FetchIgnoresToken(env: Env, sv: Server, keys: seq<Key>, withCas: bool)
    requires 0 < |sv.store.shards|
    ensures Fetch(Open(env), sv, keys, withCas) == Fetch(env, sv, keys, withCas)
    decreases |keys|
  {
    if keys != [] {
      FetchIgnoresToken(env, Ask(env, sv, Cache.Get(keys[0])).0, keys[1..], withCas);
    }
  }

  lemma PerformIgnoresToken(env: Env, sv: Server, c: Command)
    requires 0 < |sv.store.shards| && !c.Auth?
    ensures Perform(Open(env), sv, c) == Perform(env, sv, c)
  {
    var counted := Counted(sv, VerbFor(c));
    match c {
      case Get(key) => FetchIgnoresToken(env, counted, [key], false);
      case Mget(keys) => FetchIgnoresToken(env, counted, keys, false);
      case Gets(keys) => FetchIgnoresToken(env, counted, keys, true);
      case _ =>
    }
  }

  ghost predicate NoAuth(cs: seq<Command>) {
    forall i :: 0 <= i < |cs| ==> !cs[i].Auth?
  }

  /** Past the gate a session that does not authenticate again is a session of the server without a token. */
  lemma {:induction false} PastTheGate(env: Env, sv: Server, s: Bytes)
    requires 0 < |sv.store.shards| && NoAuth(ParseAll(s))
    ensures Run(env, sv, true, s) == Run(Open(env), sv, true, s)
    decreases |s|
  {
    if Parse(s).Ok? {
      ParseConsumes(s);
      var c, rest := Parse(s).command, Parse(s).rest;
      ParseAllStep(s, c, rest);
      assert ParseAll(s)[0] == c && ParseAll(s)[1..] == ParseAll(rest);
      PerformIgnoresToken(env, sv, c);
      PastTheGate(env, Perform(env, sv, c).server, rest);
    }
  }

  /**
   * The right AUTH line opens the gate: whatever follows, unless it
   * authenticates again, is answered as by the server without a token.
   */
  lemma GateOpens(env: Env, sv: Server, s: Bytes)
    requires 0 < |sv.store.shards| && ValidKey(env.token) && IsWord(env.token) && NoAuth(ParseAll(s))
    ensures var (last, out) := Run(Open(env), Counted(sv, AUTH), true, s);
      Run(env, sv, false, Print(Auth(env.token)) + s) == (last, Text("AUTHENTICATED") + out)
  {
    var c := Auth(env.token);
    SingleKeyLinesFit(c);
    OneTurn(env, sv, false, c, s);
    PastTheGate(env, Counted(sv, AUTH), s);
  }

  /** A gated session tells nothing about the store: its output is the same for all of them. */
  lemma GateIsSilent(env: Env, sv: Server, tv: Server, s: Bytes)
    requires 0 < |sv.store.shards| && 0 < |tv.store.shards|
    requires Parse(s).Ok? ==> Parse(s).command != Auth(env.token)
    ensures Run(env, sv, false, s).1 == Run(env, tv, false, s).1
  {
  }

  // ----- a session is a run of the store

  /** `after` is `before` following `evs`, whose clock readings are the next ones in order. */
  ghost predicate Follows(env: Env, before: Server, evs: seq<Store.Event>, after: Server) {
    && 0 < |before.store.shards|
    && after.store == Store.After(env.limits, before.store, evs)
    && after.ticks == before.ticks + |evs|
    && forall i :: 0 <= i < |evs| ==> evs[i].now == env.clock(before.ticks + i)
  }

  lemma FollowsCompose(env: Env, x: Server, a: seq<Store.Event>, y: Server, b: seq<Store.Event>, z: Server)
    requires Follows(env, x, a, y) && Follows(env, y, b, z)
    ensures Follows(env, x, a + b, z)
  {
    Store.RunsCompose(env.limits, x.store, a, b, y.store);
    forall i | 0 <= i < |a + b| ensures (a + b)[i].now == env.clock(x.ticks + i) {
      if i >= |a| {
        assert (a + b)[i] == b[i - |a|];
      }
    }
  }

  lemma AskFollows(env: Env, sv: Server, op: Cache.Op) returns (evs: seq<Store.Event>)
    requires 0 < |sv.store.shards|
    ensures Follows(env, sv, evs, Ask(env, sv, op).0)
  {
    evs := [Store.Event(op, env.clock(sv.ticks))];
    Store.AfterOne(env.limits, sv.store, evs[0]);
  }

  lemma {:induction false} FetchFollows(env: Env, sv: Server, keys: seq<Key>, withCas: bool)
    returns (evs: seq<Store.Event>)
    requires 0 < |sv.store.shards|
    ensures Follows(env, sv, evs, Fetch(env, sv, keys, withCas).0)
    decreases |keys|
  {
    evs := [];
    if keys != [] {
      var first := AskFollows(env, sv, Cache.Get(keys[0]));
      var sv1 := Ask(env, sv, Cache.Get(keys[0])).0;
      var more := FetchFollows(env, sv1, keys[1..], withCas);
      evs := first + more;
      FollowsCompose(env, sv, first, sv1, more, Fetch(env, sv, keys, withCas).0);
    }
  }

  lemma ExecuteFollows(env: Env, sv: Server, c: Command) returns (evs: seq<Store.Event>)
    requires 0 < |sv.store.shards| && !c.Auth?
    ensures Follows(env, sv, evs, Execute(env, sv, c).0)
  {
    evs := [];
    match c {
      case Ping =>
      case Stats =>
      case Get(key) => evs := FetchFollows(env, sv, [key], false);
      case Mget(keys) => evs := FetchFollows(env, sv, keys, false);
      case Gets(keys) => evs := FetchFollows(env, sv, keys, true);
      case Set(key, ttl, value) =>
        if ttl <= MAX_TTL_SECONDS {
          evs := AskFollows(env, sv, Cache.Set(key, value, ttl * NANOS));
        }
      case Delete(key) => evs := AskFollows(env, sv, Cache.Delete(key));
      case Incr(key, delta) => evs := AskFollows(env, sv, Cache.Incr(key, delta));
      case Cas(key, ttl, version, value) =>
        if ttl <= MAX_TTL_SECONDS {
          evs := AskFollows(env, sv, Cache.Cas(key, value, ttl * NANOS, version));
        }
    }
  }

  /** Only the store and the clock matter. */
  lemma FollowsBetween(env: Env, x: Server, y: Server, evs: seq<Store.Event>, before: Server, after: Server)
    requires Follows(env, x, evs, y)
    requires (before.store, before.ticks) == (x.store, x.ticks) && (after.store, after.ticks) == (y.store, y.ticks)
    ensures Follows(env, before, evs, after)
  {
  }

  lemma PerformFollows(env: Env, sv: Server, c: Command) returns (evs: seq<Store.Event>)
    requires 0 < |sv.store.shards| && !c.Auth?
    ensures Follows(env, sv, evs, Perform(env, sv, c).server)
  {
    var counted := Counted(sv, VerbFor(c));
    evs := ExecuteFollows(env, counted, c);
    FollowsBetween(env, counted, Execute(env, counted, c).0, evs, sv, Perform(env, sv, c).server);
  }

  lemma RespondFollows(env: Env, sv: Server, authenticated: bool, c: Command) returns (evs: seq<Store.Event>)
    requires 0 < |sv.store.shards|
    ensures Follows(env, sv, evs, Respond(env, sv, authenticated, c).server)
  {
    if authenticated && !c.Auth? {
      evs := PerformFollows(env, sv, c);
    } else {
      evs := [];
    }
  }

  /** Whatever bytes a session receives, it takes the store along one of its runs, reading the clock in order. */
  lemma {:induction false} SessionIsARun(env: Env, sv: Server, authenticated: bool, s: Bytes)
    returns (evs: seq<Store.Event>)
    requires 0 < |sv.store.shards|
    ensures Follows(env, sv, evs, Run(env, sv, authenticated, s).0)
    decreases |s|
  {
    evs := [];
    if Parse(s).Ok? {
      ParseConsumes(s);
      var c, rest := Parse(s).command, Parse(s).rest;
      var t := Respond(env, sv, authenticated, c);
      evs := RespondFollows(env, sv, authenticated, c);
      if t.open {
        var more := SessionIsARun(env, t.server, t.authenticated, rest);
        FollowsCompose(env, sv, evs, t.server, more, Run(env, t.server, t.authenticated, rest).0);
        evs := evs + more;
      }
    }
  }

  /** Under a clock that never goes back, that run is one the theorems about clocked runs speak of. */
  lemma SessionIsClocked(env: Env, before: Server, evs: seq<Store.Event>, after: Server)
    requires Follows(env, before, evs, after)
    requires forall i: nat, j: nat :: i <= j ==> env.clock(i) <= env.clock(j)
    ensures Store.Clocked(evs, |before.store.shards|, env.clock(before.ticks))
  {
    Store.SteadyIsClocked(evs, |before.store.shards|, env.clock(before.ticks));
  }

  /** So every session, on any bytes, leaves a store that satisfies the store invariant. */
  lemma SessionKeepsInv(env: Env, sv: Server, authenticated: bool, s: Bytes)
    requires Store.Inv(env.limits, sv.store)
    ensures Store.Inv(env.limits, Run(env, sv, authenticated, s).0.store)
  {
    var evs := SessionIsARun(env, sv, authenticated, s);
    Store.RunKeepsInv(env.limits, sv.store, evs);
  }

  // ----- pipelined commands

  /** What a list of commands does to a session, until it closes. */
  function Turns(env: Env, sv: Server, authenticated: bool, cs: seq<Command>): (t: Turn)
    requires 0 < |sv.store.shards|
    ensures |t.server.store.shards| == |sv.store.shards|
    decreases |cs|
  {
    if cs == [] then Turn(sv, [], authenticated, true)
    else
      var t := Respond(env, sv, authenticated, cs[0]);
      if !t.open then t
      else
        var u := Turns(env, t.server, t.authenticated, cs[1..]);
        u.(output := t.output + u.output)
  }

  /** The outcome of a session that has come to turn `t` and has `rest` left to read. */
  function Onwards(env: Env, t: Turn, rest: Bytes): (Server, Bytes)
    requires 0 < |t.server.store.shards|
  {
    if !t.open then (t.server, t.output)
    else
      var (last, out) := Run(env, t.server, t.authenticated, rest);
      (last, t.output + out)
  }

  lemma OneTurn(env: Env, sv: Server, authenticated: bool, c: Command, rest: Bytes)
    requires 0 < |sv.store.shards| && Sendable(c) && Clean(c) && LineLength(c) <= LINE_BUFFER
    ensures Run(env, sv, authenticated, Print(c) + rest) == Onwards(env, Respond(env, sv, authenticated, c), rest)
  {
    CleanRoundTrip(c, rest);
  }

  lemma OneTurnMore(env: Env, t: Turn, s: Bytes, u: Turn, rest: Bytes)
    requires 0 < |t.server.store.shards| && 0 < |u.server.store.shards| && t.open
    requires Run(env, t.server, t.authenticated, s) == Onwards(env, u, rest)
    ensures Onwards(env, t, s) == Onwards(env, u.(output := t.output + u.output), rest)
  {
    var out := Run(env, u.server, u.authenticated, rest).1;
    assert t.output + (u.output + out) == t.output + u.output + out;
  }

  lemma FirstOfAll(cs: seq<Command>, rest: Bytes)
    requires cs != []
    ensures PrintAll(cs) + rest == Print(cs[0]) + (PrintAll(cs[1..]) + rest)
  {
    var frames := seq(|cs|, i requires 0 <= i < |cs| => Print(cs[i]));
    assert frames[1..] == seq(|cs[1..]|, i requires 0 <= i < |cs[1..]| => Print(cs[1..][i]));
  }

  /** Commands sent back to back are answered one after the other, and the session reads on behind them. */
  lemma {:induction false} PipelinedSession(env: Env, sv: Server, authenticated: bool, cs: seq<Command>, rest: Bytes)
    requires 0 < |sv.store.shards|
    requires forall i :: 0 <= i < |cs| ==> Sendable(cs[i]) && Clean(cs[i]) && LineLength(cs[i]) <= LINE_BUFFER
    ensures Run(env, sv, authenticated, PrintAll(cs) + rest) == Onwards(env, Turns(env, sv, authenticated, cs), rest)
    decreases |cs|
  {
    if cs == [] {
      assert PrintAll(cs) + rest == rest;
      assert [] + Run(env, sv, authenticated, rest).1 == Run(env, sv, authenticated, rest).1;
    } else {
      var more := PrintAll(cs[1..]) + rest;
      FirstOfAll(cs, rest);
      OneTurn(env, sv, authenticated, cs[0], more);
      var t := Respond(env, sv, authenticated, cs[0]);
      if t.open {
        PipelinedSession(env, t.server, t.authenticated, cs[1..], rest);
        OneTurnMore(env, t, more, Turns(env, t.server, t.authenticated, cs[1..]), rest);
      }
    }
  }
}
