/** The server as it runs: two session loops over one store. */
module ServerImpl {
  import opened Types
  import opened Decimal
  import opened Wire
  import opened Protocol
  import opened ParserImpl
  import opened Session
  import Cache
  import Store
  import StoreImpl
  import SessionLaws
  import Hash

  // ----- where a session loop stands

  /**
   * The functions that say what a session does, as values. The loops are proved
   * against these, and `Models` says which functions they are.
   */
  datatype Meaning = Meaning(
    parse: Bytes -> Parsed,
    execute: (Server, Command) -> (Server, Option<Bytes>),
    respond: (Server, bool, Command) -> Turn,
    run: (Server, bool, Bytes) -> (Server, Bytes))

  ghost predicate Up(sv: Server) {
    0 < |sv.store.shards|
  }

  ghost predicate Reads(data: Bytes) {
    true
  }

  ghost predicate Executes(sv: Server, c: Command) {
    Up(sv) && !c.Auth?
  }

  ghost predicate Responds(sv: Server, authenticated: bool, c: Command) {
    Up(sv)
  }

  ghost predicate Runs(sv: Server, authenticated: bool, data: Bytes) {
    Up(sv)
  }

  ghost predicate Models(m: Meaning, env: Env) {
    && (forall s {:trigger Reads(s)} :: Reads(s) ==> m.parse(s) == Parse(s))
    && (forall sv, c {:trigger Executes(sv, c)} :: Executes(sv, c) ==> m.execute(sv, c) == Session.Execute(env, sv, c))
    && (forall sv, a, c {:trigger Responds(sv, a, c)} ::
          Responds(sv, a, c) ==> m.respond(sv, a, c) == Respond(env, sv, a, c))
    && (forall sv, a, s {:trigger Runs(sv, a, s)} :: Runs(sv, a, s) ==> m.run(sv, a, s) == Run(env, sv, a, s))
  }

  lemma MeaningOf(env: Env) returns (m: Meaning)
    ensures Models(m, env)
  {
    m := Meaning(
      s => Parse(s),
      (sv: Server, c: Command) => if Executes(sv, c) then Session.Execute(env, sv, c) else (sv, None),
      (sv: Server, a: bool, c: Command) => if Up(sv) then Respond(env, sv, a, c) else Turn(sv, [], a, false),
      (sv: Server, a: bool, s: Bytes) => if Up(sv) then Run(env, sv, a, s) else (sv, []));
  }

  /**
   * `total` is the outcome of a session that has written `output` so far and
   * has `data` left to read.
   */
  ghost predicate Leads(
      m: Meaning, sv: Server, authenticated: bool, data: Bytes, output: Bytes, total: (Server, Bytes)) {
    total == (m.run(sv, authenticated, data).0, output + m.run(sv, authenticated, data).1)
  }

  /** The stream begins with the right AUTH line. */
  predicate Opens(data: Bytes, token: Bytes) {
    Parse(data).Ok? && Parse(data).command == Auth(token)
  }

  /** Where a loop starts; and if the stream does not open the gate, where it ends. */
  lemma Start(m: Meaning, env: Env, sv: Server, authenticated: bool, data: Bytes)
    requires Models(m, env) && Up(sv)
    ensures m.run(sv, authenticated, data) == Run(env, sv, authenticated, data)
    ensures Leads(m, sv, authenticated, data, [], m.run(sv, authenticated, data))
    ensures !authenticated && !Opens(data, env.token) ==>
      var last := m.run(sv, authenticated, data).0; last.store == sv.store && last.ticks == sv.ticks
  {
    assert Runs(sv, authenticated, data);
    var out := m.run(sv, authenticated, data).1;
    assert [] + out == out;
    if !authenticated && !Opens(data, env.token) {
      SessionLaws.GateHolds(env, sv, data);
    }
  }

  /** One round of a session loop: what it reads, and the turn it makes of that. */
  ghost predicate Stepped(m: Meaning, sv: Server, authenticated: bool, data: Bytes, t: Turn, rest: Bytes) {
    match m.parse(data)
    case End => t == Turn(sv, [], authenticated, false)
    case Bad =>
      t == Turn(sv.(clientErrors := sv.clientErrors + 1), Text("CLIENT_ERROR bad command"), authenticated, false)
    case Ok(c, more) => t == m.respond(sv, authenticated, c) && rest == more
  }

  ghost predicate Proceeds(m: Meaning, t: Turn, rest: Bytes, output: Bytes, total: (Server, Bytes)) {
    if t.open then Leads(m, t.server, t.authenticated, rest, output + t.output, total)
    else total == (t.server, output + t.output)
  }

  lemma Proceed(m: Meaning, env: Env, sv: Server, authenticated: bool, data: Bytes, output: Bytes,
                total: (Server, Bytes), t: Turn, rest: Bytes)
    requires Models(m, env) && Up(sv) && Leads(m, sv, authenticated, data, output, total)
    requires Stepped(m, sv, authenticated, data, t, rest)
    ensures Proceeds(m, t, rest, output, total)
    ensures t.open ==> |rest| < |data|
  {
    assert Reads(data) && Runs(sv, authenticated, data);
    if Parse(data).Ok? {
      ParseConsumes(data);
      assert Responds(sv, authenticated, Parse(data).command);
      AfterCommand(m, env, t, rest, output);
    }
  }

  lemma AfterCommand(m: Meaning, env: Env, t: Turn, rest: Bytes, output: Bytes)
    requires Models(m, env) && Up(t.server)
    ensures m.run(t.server, t.authenticated, rest) == Run(env, t.server, t.authenticated, rest)
    ensures var out := m.run(t.server, t.authenticated, rest).1; output + (t.output + out) == output + t.output + out
  {
    assert Runs(t.server, t.authenticated, rest);
  }

  lemma AuthTurn(m: Meaning, env: Env, sv: Server, c: Command)
    requires Models(m, env) && Up(sv) && c.Auth?
    ensures m.respond(sv, true, c) == AuthAgain(env, sv, c.token)
  {
    assert Responds(sv, true, c);
  }

  lemma PerformTurn(m: Meaning, env: Env, sv: Server, c: Command)
    requires Models(m, env) && Up(sv) && !c.Auth?
    ensures var (sv1, answer) := m.execute(Counted(sv, VerbFor(c)), c);
      m.respond(sv, true, c) == TurnOf(sv1, answer)
  {
    assert Responds(sv, true, c) && Executes(Counted(sv, VerbFor(c)), c);
  }

  /** The same for the keys that `mget` and `gets` have left. */
  ghost predicate Fetches(env: Env, sv: Server, keys: seq<Key>, withCas: bool, output: Bytes, total: (Server, Bytes)) {
    0 < |sv.store.shards| &&
    var (last, out) := Session.Fetch(env, sv, keys, withCas);
    total == (last, output + out)
  }

  /** The block of a key in the answer, if it was found. */
  function Found(key: Key, r: Cache.Reply, withCas: bool): Bytes {
    if r.Hit? then Block(key, r.value, if withCas then Some(r.cas) else None) else []
  }

  lemma FetchesOn(env: Env, sv: Server, keys: seq<Key>, withCas: bool, output: Bytes, total: (Server, Bytes),
                  sv1: Server, r: Cache.Reply)
    requires keys != [] && Fetches(env, sv, keys, withCas, output, total)
    requires (sv1, r) == Session.Ask(env, sv, Cache.Get(keys[0]))
    ensures Fetches(env, sv1, keys[1..], withCas, output + Found(keys[0], r, withCas), total)
  {
    var found, out := Found(keys[0], r, withCas), Session.Fetch(env, sv1, keys[1..], withCas).1;
    assert output + (found + out) == output + found + out;
  }

  class MutableServer {
    const env: Env
    const store: StoreImpl.MutableStore
    var ticks: nat
    var commands: multiset<Verb>
    var authFailures: nat
    var clientErrors: nat
    var serverErrors: nat

    ghost var state: Server      // the abstract state, which `Valid` ties to the fields
    ghost const meaning: Meaning // what sessions mean under `env`

    ghost predicate Valid()
      reads this, store`repr, store.counter, store.shards, set s | s in store.shards :: s.lru,
            set s, n | s in store.shards && n in s.lru.repr :: n
    {
      && store.Valid() && store.limits == env.limits && |store.shards| % Hash.TWO_32 != 0 && this !in store.repr
      && state == Server(store.Abs(), ticks, commands, authFailures, clientErrors, serverErrors)
      && Up(state) && Models(meaning, env)
    }

    constructor (config: StoreImpl.Config, token: Bytes, clock: nat -> Time, statsText: Figures -> Bytes)
      requires StoreImpl.Normalize(config).shards % Hash.TWO_32 != 0
      ensures Valid() && fresh(store.repr) && fresh(store.counter)
      ensures env == Env(env.limits, token, clock, statsText)
      ensures StoreImpl.SplitOf(StoreImpl.Normalize(config), env.limits)
      ensures state == Server(Store.Init(StoreImpl.Normalize(config).shards), 0, multiset{}, 0, 0, 0)
    {
      store := new StoreImpl.MutableStore(config);
      env := Env(StoreImpl.ShardLimits(StoreImpl.Normalize(config)), token, clock, statsText);
      ghost var m := MeaningOf(Env(StoreImpl.ShardLimits(StoreImpl.Normalize(config)), token, clock, statsText));
      meaning := m;
      ticks, commands, authFailures, clientErrors, serverErrors := 0, multiset{}, 0, 0, 0;
      state := Server(Store.Init(StoreImpl.Normalize(config).shards), 0, multiset{}, 0, 0, 0);
    }

    method Ask(op: Cache.Op) returns (r: Cache.Reply)
      requires Valid() && !op.Cleanup?
      modifies this`state, this`ticks, store`repr, store.counter, store.repr
      ensures Valid() && fresh(store.repr - old(store.repr))
      ensures (state, r) == Session.Ask(env, old(state), op)
    {
      r := store.Execute(op, env.clock(ticks));
      ticks := ticks + 1;
      state := Session.Ask(env, state, op).0;
    }

    /** The loop of `mget` and `gets`; `get` is the case of one key. */
    method Fetch(keys: seq<Key>, withCas: bool) returns (out: Bytes)
      requires Valid()
      modifies this`state, this`ticks, store`repr, store.counter, store.repr
      ensures Valid() && fresh(store.repr - old(store.repr))
      ensures (state, out) == Session.Fetch(env, old(state), keys, withCas)
    {
      out := [];
      ghost var total := Session.Fetch(env, state, keys, withCas);
      assert keys[0..] == keys && [] + total.1 == total.1;
      for i := 0 to |keys|
        invariant Valid() && fresh(store.repr - old(store.repr))
        invariant Fetches(env, state, keys[i..], withCas, out, total)
      {
        ghost var sv := state;
        assert keys[i..][1..] == keys[i + 1..];
        var r := Ask(Cache.Get(keys[i]));
        FetchesOn(env, sv, keys[i..], withCas, out, total, state, r);
        out := out + Found(keys[i], r, withCas);
      }
      out := out + Text("END");
    }

    method Execute(c: Command) returns (out: Option<Bytes>)
      requires Valid() && !c.Auth?
      modifies this`state, this`ticks, store`repr, store.counter, store.repr
      ensures Valid() && fresh(store.repr - old(store.repr))
      ensures (state, out) == Session.Execute(env, old(state), c)
    {
      match c {
        case Ping => return Some(Text("PONG"));
        case Stats =>
          var kept := store.Stats();
          var figures := Figures(
            kept.items, kept.memoryBytes, kept.maxMemoryBytes, kept.evictions, kept.expirations, |kept.itemsPerShard|,
            commands, authFailures, clientErrors, serverErrors);
          return Some(env.statsText(figures) + Text("END"));
        case Get(key) =>
          var found := Fetch([key], false);
          return Some(found);
        case Mget(keys) =>
          var found := Fetch(keys, false);
          return Some(found);
        case Gets(keys) =>
          var found := Fetch(keys, true);
          return Some(found);
        case Set(key, ttl, value) =>
          if ttl > MAX_TTL_SECONDS {
            return Some(Text("CLIENT_ERROR TTL is too large"));
          }
          var r := Ask(Cache.Set(key, value, ttl * NANOS));
          return WriteAnswer(r);
        case Delete(key) =>
          var r := Ask(Cache.Delete(key));
          return Some(if r.Deleted? then Text("DELETED") else Text("NOT_FOUND"));
        case Incr(key, delta) =>
          var r := Ask(Cache.Incr(key, delta));
          return IncrAnswer(r);
        case Cas(key, ttl, version, value) =>
          if ttl > MAX_TTL_SECONDS {
            return Some(Text("CLIENT_ERROR TTL is too large"));
          }
          var r := Ask(Cache.Cas(key, value, ttl * NANOS, version));
          return CasAnswer(r);
      }
    }

    method CountCommand(c: Command)
      requires Valid()
      modifies this`state, this`commands
      ensures Valid() && state == Counted(old(state), VerbFor(c))
    {
      commands := commands + multiset{VerbFor(c)};
      state := Counted(state, VerbFor(c));
    }

    method CountServerError()
      requires Valid()
      modifies this`state, this`serverErrors
      ensures Valid() && state == old(state).(serverErrors := old(state).serverErrors + 1)
    {
      serverErrors := serverErrors + 1;
      state := state.(serverErrors := serverErrors);
    }

    method CountClientError()
      requires Valid()
      modifies this`state, this`clientErrors
      ensures Valid() && state == old(state).(clientErrors := old(state).clientErrors + 1)
    {
      clientErrors := clientErrors + 1;
      state := state.(clientErrors := clientErrors);
    }

    method CountAuthFailure()
      requires Valid()
      modifies this`state, this`authFailures
      ensures Valid() && state == old(state).(authFailures := old(state).authFailures + 1)
    {
      authFailures := authFailures + 1;
      state := state.(authFailures := authFailures);
    }

    /** The first command of a connection that must authenticate; every refusal is terminal. */
    method HandleAuthGate(c: Command) returns (ok: bool, terminal: bool, out: Bytes)
      requires Valid()
      modifies this`state, this`commands, this`authFailures
      ensures Valid() && terminal == !ok
      ensures Turn(state, out, ok, ok) == Gate(env, old(state), c) == meaning.respond(old(state), false, c)
    {
      assert Responds(state, false, c);
      if !c.Auth? {
        return false, true, Text("CLIENT_ERROR auth required");
      }
      CountCommand(c);
      if c.token != env.token {
        CountAuthFailure();
        return false, true, Text("CLIENT_ERROR auth failed");
      }
      return true, false, Text("AUTHENTICATED");
    }

    /** The answer to bytes that are no command. */
    method HandleReadError(r: Received) returns (out: Bytes)
      requires Valid() && !r.Received?
      modifies this`state, this`clientErrors
      ensures Valid()
      ensures r == Closed ==> state == old(state) && out == []
      ensures r == Refused ==>
        state == old(state).(clientErrors := old(state).clientErrors + 1) && out == Text("CLIENT_ERROR bad command")
    {
      if r == Closed {
        return [];
      }
      CountClientError();
      return Text("CLIENT_ERROR bad command");
    }

    /** Reading a command leaves the server alone. */
    method Next(parser: Parser) returns (r: Received)
      requires Valid() && parser.reader !in store.repr
      modifies parser.reader
      ensures Valid() && state == old(state)
      ensures Agrees(meaning.parse(old(parser.reader.data)), r, parser.reader.data)
    {
      assert Reads(parser.reader.data);
      r := parser.ReadCommand();
      assert store.Contents() == old(store.Contents());
    }

    /** Executing a command, as the loops see it. */
    method Answer(c: Command) returns (out: Option<Bytes>)
      requires Valid() && !c.Auth?
      modifies this`state, this`ticks, store`repr, store.counter, store.repr
      ensures Valid() && fresh(store.repr - old(store.repr))
      ensures (state, out) == meaning.execute(old(state), c)
    {
      assert Executes(state, c);
      out := Execute(c);
    }

    /** The part of `Serve` for sessions that are authenticated. */
    method ServeCommand(c: Command) returns (open: bool, out: Bytes)
      requires Valid()
      modifies this, store`repr, store.counter, store.repr
      ensures Valid() && fresh(store.repr - old(store.repr))
      ensures Turn(state, out, true, open) == meaning.respond(old(state), true, c)
    {
      if c.Auth? {
        AuthTurn(meaning, env, state, c);
        CountCommand(c);
        if env.token == [] {
          return false, Text("CLIENT_ERROR auth not configured");
        }
        if c.token != env.token {
          CountAuthFailure();
          return false, Text("CLIENT_ERROR auth failed");
        }
        return true, Text("AUTHENTICATED");
      }
      PerformTurn(meaning, env, state, c);
      CountCommand(c);
      var answer := Answer(c);
      if answer.None? {
        CountServerError();
        return false, [];
      }
      return true, answer.value;
    }

    /** One round of `Serve`. */
    method ServeRound(parser: Parser, had: bool) returns (authenticated: bool, open: bool, out: Bytes)
      requires Valid() && parser.reader !in store.repr
      modifies this, store`repr, store.counter, store.repr, parser.reader
      ensures Valid() && fresh(store.repr - old(store.repr))
      ensures Stepped(meaning, old(state), had, old(parser.reader.data),
                      Turn(state, out, authenticated, open), parser.reader.data)
    {
      authenticated := had;
      var r := Next(parser);
      if r == Closed {
        return had, false, [];
      }
      if r == Refused {
        CountClientError();
        return had, false, Text("CLIENT_ERROR bad command");
      }
      var c := r.command;
      if !authenticated {
        var ok, terminal;
        ok, terminal, out := HandleAuthGate(c);
        if !ok {
          if terminal {
            return false, false, out;
          }
          assert false;
        } else {
          return true, true, out;
        }
      }
      open, out := ServeCommand(c);
    }

    /** `Serve`: the loop over a plain stream. */
    method Serve(input: Reader) returns (output: Bytes)
      requires Valid() && input !in store.repr
      modifies this, store`repr, store.counter, store.repr, input
      ensures Valid() && fresh(store.repr - old(store.repr))
      ensures (state, output) == Run(env, old(state), env.token == [], old(input.data))
      ensures env.token != [] && !Opens(old(input.data), env.token) ==>
        store.Abs() == old(store.Abs()) && ticks == old(ticks)
    {
      var parser := new Parser(input);
      var authenticated := env.token == [];
      output := [];
      ghost var total := meaning.run(state, authenticated, input.data);
      Start(meaning, env, state, authenticated, input.data);
      while true
        invariant Valid() && input !in store.repr && fresh(store.repr - old(store.repr))
        invariant Leads(meaning, state, authenticated, input.data, output, total)
        decreases |input.data|
      {
        ghost var sv, had, data := state, authenticated, input.data;
        var open, out;
        authenticated, open, out := ServeRound(parser, authenticated);
        Proceed(meaning, env, sv, had, data, output, total, Turn(state, out, authenticated, open), input.data);
        output := output + out;
        if !open {
          return;
        }
      }
    }

    /** The part of `serveConn` for sessions that are authenticated. */
    method ServeConnCommand(c: Command) returns (open: bool, out: Bytes)
      requires Valid()
      modifies this, store`repr, store.counter, store.repr
      ensures Valid() && fresh(store.repr - old(store.repr))
      ensures Turn(state, out, true, open) == meaning.respond(old(state), true, c)
    {
      if c.Auth? {
        AuthTurn(meaning, env, state, c);
        CountCommand(c);
        if env.token == [] {
          return false, Text("CLIENT_ERROR auth not configured");
        }
        if c.token != env.token {
          CountAuthFailure();
          return false, Text("CLIENT_ERROR auth failed");
        }
        return true, Text("AUTHENTICATED");
      }
      PerformTurn(meaning, env, state, c);
      CountCommand(c);
      var answer := Answer(c);
      if answer.None? {
        CountServerError();
        return false, [];
      }
      return true, answer.value;
    }

    /** One round of `serveConn`. */
    method ServeConnRound(parser: Parser, had: bool) returns (authenticated: bool, open: bool, out: Bytes)
      requires Valid() && parser.reader !in store.repr
      modifies this, store`repr, store.counter, store.repr, parser.reader
      ensures Valid() && fresh(store.repr - old(store.repr))
      ensures Stepped(meaning, old(state), had, old(parser.reader.data),
                      Turn(state, out, authenticated, open), parser.reader.data)
    {
      authenticated := had;
      var r := Next(parser);
      if !r.Received? {
        out := HandleReadError(r);
        return had, false, out;
      }
      var c := r.command;
      if !authenticated {
        var ok, terminal;
        ok, terminal, out := HandleAuthGate(c);
        if !ok {
          if terminal {
            return false, false, out;
          }
          assert false;
        } else {
          return true, true, out;
        }
      }
      open, out := ServeConnCommand(c);
    }

    /** `serveConn`: the loop of a network connection. */
    method ServeConn(conn: Reader) returns (output: Bytes)
      requires Valid() && conn !in store.repr
      modifies this, store`repr, store.counter, store.repr, conn
      ensures Valid() && fresh(store.repr - old(store.repr))
      ensures (state, output) == Run(env, old(state), env.token == [], old(conn.data))
      ensures env.token != [] && !Opens(old(conn.data), env.token) ==>
        store.Abs() == old(store.Abs()) && ticks == old(ticks)
    {
      var parser := new Parser(conn);
      var authenticated := env.token == [];
      output := [];
      ghost var total := meaning.run(state, authenticated, conn.data);
      Start(meaning, env, state, authenticated, conn.data);
      while true
        invariant Valid() && conn !in store.repr && fresh(store.repr - old(store.repr))
        invariant Leads(meaning, state, authenticated, conn.data, output, total)
        decreases |conn.data|
      {
        ghost var sv, had, data := state, authenticated, conn.data;
        var open, out;
        authenticated, open, out := ServeConnRound(parser, authenticated);
        Proceed(meaning, env, sv, had, data, output, total, Turn(state, out, authenticated, open), conn.data);
        output := output + out;
        if !open {
          return;
        }
      }
    }
  }
}
