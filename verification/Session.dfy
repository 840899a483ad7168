/** The sequential meaning of a connection: what a byte stream does to the server and what comes back. */
module Session {
  import opened Types
  import opened Decimal
  import opened Wire
  import opened Protocol
  import Cache
  import Store

  /** What a server is configured with, and the outside world it consults. */
  datatype Env = Env(
    limits: Cache.Limits,
    token: Bytes,               // empty: authentication is off
    clock: nat -> Time,         // the reading of each successive store operation
    statsText: Figures -> Bytes // the lines of the `stats` command before its END
  )

  /** The numbers the `stats` command reports. */
  datatype Figures = Figures(
    items: nat, memoryBytes: int, maxMemoryBytes: nat, evictions: nat, expirations: nat, shards: nat,
    commands: multiset<Verb>, authFailures: nat, clientErrors: nat, serverErrors: nat)

  /** `commands` counts commands by verb. */
  datatype Server = Server(
    store: Store.State, ticks: nat, commands: multiset<Verb>, authFailures: nat, clientErrors: nat, serverErrors: nat)

  const NANOS: nat := 1_000_000_000
  const MAX_TTL_SECONDS: nat := 9_223_372_036

  function Text(s: string): Bytes {
    Ascii(s) + CRLF
  }

  // ----- commands on the store

  /** One store operation, under the next clock reading. */
  function Ask(env: Env, sv: Server, op: Cache.Op): (r: (Server, Cache.Reply))
    requires 0 < |sv.store.shards|
    ensures |r.0.store.shards| == |sv.store.shards|
  {
    var (st, r) := Store.Apply(env.limits, sv.store, Store.Event(op, env.clock(sv.ticks)));
    (sv.(store := st, ticks := sv.ticks + 1), r)
  }

  /** A value block of `get` and `mget`, or of `gets` with its token. */
  function Block(key: Key, value: Bytes, cas: Option<nat>): Bytes {
    Join([Ascii("VALUE"), key, Format(|value|)] + if cas.Some? then [Format(cas.value)] else []) + CRLF + value + CRLF
  }

  function Fetch(env: Env, sv: Server, keys: seq<Key>, withCas: bool): (r: (Server, Bytes))
    requires 0 < |sv.store.shards|
    ensures |r.0.store.shards| == |sv.store.shards|
    decreases |keys|
  {
    if keys == [] then (sv, Text("END"))
    else
      var (sv1, r) := Ask(env, sv, Cache.Get(keys[0]));
      var (sv2, out) := Fetch(env, sv1, keys[1..], withCas);
      (sv2, (if r.Hit? then Block(keys[0], r.value, if withCas then Some(r.cas) else None) else []) + out)
  }

  function WriteAnswer(r: Cache.Reply): Option<Bytes> {
    match r
    case Stored => Some(Text("STORED"))
    case Failed(ValueTooLarge) => Some(Text("SERVER_ERROR value too large"))
    case Failed(MemoryLimitExceeded) => Some(Text("SERVER_ERROR memory limit exceeded"))
    case _ => None
  }

  function CasAnswer(r: Cache.Reply): Option<Bytes> {
    match r
    case Failed(CasMismatch) => Some(Text("EXISTS"))
    case Failed(NotFound) => Some(Text("NOT_FOUND"))
    case _ => WriteAnswer(r)
  }

  function IncrAnswer(r: Cache.Reply): Option<Bytes> {
    match r
    case Counted(n) => Some(Join([Ascii("VALUE"), Format(n)]) + CRLF)
    case Failed(NotFound) => Some(Text("NOT_FOUND"))
    case Failed(NotInteger) => Some(Text("CLIENT_ERROR value is not an unsigned integer"))
    case Failed(Overflow) => Some(Text("CLIENT_ERROR increment would overflow uint64"))
    case Failed(ValueTooLarge) => Some(Text("SERVER_ERROR value too large"))
    case Failed(MemoryLimitExceeded) => Some(Text("SERVER_ERROR memory limit exceeded"))
    case _ => None
  }

  function FiguresOf(env: Env, sv: Server): Figures {
    var ss := sv.store.shards;
    Figures(Store.ItemsIn(ss), Store.MemIn(env.limits, ss), |ss| * env.limits.maxMemoryBytes,
            Store.EvictionsIn(ss), Store.ExpirationsIn(ss), |ss|,
            sv.commands, sv.authFailures, sv.clientErrors, sv.serverErrors)
  }

  /** `execute`: the answer, or nothing if the store reports an error the server does not know. */
  function Execute(env: Env, sv: Server, c: Command): (r: (Server, Option<Bytes>))
    requires 0 < |sv.store.shards| && !c.Auth?
    ensures |r.0.store.shards| == |sv.store.shards|
  {
    match c
    case Ping => (sv, Some(Text("PONG")))
    case Stats => (sv, Some(env.statsText(FiguresOf(env, sv)) + Text("END")))
    case Get(key) =>
      var (sv1, out) := Fetch(env, sv, [key], false);
      (sv1, Some(out))
    case Mget(keys) =>
      var (sv1, out) := Fetch(env, sv, keys, false);
      (sv1, Some(out))
    case Gets(keys) =>
      var (sv1, out) := Fetch(env, sv, keys, true);
      (sv1, Some(out))
    case Set(key, ttl, value) =>
      if ttl > MAX_TTL_SECONDS then (sv, Some(Text("CLIENT_ERROR TTL is too large")))
      else
        var (sv1, r) := Ask(env, sv, Cache.Set(key, value, ttl * NANOS));
        (sv1, WriteAnswer(r))
    case Delete(key) =>
      var (sv1, r) := Ask(env, sv, Cache.Delete(key));
      (sv1, Some(if r.Deleted? then Text("DELETED") else Text("NOT_FOUND")))
    case Incr(key, delta) =>
      var (sv1, r) := Ask(env, sv, Cache.Incr(key, delta));
      (sv1, IncrAnswer(r))
    case Cas(key, ttl, version, value) =>
      if ttl > MAX_TTL_SECONDS then (sv, Some(Text("CLIENT_ERROR TTL is too large")))
      else
        var (sv1, r) := Ask(env, sv, Cache.Cas(key, value, ttl * NANOS, version));
        (sv1, CasAnswer(r))
  }

  // ----- the session loop

  function Counted(sv: Server, v: Verb): (r: Server)
    ensures r.store == sv.store
  {
    sv.(commands := sv.commands + multiset{v})
  }

  datatype Turn = Turn(server: Server, output: Bytes, authenticated: bool, open: bool)

  /** `handleAuthGate`: before authentication only the right AUTH is let through. */
  function Gate(env: Env, sv: Server, c: Command): (t: Turn)
    ensures t.server.store == sv.store
  {
    if !c.Auth? then
      Turn(sv, Text("CLIENT_ERROR auth required"), false, false)
    else if c.token != env.token then
      Turn(Counted(sv, AUTH).(authFailures := sv.authFailures + 1), Text("CLIENT_ERROR auth failed"), false, false)
    else
      Turn(Counted(sv, AUTH), Text("AUTHENTICATED"), true, true)
  }

  /** AUTH on a session that needs none or has passed the gate. */
  function AuthAgain(env: Env, sv: Server, token: Bytes): (t: Turn)
    ensures t.server.store == sv.store
  {
    if env.token == [] then
      Turn(Counted(sv, AUTH), Text("CLIENT_ERROR auth not configured"), true, false)
    else if token != env.token then
      Turn(Counted(sv, AUTH).(authFailures := sv.authFailures + 1), Text("CLIENT_ERROR auth failed"), true, false)
    else
      Turn(Counted(sv, AUTH), Text("AUTHENTICATED"), true, true)
  }

  /** The turn that an executed command makes; an error that the server does not know ends the session. */
  function TurnOf(sv: Server, answer: Option<Bytes>): Turn {
    match answer
    case Some(out) => Turn(sv, out, true, true)
    case None => Turn(sv.(serverErrors := sv.serverErrors + 1), [], true, false)
  }

  /** Any other command: it is counted and executed. */
  function Perform(env: Env, sv: Server, c: Command): (t: Turn)
    requires 0 < |sv.store.shards| && !c.Auth?
    ensures |t.server.store.shards| == |sv.store.shards|
  {
    var (sv1, answer) := Execute(env, Counted(sv, VerbFor(c)), c);
    TurnOf(sv1, answer)
  }

  /** What one command does to a session, and whether the session goes on. */
  function Respond(env: Env, sv: Server, authenticated: bool, c: Command): (t: Turn)
    requires 0 < |sv.store.shards|
    ensures |t.server.store.shards| == |sv.store.shards|
  {
    if !authenticated then Gate(env, sv, c)
    else if c.Auth? then AuthAgain(env, sv, c.token)
    else Perform(env, sv, c)
  }

  /** A whole session over a byte stream without network errors. */
  function Run(env: Env, sv: Server, authenticated: bool, s: Bytes): (r: (Server, Bytes))
    requires 0 < |sv.store.shards|
    ensures |r.0.store.shards| == |sv.store.shards|
    decreases |s|
  {
    match Parse(s)
    case End => (sv, [])
    case Bad => (sv.(clientErrors := sv.clientErrors + 1), Text("CLIENT_ERROR bad command"))
    case Ok(c, rest) =>
      ParseConsumes(s);
      var t := Respond(env, sv, authenticated, c);
      if !t.open then (t.server, t.output)
      else
        var (last, out) := Run(env, t.server, t.authenticated, rest);
        (last, t.output + out)
  }
}
