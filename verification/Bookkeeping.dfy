/** The commands that do not touch the store, and the counters that the server keeps. */
module Bookkeeping {
  import opened Types
  import opened Wire
  import opened Protocol
  import opened Framing
  import opened Session
  import opened SessionLaws
  import opened Commands
  import Cache
  import Conservation
  import Store

  // ----- ping, AUTH and bad bytes

  /** `ping` is answered PONG and changes nothing but its own count. */
  lemma PingIsAnswered(env: Env, sv: Server, rest: Bytes)
    requires Up(sv)
    ensures var (last, out) := Run(env, sv.(commands := sv.commands + multiset{PING}), true, rest);
      Run(env, sv, true, Print(Ping) + rest) == (last, Ascii("PONG") + CRLF + out)
  {
    SingleKeyLinesFit(Ping);
    OneTurn(env, sv, true, Ping, rest);
  }

  /**
   * AUTH on a session that is authenticated. Without a configured token it ends
   * the session. A wrong token ends it too and is counted as a failure. The right
   * one is answered, and the session goes on as it was.
   */
  lemma AuthAgainIsExact(env: Env, sv: Server, token: Bytes, rest: Bytes)
    requires Up(sv) && ValidKey(token) && IsWord(token)
    ensures var counted := sv.(commands := sv.commands + multiset{AUTH});
      var (last, out) := Run(env, counted, true, rest);
      Run(env, sv, true, Print(Auth(token)) + rest) ==
      if env.token == [] then (counted, Ascii("CLIENT_ERROR auth not configured") + CRLF)
      else if token != env.token then
        (counted.(authFailures := sv.authFailures + 1), Ascii("CLIENT_ERROR auth failed") + CRLF)
      else (last, Ascii("AUTHENTICATED") + CRLF + out)
  {
    SingleKeyLinesFit(Auth(token));
    OneTurn(env, sv, true, Auth(token), rest);
  }

  /** A first command that does not open the gate: what is answered and what is counted. */
  lemma RefusalIsExact(env: Env, sv: Server, c: Command, rest: Bytes)
    requires Up(sv) && Sendable(c) && Clean(c) && LineLength(c) <= LINE_BUFFER && c != Auth(env.token)
    ensures Run(env, sv, false, Print(c) + rest) ==
      if c.Auth? then
        (sv.(commands := sv.commands + multiset{AUTH}, authFailures := sv.authFailures + 1),
         Ascii("CLIENT_ERROR auth failed") + CRLF)
      else (sv, Ascii("CLIENT_ERROR auth required") + CRLF)
  {
    OneTurn(env, sv, false, c, rest);
    GateRefuses(env, sv, c, Respond(env, sv, false, c));
  }

  lemma GateRefuses(env: Env, sv: Server, c: Command, t: Turn)
    requires Up(sv) && c != Auth(env.token) && t == Respond(env, sv, false, c)
    ensures !t.open
    ensures c.Auth? ==> t.output == Ascii("CLIENT_ERROR auth failed") + CRLF
    ensures c.Auth? ==>
      t.server == sv.(commands := sv.commands + multiset{AUTH}, authFailures := sv.authFailures + 1)
    ensures !c.Auth? ==> t.output == Ascii("CLIENT_ERROR auth required") + CRLF && t.server == sv
  {
  }

  /** Bytes that are no command end a session and count as one client error. */
  lemma BadBytesAreCounted(env: Env, sv: Server, authenticated: bool, s: Bytes)
    requires Up(sv) && Parse(s) == Bad
    ensures Run(env, sv, authenticated, s) ==
      (sv.(clientErrors := sv.clientErrors + 1), Ascii("CLIENT_ERROR bad command") + CRLF)
  {
  }

  // ----- counting commands

  /** Servers with the same counters. */
  ghost predicate SameCounts(a: Server, b: Server) {
    && a.commands == b.commands && a.authFailures == b.authFailures
    && a.clientErrors == b.clientErrors && a.serverErrors == b.serverErrors
  }

  lemma {:induction false} FetchKeepsCounts(env: Env, sv: Server, keys: seq<Key>, withCas: bool)
    requires Up(sv)
    ensures SameCounts(Fetch(env, sv, keys, withCas).0, sv)
    decreases |keys|
  {
    if keys != [] {
      FetchKeepsCounts(env, Ask(env, sv, Cache.Get(keys[0])).0, keys[1..], withCas);
    }
  }

  lemma ExecuteKeepsCounts(env: Env, sv: Server, c: Command)
    requires Up(sv) && !c.Auth?
    ensures SameCounts(Execute(env, sv, c).0, sv)
  {
    match c {
      case Get(key) => FetchKeepsCounts(env, sv, [key], false);
      case Mget(keys) => FetchKeepsCounts(env, sv, keys, false);
      case Gets(keys) => FetchKeepsCounts(env, sv, keys, true);
      case _ =>
    }
  }

  /** A command on an authenticated session goes on and is counted once, under its verb. */
  lemma CommandIsCounted(env: Env, sv: Server, c: Command)
    requires Up(sv) && !c.Auth?
    ensures var t := Respond(env, sv, true, c);
      t.open && t.authenticated && SameCounts(t.server, sv.(commands := sv.commands + multiset{VerbFor(c)}))
  {
    ExecuteKeepsCounts(env, Counted(sv, VerbFor(c)), c);
    EveryReplyHasAnAnswer(env, Counted(sv, VerbFor(c)), c);
  }

  function VerbsOf(cs: seq<Command>): seq<Verb> {
    seq(|cs|, i requires 0 <= i < |cs| => VerbFor(cs[i]))
  }

  lemma CountsAdd(sv: Server, cs: seq<Command>, mid: Server, last: Server)
    requires cs != [] && SameCounts(mid, sv.(commands := sv.commands + multiset{VerbFor(cs[0])}))
    requires SameCounts(last, mid.(commands := mid.commands + multiset(VerbsOf(cs[1..]))))
    ensures SameCounts(last, sv.(commands := sv.commands + multiset(VerbsOf(cs))))
  {
    assert VerbsOf(cs) == [VerbFor(cs[0])] + VerbsOf(cs[1..]);
  }

  /** However many commands: each is counted once under its verb, and no other counter moves. */
  lemma {:induction false} CommandsAreCounted(env: Env, sv: Server, cs: seq<Command>)
    requires Up(sv) && NoAuth(cs)
    ensures var t := Turns(env, sv, true, cs);
      t.open && t.authenticated && SameCounts(t.server, sv.(commands := sv.commands + multiset(VerbsOf(cs))))
    decreases |cs|
  {
    if cs == [] {
      assert multiset(VerbsOf(cs)) == multiset{};
    } else {
      var t := Respond(env, sv, true, cs[0]);
      CommandIsCounted(env, sv, cs[0]);
      CommandsAreCounted(env, t.server, cs[1..]);
      CountsAdd(sv, cs, t.server, Turns(env, t.server, true, cs[1..]).server);
    }
  }

  // ----- stats

  /**
   * What the `stats` command reports about a store that has come through a run:
   * each figure is its own total, and together with what was deleted and what
   * lapsed they account for every item ever inserted.
   */
  lemma FiguresAreTrue(env: Env, sv: Server, n: nat, evs: seq<Store.Event>)
    requires 0 < n && sv.store == Store.After(env.limits, Store.Init(n), evs)
    ensures var f, t, shards := FiguresOf(env, sv), Conservation.TallyOf(env.limits, n, evs), sv.store.shards;
      && f.items == Store.ItemsIn(shards) && f.memoryBytes == Store.MemIn(env.limits, shards)
      && f.evictions == Store.EvictionsIn(shards) && f.expirations == Store.ExpirationsIn(shards)
      && f.items + f.evictions + f.expirations + t.deleted + t.lapsed == t.inserted
      && f.shards == n && f.maxMemoryBytes == n * env.limits.maxMemoryBytes
      && f.commands == sv.commands && f.authFailures == sv.authFailures
      && f.clientErrors == sv.clientErrors && f.serverErrors == sv.serverErrors
  {
    Conservation.NothingIsLost(env.limits, n, evs);
  }

  /** `stats` answers with the text of those figures and END, and changes nothing but its own count. */
  lemma StatsIsAnswered(env: Env, sv: Server, rest: Bytes)
    requires Up(sv)
    ensures var counted := sv.(commands := sv.commands + multiset{STATS});
      var (last, out) := Run(env, counted, true, rest);
      Run(env, sv, true, Print(Stats) + rest) ==
      (last, env.statsText(FiguresOf(env, counted)) + Text("END") + out)
  {
    SingleKeyLinesFit(Stats);
    OneTurn(env, sv, true, Stats, rest);
  }
}
