/**
 * What each command means to a client, in bytes: its answer, in terms of what a
 * read in its place would have shown, and what the next read on the same
 * connection shows.
 */
module Commands {
  import opened Types
  import opened Decimal
  import opened Wire
  import opened Protocol
  import opened Framing
  import opened Session
  import opened SessionLaws
  import opened Client
  import Hash
  import Cache
  import ListLaws
  import Effects
  import Increments
  import Ideal
  import Store
  import StoreImpl

  // ----- what the store holds for a key

  ghost predicate Up(sv: Server) {
    0 < |sv.store.shards|
  }

  /** Values have an addressable size and tokens have 64 bits, as they do in memory. */
  ghost predicate Addressable(sv: Server) {
    forall i, e {:trigger Store.In(sv.store, i, e)} ::
      Store.In(sv.store, i, e) ==> |e.value| <= MAX_INT && e.cas <= MAX_UINT64
  }

  function ShardOf(sv: Server, key: Key): Cache.Shard
    requires 0 < |sv.store.shards|
  {
    sv.store.shards[Hash.ShardIndex(key, |sv.store.shards|)]
  }

  /** The live entry of a key at the next clock reading. */
  function LiveAt(env: Env, sv: Server, key: Key): Option<Cache.Entry>
    requires 0 < |sv.store.shards|
  {
    Effects.LiveEntry(ShardOf(sv, key), key, env.clock(sv.ticks))
  }

  /** The same server one clock reading later. */
  function Later(sv: Server): Server {
    sv.(ticks := sv.ticks + 1)
  }

  lemma LiveIsAddressable(env: Env, sv: Server, key: Key)
    requires Up(sv) && Addressable(sv)
    ensures LiveAt(env, sv, key).Some? ==>
      |LiveAt(env, sv, key).value.value| <= MAX_INT && LiveAt(env, sv, key).value.cas <= MAX_UINT64
  {
    ListLaws.FindMember(ShardOf(sv, key).entries, key);
    if LiveAt(env, sv, key).Some? {
      assert Store.In(sv.store, Hash.ShardIndex(key, |sv.store.shards|), LiveAt(env, sv, key).value);
    }
  }

  /** An operation answers by the live entry of its key, in its own shard and at the next clock reading. */
  lemma AskIsIdeal(env: Env, sv: Server, op: Cache.Op)
    requires Up(sv) && !op.Cleanup?
    ensures var (sv1, r) := Ask(env, sv, op);
      && r == Ideal.IdealReply(env.limits, LiveAt(env, sv, op.key), op)
      && Up(sv1) && sv1.ticks == sv.ticks + 1 && sv1.commands == sv.commands
      && ShardOf(sv1, op.key)
         == Cache.Step(env.limits, ShardOf(sv, op.key), op, env.clock(sv.ticks), sv.store.counter + 1).0
  {
    var s := ShardOf(sv, op.key);
    Ideal.StepIsIdeal(env.limits, s, op, env.clock(sv.ticks), sv.store.counter + 1);
  }

  /** What an operation leaves under its key, seen at a later time. */
  lemma LeavesBehind(l: Cache.Limits, s: Cache.Shard, op: Cache.Op, now: Time, later: Time, cas: nat, t: Cache.Shard)
    requires !op.Cleanup? && t == Cache.Step(l, s, op, now, cas).0
    ensures var f := Effects.EffectOf(l, s, op, now, cas);
      Effects.LiveEntry(t, op.key, later) ==
      match f
      case Put(e) => if Cache.Expired(e, later) then None else Some(e)
      case Drop => None
      case _ => Effects.LiveEntry(s, op.key, later)
  {
    Effects.StepIsEffect(l, s, op, now, cas);
    ListLaws.FindWithout(s.entries, op.key, op.key);
    ListLaws.FindMember(s.entries, op.key);
  }

  lemma DeleteLeaves(l: Cache.Limits, s: Cache.Shard, key: Key, now: Time, later: Time, cas: nat, t: Cache.Shard)
    requires t == Cache.Step(l, s, Cache.Delete(key), now, cas).0
    ensures Effects.LiveEntry(t, key, later) == None
  {
    LeavesBehind(l, s, Cache.Delete(key), now, later, cas, t);
  }

  /** The value under a key, if there is one. */
  function ValueOf(live: Option<Cache.Entry>): Option<Bytes> {
    match live
    case Some(e) => Some(e.value)
    case None => None
  }

  lemma IncrLeaves(l: Cache.Limits, s: Cache.Shard, key: Key, delta: nat, now: Time, later: Time, cas: nat,
                   t: Cache.Shard, r: Cache.Reply)
    requires now <= later && (t, r) == Cache.Step(l, s, Cache.Incr(key, delta), now, cas)
    ensures var next := ValueOf(Effects.LiveEntry(s, key, later));
      ValueOf(Effects.LiveEntry(t, key, later)) ==
      if r.Counted? && next.Some? then Some(Format(r.total)) else next
  {
    LeavesBehind(l, s, Cache.Incr(key, delta), now, later, cas, t);
    Effects.LapseFinds(s, key, now);
  }

  /** A write that is stored is there until its deadline; one that fails leaves what was there. */
  ghost predicate Wrote(r: Cache.Reply, value: Bytes, ttl: int, now: Time, later: Time,
                        next: Option<Bytes>, after: Option<Bytes>) {
    if r.Stored? then after == if ttl <= 0 || later < now + ttl then Some(value) else None else after == next
  }

  lemma SetLeaves(l: Cache.Limits, s: Cache.Shard, key: Key, value: Bytes, ttl: int, now: Time, later: Time, cas: nat,
                  t: Cache.Shard, r: Cache.Reply)
    requires now <= later && (t, r) == Cache.Step(l, s, Cache.Set(key, value, ttl), now, cas)
    ensures Wrote(r, value, ttl, now, later,
                  ValueOf(Effects.LiveEntry(s, key, later)), ValueOf(Effects.LiveEntry(t, key, later)))
  {
    LeavesBehind(l, s, Cache.Set(key, value, ttl), now, later, cas, t);
  }

  lemma CasLeaves(l: Cache.Limits, s: Cache.Shard, key: Key, value: Bytes, ttl: int, expected: nat,
                  now: Time, later: Time, cas: nat, t: Cache.Shard, r: Cache.Reply)
    requires now <= later && (t, r) == Cache.Step(l, s, Cache.Cas(key, value, ttl, expected), now, cas)
    ensures Wrote(r, value, ttl, now, later,
                  ValueOf(Effects.LiveEntry(s, key, later)), ValueOf(Effects.LiveEntry(t, key, later)))
  {
    LeavesBehind(l, s, Cache.Cas(key, value, ttl, expected), now, later, cas, t);
    Effects.LapseFinds(s, key, now);
  }

  // ----- reading

  /** What a `get` of the key, sent now, decodes to. */
  function Probe(env: Env, sv: Server, key: Key, rest: Bytes): Fetched
    requires 0 < |sv.store.shards|
  {
    DecodeGet(Run(env, sv, true, Print(Get(key)) + rest).1, key)
  }

  /** The value a client has got, if any. */
  function Shown(got: Fetched): Option<Bytes> {
    if got.Found? then Some(got.value) else None
  }

  lemma GetShows(env: Env, sv: Server, key: Key, rest: Bytes)
    requires Up(sv) && ValidKey(key) && IsWord(key)
    requires LiveAt(env, sv, key).Some? ==> |LiveAt(env, sv, key).value.value| <= MAX_INT
    ensures Shown(Probe(env, sv, key, rest)) == ValueOf(LiveAt(env, sv, key))
    ensures Probe(env, sv, key, rest).Found? || Probe(env, sv, key, rest).Missing?
  {
    var counted := Counted(sv, GET);
    AskIsIdeal(env, counted, Cache.Get(key));
    GetDecodes(env, sv, key, rest, Ask(env, counted, Cache.Get(key)).1);
  }

  lemma CommandRuns(env: Env, sv: Server, c: Command, rest: Bytes, sv1: Server, answer: Bytes)
    requires Up(sv) && Sendable(c) && Clean(c) && !c.Auth? && LineLength(c) <= LINE_BUFFER
    requires Execute(env, Counted(sv, VerbFor(c)), c) == (sv1, Some(answer)) && Up(sv1)
    ensures Run(env, sv, true, Print(c) + rest).1 == answer + Run(env, sv1, true, rest).1
  {
    OneTurn(env, sv, true, c, rest);
  }

  /** One command and then a `get`: the answer, and what the `get` decodes to. */
  lemma ThenGet(env: Env, sv: Server, c: Command, key: Key, rest: Bytes, sv1: Server, answer: Bytes)
    returns (more: Bytes)
    requires Up(sv) && Sendable(c) && Clean(c) && !c.Auth? && !c.Mget? && !c.Gets?
    requires Execute(env, Counted(sv, VerbFor(c)), c) == (sv1, Some(answer)) && Up(sv1)
    requires ValidKey(key) && IsWord(key)
    requires LiveAt(env, sv1, key).Some? ==> |LiveAt(env, sv1, key).value.value| <= MAX_INT
    ensures Run(env, sv, true, Print(c) + (Print(Get(key)) + rest)).1 == answer + more
    ensures Shown(DecodeGet(more, key)) == ValueOf(LiveAt(env, sv1, key))
    ensures DecodeGet(more, key).Found? || DecodeGet(more, key).Missing?
  {
    SingleKeyLinesFit(c);
    CommandRuns(env, sv, c, Print(Get(key)) + rest, sv1, answer);
    more := Run(env, sv1, true, Print(Get(key)) + rest).1;
    GetShows(env, sv1, key, rest);
  }

  // ----- delete

  /**
   * `delete` answers DELETED if and only if a `get` in its place would have found
   * a value, and otherwise NOT_FOUND; either way the next `get` is a miss.
   */
  lemma DeleteThenGet(env: Env, sv: Server, key: Key, rest: Bytes) returns (more: Bytes)
    requires Up(sv) && Addressable(sv) && ValidKey(key) && IsWord(key)
    ensures Run(env, sv, true, Print(Delete(key)) + (Print(Get(key)) + rest)).1 ==
      (if Probe(env, sv, key, rest).Found? then Ascii("DELETED") else Ascii("NOT_FOUND")) + CRLF + more
    ensures DecodeGet(more, key).Missing?
  {
    var counted, op := Counted(sv, DELETE), Cache.Delete(key);
    var (sv1, r) := Ask(env, counted, op);
    AskIsIdeal(env, counted, op);
    DeleteLeaves(env.limits, ShardOf(sv, key), key, env.clock(sv.ticks), env.clock(sv1.ticks),
                 sv.store.counter + 1, ShardOf(sv1, key));
    LiveIsAddressable(env, sv, key);
    GetShows(env, sv, key, rest);
    more := ThenGet(env, sv, Delete(key), key, rest, sv1, if r.Deleted? then Text("DELETED") else Text("NOT_FOUND"));
  }

  // ----- incr

  /** The sum that `incr` arrives at from the value a read shows, if it succeeds. */
  function SumFrom(l: Cache.Limits, key: Key, shown: Option<Bytes>, delta: nat): Option<nat> {
    if shown.None? || !IsDecimal(shown.value) then None
    else
      var n := Value(shown.value) + delta;
      if n >= 0x1_0000_0000_0000_0000 || |Format(n)| > l.maxValueBytes
         || |key| + |Format(n)| + l.overheadBytes > l.maxMemoryBytes
      then None else Some(n)
  }

  /** The line it answers. */
  function IncrLine(l: Cache.Limits, key: Key, shown: Option<Bytes>, delta: nat): Bytes {
    if shown.None? then Ascii("NOT_FOUND")
    else if !IsDecimal(shown.value) || Value(shown.value) >= 0x1_0000_0000_0000_0000 then
      Ascii("CLIENT_ERROR value is not an unsigned integer")
    else
      var n := Value(shown.value) + delta;
      if n >= 0x1_0000_0000_0000_0000 then Ascii("CLIENT_ERROR increment would overflow uint64")
      else if |Format(n)| > l.maxValueBytes then Ascii("SERVER_ERROR value too large")
      else if |key| + |Format(n)| + l.overheadBytes > l.maxMemoryBytes then Ascii("SERVER_ERROR memory limit exceeded")
      else Ascii("VALUE") + [SPACE] + Format(n)
  }

  lemma SumAnswerIs(l: Cache.Limits, key: Key, text: Bytes, delta: nat, n: nat, r: Cache.Reply)
    requires IsDecimal(text) && n == Value(text) + delta < 0x1_0000_0000_0000_0000
    requires r == Increments.Answer(l, key, text, delta)
    ensures IncrAnswer(r) == Some(IncrLine(l, key, Some(text), delta) + CRLF)
    ensures (if r.Counted? then Some(r.total) else None) == SumFrom(l, key, Some(text), delta)
  {
    Increments.AddDeltaIsExact(text, delta);
    JoinTwo(Ascii("VALUE"), Format(n));
  }

  lemma IncrAnswerIs(l: Cache.Limits, key: Key, shown: Option<Bytes>, delta: nat, r: Cache.Reply)
    requires r == if shown.None? then Cache.Failed(Cache.NotFound) else Increments.Answer(l, key, shown.value, delta)
    ensures IncrAnswer(r) == Some(IncrLine(l, key, shown, delta) + CRLF)
    ensures (if r.Counted? then Some(r.total) else None) == SumFrom(l, key, shown, delta)
  {
    if shown.Some? {
      Increments.AddDeltaIsExact(shown.value, delta);
      if IsDecimal(shown.value) && Value(shown.value) + delta < 0x1_0000_0000_0000_0000 {
        SumAnswerIs(l, key, shown.value, delta, Value(shown.value) + delta, r);
      }
    }
  }

  /** What the next read shows after an `incr`. */
  function AfterIncr(l: Cache.Limits, key: Key, shown: Option<Bytes>, delta: nat, next: Option<Bytes>)
    : (o: Option<Bytes>)
    ensures o.Some? ==> o == next || |o.value| <= 20
  {
    var sum := SumFrom(l, key, shown, delta);
    if sum.Some? && next.Some? then
      FormatUint64Length(sum.value);
      Some(Format(sum.value))
    else next
  }

  lemma IncrAsked(env: Env, sv: Server, key: Key, delta: nat, shown: Option<Bytes>, next: Option<Bytes>)
    returns (sv1: Server)
    requires Up(sv) && env.clock(sv.ticks) <= env.clock(sv.ticks + 1)
    requires shown == ValueOf(LiveAt(env, sv, key)) && next == ValueOf(LiveAt(env, Later(sv), key))
    ensures Execute(env, Counted(sv, INCR), Incr(key, delta))
         == (sv1, Some(IncrLine(env.limits, key, shown, delta) + CRLF))
    ensures Up(sv1) && ValueOf(LiveAt(env, sv1, key)) == AfterIncr(env.limits, key, shown, delta, next)
  {
    var counted, op := Counted(sv, INCR), Cache.Incr(key, delta);
    sv1 := Ask(env, counted, op).0;
    var r := Ask(env, counted, op).1;
    AskIsIdeal(env, counted, op);
    IncrAnswerIs(env.limits, key, shown, delta, r);
    IncrLeaves(env.limits, ShardOf(sv, key), key, delta, env.clock(sv.ticks), env.clock(sv.ticks + 1),
               sv.store.counter + 1, ShardOf(sv1, key), r);
  }

  /**
   * `incr` answers by the value that a `get` in its place would have shown. If it
   * succeeds, the next `get` shows the sum, unless the deadline of the value has
   * passed by then; if not, it shows what it would have shown anyway.
   */
  lemma IncrThenGet(env: Env, sv: Server, key: Key, delta: nat, rest: Bytes) returns (more: Bytes)
    requires Up(sv) && Addressable(sv) && ValidKey(key) && IsWord(key) && delta <= MAX_UINT64
    requires env.clock(sv.ticks) <= env.clock(sv.ticks + 1)
    ensures var shown, next := Shown(Probe(env, sv, key, rest)), Shown(Probe(env, Later(sv), key, rest));
      && Run(env, sv, true, Print(Incr(key, delta)) + (Print(Get(key)) + rest)).1
         == IncrLine(env.limits, key, shown, delta) + CRLF + more
      && Shown(DecodeGet(more, key)) == AfterIncr(env.limits, key, shown, delta, next)
  {
    var shown, next := BothShow(env, sv, key, rest);
    var sv1 := IncrAsked(env, sv, key, delta, shown, next);
    more := ThenGet(env, sv, Incr(key, delta), key, rest, sv1, IncrLine(env.limits, key, shown, delta) + CRLF);
  }

  /** What a read shows now and at the next clock reading. */
  lemma BothShow(env: Env, sv: Server, key: Key, rest: Bytes) returns (shown: Option<Bytes>, next: Option<Bytes>)
    requires Up(sv) && Addressable(sv) && ValidKey(key) && IsWord(key)
    ensures shown == Shown(Probe(env, sv, key, rest)) == ValueOf(LiveAt(env, sv, key))
    ensures next == Shown(Probe(env, Later(sv), key, rest)) == ValueOf(LiveAt(env, Later(sv), key))
    ensures next.Some? ==> |next.value| <= MAX_INT
  {
    LiveIsAddressable(env, sv, key);
    LiveIsAddressable(env, Later(sv), key);
    GetShows(env, sv, key, rest);
    GetShows(env, Later(sv), key, rest);
    shown, next := ValueOf(LiveAt(env, sv, key)), ValueOf(LiveAt(env, Later(sv), key));
  }

  // ----- set

  /** A TTL in seconds is refused if and only if it does not fit a signed 64-bit number of nanoseconds. */
  lemma TtlBound(ttl: nat)
    ensures ttl > MAX_TTL_SECONDS <==> ttl * 1_000_000_000 > 0x7FFF_FFFF_FFFF_FFFF
  {
  }

  /** The line that `set` answers; it does not depend on what the store holds. */
  function SetLine(l: Cache.Limits, key: Key, value: Bytes): Bytes {
    if |value| > l.maxValueBytes then Ascii("SERVER_ERROR value too large")
    else if |key| + |value| + l.overheadBytes > l.maxMemoryBytes then Ascii("SERVER_ERROR memory limit exceeded")
    else Ascii("STORED")
  }

  predicate Fits(l: Cache.Limits, key: Key, value: Bytes) {
    |value| <= l.maxValueBytes && |key| + |value| + l.overheadBytes <= l.maxMemoryBytes
  }

  /** What the next read shows after a `set` or `cas` of a value with a TTL that was, or was not, accepted. */
  function AfterWrite(stored: bool, value: Bytes, ttl: nat, now: Time, later: Time, next: Option<Bytes>)
    : Option<Bytes>
  {
    if !stored then next
    else if ttl == 0 || later < now + ttl * 1_000_000_000 then Some(value)
    else None
  }

  /** A command that does not reach the store: the next read comes at the same clock reading as if it were not there. */
  lemma NotAsked(env: Env, sv: Server, c: Command, key: Key, rest: Bytes, answer: Bytes) returns (more: Bytes)
    requires Up(sv) && Addressable(sv) && Sendable(c) && Clean(c) && !c.Auth? && !c.Mget? && !c.Gets?
    requires Execute(env, Counted(sv, VerbFor(c)), c) == (Counted(sv, VerbFor(c)), Some(answer))
    requires ValidKey(key) && IsWord(key)
    ensures Run(env, sv, true, Print(c) + (Print(Get(key)) + rest)).1 == answer + more
    ensures Shown(DecodeGet(more, key)) == Shown(Probe(env, sv, key, rest))
  {
    LiveIsAddressable(env, sv, key);
    GetShows(env, sv, key, rest);
    more := ThenGet(env, sv, c, key, rest, Counted(sv, VerbFor(c)), answer);
  }

  lemma SetAsked(env: Env, sv: Server, key: Key, ttl: nat, value: Bytes, next: Option<Bytes>) returns (sv1: Server)
    requires Up(sv) && ttl <= MAX_TTL_SECONDS && env.clock(sv.ticks) <= env.clock(sv.ticks + 1)
    requires next == ValueOf(LiveAt(env, Later(sv), key))
    ensures Execute(env, Counted(sv, SET), Set(key, ttl, value)) == (sv1, Some(SetLine(env.limits, key, value) + CRLF))
    ensures Up(sv1)
    ensures ValueOf(LiveAt(env, sv1, key)) ==
      AfterWrite(Fits(env.limits, key, value), value, ttl, env.clock(sv.ticks), env.clock(sv.ticks + 1), next)
  {
    var counted, op := Counted(sv, SET), Cache.Set(key, value, ttl * NANOS);
    sv1 := Ask(env, counted, op).0;
    var r := Ask(env, counted, op).1;
    TtlBound(ttl);
    AskIsIdeal(env, counted, op);
    SetLeaves(env.limits, ShardOf(sv, key), key, value, ttl * NANOS, env.clock(sv.ticks), env.clock(sv.ticks + 1),
              sv.store.counter + 1, ShardOf(sv1, key), r);
  }

  /**
   * `set` answers STORED if and only if its TTL, its value and its item fit, and
   * then the next `get` shows the value until `ttl` seconds later, for ever if
   * `ttl` is zero. Otherwise the next `get` shows what it would have shown anyway.
   */
  lemma SetThenGet(env: Env, sv: Server, key: Key, ttl: nat, value: Bytes, rest: Bytes) returns (more: Bytes)
    requires Up(sv) && Addressable(sv) && ValidKey(key) && IsWord(key) && |value| <= MAX_INT
    requires ttl * 1_000_000_000 <= 0x7FFF_FFFF_FFFF_FFFF && env.clock(sv.ticks) <= env.clock(sv.ticks + 1)
    ensures Run(env, sv, true, Print(Set(key, ttl, value)) + (Print(Get(key)) + rest)).1
         == SetLine(env.limits, key, value) + CRLF + more
    ensures Shown(DecodeGet(more, key)) ==
      AfterWrite(Fits(env.limits, key, value), value, ttl, env.clock(sv.ticks), env.clock(sv.ticks + 1),
                 Shown(Probe(env, Later(sv), key, rest)))
  {
    TtlBound(ttl);
    var shown, next := BothShow(env, sv, key, rest);
    var sv1 := SetAsked(env, sv, key, ttl, value, next);
    more := ThenGet(env, sv, Set(key, ttl, value), key, rest, sv1, SetLine(env.limits, key, value) + CRLF);
  }

  /** The line that `set` answers under a configuration. */
  function ConfiguredLine(c: StoreImpl.Config, key: Key, value: Bytes): Bytes
    requires StoreImpl.Usable(c)
  {
    if |value| > c.maxValueBytes then Ascii("SERVER_ERROR value too large")
    else if !StoreImpl.FitsShare(c, |key| + |value| + c.itemOverheadBytes) then
      Ascii("SERVER_ERROR memory limit exceeded")
    else Ascii("STORED")
  }

  lemma ConfiguredLineIs(c: StoreImpl.Config, key: Key, value: Bytes)
    requires StoreImpl.Usable(c)
    ensures SetLine(StoreImpl.ShardLimits(c), key, value) == ConfiguredLine(c, key, value)
  {
    StoreImpl.FitsItsShard(c, |key| + |value| + c.itemOverheadBytes);
  }

  /**
   * A server with the limits of a configuration answers STORED if and only if the
   * value has at most the configured size and as many items like this one as
   * there are shards fit the configured memory.
   */
  lemma ConfiguredSet(env: Env, sv: Server, c: StoreImpl.Config, key: Key, value: Bytes, rest: Bytes)
    returns (more: Bytes)
    requires Up(sv) && Addressable(sv) && ValidKey(key) && IsWord(key) && |value| <= MAX_INT
    requires env.clock(sv.ticks) <= env.clock(sv.ticks + 1)
    requires StoreImpl.Usable(c) && env.limits == StoreImpl.ShardLimits(c)
    ensures Run(env, sv, true, Print(Set(key, 0, value)) + (Print(Get(key)) + rest)).1
         == ConfiguredLine(c, key, value) + CRLF + more
  {
    more := SetThenGet(env, sv, key, 0, value, rest);
    ConfiguredLineIs(c, key, value);
  }

  /** A TTL that does not fit is refused before the store is asked: the next `get` shows what it would have shown. */
  lemma LongTtlIsRefused(env: Env, sv: Server, key: Key, ttl: nat, value: Bytes, rest: Bytes) returns (more: Bytes)
    requires Up(sv) && Addressable(sv) && ValidKey(key) && IsWord(key) && |value| <= MAX_INT
    requires ttl <= MAX_UINT64 && ttl * 1_000_000_000 > 0x7FFF_FFFF_FFFF_FFFF
    ensures Run(env, sv, true, Print(Set(key, ttl, value)) + (Print(Get(key)) + rest)).1
         == Ascii("CLIENT_ERROR TTL is too large") + CRLF + more
    ensures Shown(DecodeGet(more, key)) == Shown(Probe(env, sv, key, rest))
  {
    TtlBound(ttl);
    more := NotAsked(env, sv, Set(key, ttl, value), key, rest, Text("CLIENT_ERROR TTL is too large"));
  }

  // ----- gets

  datatype Versioned = Seen(value: Bytes, version: nat, rest: Bytes) | Gone(rest: Bytes) | Garbled

  /** How a client reads the answer to `gets` of one key. */
  function DecodeGets(s: Bytes, key: Key): Versioned {
    match ReadCrlfLine(s)
    case Torn => Garbled
    case Scanned(line, rest) =>
      if line == Ascii("END") then Gone(rest) else ReadVersioned(Fields(line), key, rest)
  }

  /** The line names key, size and version in this order; the value and END follow. */
  function ReadVersioned(fields: seq<Bytes>, key: Key, s: Bytes): Versioned {
    if |fields| != 4 || fields[0] != Ascii("VALUE") || fields[1] != key then Garbled
    else
      match (ParseByteCount(fields[2]), ParseUintToken(fields[3]))
      case (Some(size), Some(version)) =>
        if TakeValue(size, s).None? || !Ended(s[size + 2..]) then Garbled
        else Seen(TakeValue(size, s).value, version, ReadCrlfLine(s[size + 2..]).rest)
      case _ => Garbled
  }

  predicate Ended(s: Bytes) {
    ReadCrlfLine(s).Scanned? && ReadCrlfLine(s).line == Ascii("END")
  }

  lemma VersionLine(key: Key, size: nat, version: nat)
    requires ValidKey(key) && IsWord(key) && size <= MAX_INT && version <= MAX_UINT64
    ensures var header := [Ascii("VALUE"), key, Format(size)] + [Format(version)];
      LF !in Join(header) && Join(header) != Ascii("END") && Fields(Join(header)) == header
  {
    var header := [Ascii("VALUE"), key, Format(size)] + [Format(version)];
    FormatIsToken(size);
    FormatIsToken(version);
    JoinHasNoLineFeed(header);
    PrintableIsWord(Ascii("VALUE"));
    FieldsOfWords(header);
    assert Join(header)[0] == Ascii("VALUE")[0];
  }

  lemma BlockEnds(value: Bytes, rest: Bytes)
    ensures var s := value + CRLF + (Text("END") + rest);
      && TakeValue(|value|, s) == Some(value) && Ended(s[|value| + 2..]) && ReadCrlfLine(s[|value| + 2..]).rest == rest
  {
    ValueIsTaken(value, Text("END") + rest);
    EndLine(rest);
  }

  lemma VersionedIsRead(key: Key, value: Bytes, version: nat, rest: Bytes)
    requires |value| <= MAX_INT && version <= MAX_UINT64
    ensures ReadVersioned([Ascii("VALUE"), key, Format(|value|), Format(version)], key,
                          value + CRLF + (Text("END") + rest)) == Seen(value, version, rest)
  {
    FormatIsToken(|value|);
    FormatIsToken(version);
    BlockEnds(value, rest);
  }

  lemma DecodeVersioned(line: Bytes, key: Key, value: Bytes, version: nat, rest: Bytes)
    requires LF !in line && line != Ascii("END") && |value| <= MAX_INT && version <= MAX_UINT64
    requires Fields(line) == [Ascii("VALUE"), key, Format(|value|), Format(version)]
    ensures DecodeGets(line + CRLF + (value + CRLF + (Text("END") + rest)), key) == Seen(value, version, rest)
  {
    ReadCrlfLineOf(line, value + CRLF + (Text("END") + rest));
    VersionedIsRead(key, value, version, rest);
  }

  /** The answer to `gets` carries the value and its version. */
  lemma GetsRoundTrip(key: Key, value: Bytes, version: nat, rest: Bytes)
    requires ValidKey(key) && IsWord(key) && |value| <= MAX_INT && version <= MAX_UINT64
    ensures DecodeGets(Block(key, value, Some(version)) + Text("END") + rest, key) == Seen(value, version, rest)
  {
    var header := [Ascii("VALUE"), key, Format(|value|)] + [Format(version)];
    VersionLine(key, |value|, version);
    Regroup(Join(header), value, Text("END"), rest);
    DecodeVersioned(Join(header), key, value, version, rest);
  }

  /** What a `gets` of the key, sent now, decodes to. */
  function ProbeVersion(env: Env, sv: Server, key: Key, rest: Bytes): Versioned
    requires 0 < |sv.store.shards|
  {
    DecodeGets(Run(env, sv, true, Print(Gets([key])) + rest).1, key)
  }

  lemma OneKeyFits(key: Key)
    requires ValidKey(key)
    ensures LineLength(Gets([key])) <= LINE_BUFFER
  {
    NameLaws(GETS);
    JoinLength(Header(Gets([key])));
  }

  lemma FetchOneVersion(env: Env, sv: Server, key: Key, r: Cache.Reply)
    requires Up(sv) && r == Ask(env, sv, Cache.Get(key)).1
    ensures Fetch(env, sv, [key], true).1 == (if r.Hit? then Block(key, r.value, Some(r.cas)) else []) + Text("END")
  {
    assert [key][1..] == [];
  }

  lemma GetsOutput(env: Env, sv: Server, key: Key, rest: Bytes, r: Cache.Reply) returns (more: Bytes)
    requires Up(sv) && ValidKey(key) && IsWord(key) && r == Ask(env, Counted(sv, GETS), Cache.Get(key)).1
    ensures Run(env, sv, true, Print(Gets([key])) + rest).1
         == (if r.Hit? then Block(key, r.value, Some(r.cas)) else []) + Text("END") + more
  {
    OneKeyFits(key);
    OneTurn(env, sv, true, Gets([key]), rest);
    FetchOneVersion(env, Counted(sv, GETS), key, r);
    more := Run(env, Respond(env, sv, true, Gets([key])).server, true, rest).1;
  }

  lemma GetsShows(env: Env, sv: Server, key: Key, rest: Bytes)
    requires Up(sv) && Addressable(sv) && ValidKey(key) && IsWord(key)
    ensures var got, live := ProbeVersion(env, sv, key, rest), LiveAt(env, sv, key);
      && (got.Seen? <==> live.Some?) && (got.Gone? <==> live.None?)
      && (got.Seen? ==> got.value == live.value.value && got.version == live.value.cas)
  {
    var counted := Counted(sv, GETS);
    var r := Ask(env, counted, Cache.Get(key)).1;
    AskIsIdeal(env, counted, Cache.Get(key));
    LiveIsAddressable(env, sv, key);
    var more := GetsOutput(env, sv, key, rest, r);
    if r.Hit? {
      GetsRoundTrip(key, r.value, r.cas, more);
    } else {
      EndLine(more);
      assert [] + Text("END") + more == Text("END") + more;
    }
  }

  // ----- cas

  /** The version a client has seen, if any. */
  function VersionOf(got: Versioned): Option<nat> {
    if got.Seen? then Some(got.version) else None
  }

  /** The line that `cas` answers when a `gets` in its place would have shown `seen`. */
  function CasLine(l: Cache.Limits, key: Key, seen: Option<nat>, version: nat, value: Bytes): Bytes {
    if |value| > l.maxValueBytes then Ascii("SERVER_ERROR value too large")
    else if seen.None? then Ascii("NOT_FOUND")
    else if seen.value != version then Ascii("EXISTS")
    else if |key| + |value| + l.overheadBytes > l.maxMemoryBytes then Ascii("SERVER_ERROR memory limit exceeded")
    else Ascii("STORED")
  }

  lemma CasAsked(env: Env, sv: Server, key: Key, ttl: nat, version: nat, value: Bytes,
                 seen: Option<nat>, next: Option<Bytes>)
    returns (sv1: Server)
    requires Up(sv) && ttl <= MAX_TTL_SECONDS && env.clock(sv.ticks) <= env.clock(sv.ticks + 1)
    requires seen == if LiveAt(env, sv, key).Some? then Some(LiveAt(env, sv, key).value.cas) else None
    requires next == ValueOf(LiveAt(env, Later(sv), key))
    ensures Execute(env, Counted(sv, CAS), Cas(key, ttl, version, value))
         == (sv1, Some(CasLine(env.limits, key, seen, version, value) + CRLF))
    ensures Up(sv1)
    ensures ValueOf(LiveAt(env, sv1, key)) ==
      AfterWrite(seen == Some(version) && Fits(env.limits, key, value), value, ttl,
                 env.clock(sv.ticks), env.clock(sv.ticks + 1), next)
  {
    var counted, op := Counted(sv, CAS), Cache.Cas(key, value, ttl * NANOS, version);
    sv1 := Ask(env, counted, op).0;
    var r := Ask(env, counted, op).1;
    TtlBound(ttl);
    AskIsIdeal(env, counted, op);
    CasLeaves(env.limits, ShardOf(sv, key), key, value, ttl * NANOS, version,
              env.clock(sv.ticks), env.clock(sv.ticks + 1), sv.store.counter + 1, ShardOf(sv1, key), r);
  }

  /**
   * `cas` answers STORED if and only if its version is the one that a `gets` in
   * its place would have shown and value and item fit. Then the next `get` shows
   * the new value until its TTL is over; otherwise what it would have shown anyway.
   */
  lemma CasThenGet(env: Env, sv: Server, key: Key, ttl: nat, version: nat, value: Bytes, rest: Bytes)
    returns (more: Bytes)
    requires Up(sv) && Addressable(sv) && ValidKey(key) && IsWord(key) && |value| <= MAX_INT && version <= MAX_UINT64
    requires ttl * 1_000_000_000 <= 0x7FFF_FFFF_FFFF_FFFF && env.clock(sv.ticks) <= env.clock(sv.ticks + 1)
    ensures var seen := VersionOf(ProbeVersion(env, sv, key, rest));
      && Run(env, sv, true, Print(Cas(key, ttl, version, value)) + (Print(Get(key)) + rest)).1
         == CasLine(env.limits, key, seen, version, value) + CRLF + more
      && Shown(DecodeGet(more, key)) ==
         AfterWrite(seen == Some(version) && Fits(env.limits, key, value), value, ttl,
                    env.clock(sv.ticks), env.clock(sv.ticks + 1), Shown(Probe(env, Later(sv), key, rest)))
  {
    TtlBound(ttl);
    var seen := VersionOf(ProbeVersion(env, sv, key, rest));
    GetsShows(env, sv, key, rest);
    var shown, next := BothShow(env, sv, key, rest);
    var sv1 := CasAsked(env, sv, key, ttl, version, value, seen, next);
    more := ThenGet(env, sv, Cas(key, ttl, version, value), key, rest, sv1,
                    CasLine(env.limits, key, seen, version, value) + CRLF);
  }

  // ----- mget

  function BlockFor(key: Key, r: Cache.Reply, withCas: bool): Bytes {
    if r.Hit? then Block(key, r.value, if withCas then Some(r.cas) else None) else []
  }

  /** The blocks of several keys, each read in its turn; a key that is not there has an empty one. */
  function BlocksOf(env: Env, sv: Server, keys: seq<Key>, withCas: bool): (bs: seq<Bytes>)
    requires 0 < |sv.store.shards|
    ensures |bs| == |keys|
    decreases |keys|
  {
    if keys == [] then []
    else
      var (sv1, r) := Ask(env, sv, Cache.Get(keys[0]));
      [BlockFor(keys[0], r, withCas)] + BlocksOf(env, sv1, keys[1..], withCas)
  }

  lemma {:induction false} FetchIsBlocks(env: Env, sv: Server, keys: seq<Key>, withCas: bool)
    requires Up(sv)
    ensures Fetch(env, sv, keys, withCas).1 == Concat(BlocksOf(env, sv, keys, withCas)) + Text("END")
    decreases |keys|
  {
    if keys == [] {
      assert [] + Text("END") == Text("END");
    } else {
      var (sv1, r) := Ask(env, sv, Cache.Get(keys[0]));
      FetchIsBlocks(env, sv1, keys[1..], withCas);
      var first, more := BlockFor(keys[0], r, withCas), BlocksOf(env, sv1, keys[1..], withCas);
      assert ([first] + more)[1..] == more;
      assert first + (Concat(more) + Text("END")) == first + Concat(more) + Text("END");
    }
  }

  function GetEach(keys: seq<Key>): seq<Command> {
    seq(|keys|, i requires 0 <= i < |keys| => Get(keys[i]))
  }

  function WithEnds(blocks: seq<Bytes>): seq<Bytes> {
    seq(|blocks|, i requires 0 <= i < |blocks| => blocks[i] + Text("END"))
  }

  /** Servers that differ in their counters only. */
  ghost predicate SameStore(a: Server, b: Server) {
    a.store == b.store && a.ticks == b.ticks && Up(a)
  }

  lemma GetTurnIs(env: Env, sv: Server, tv: Server, key: Key)
    requires SameStore(sv, tv)
    ensures var (tv1, r) := Ask(env, tv, Cache.Get(key)); var t := Respond(env, sv, true, Get(key));
      t.open && t.authenticated && t.output == BlockFor(key, r, false) + Text("END") && SameStore(t.server, tv1)
  {
    FetchOne(env, Counted(sv, GET), key);
  }

  lemma {:induction false} GetsInTurn(env: Env, sv: Server, tv: Server, keys: seq<Key>)
    requires SameStore(sv, tv)
    ensures var t := Turns(env, sv, true, GetEach(keys));
      && t.open && t.authenticated && t.output == Concat(WithEnds(BlocksOf(env, tv, keys, false)))
      && SameStore(t.server, Fetch(env, tv, keys, false).0)
    decreases |keys|
  {
    if keys != [] {
      var (tv1, r) := Ask(env, tv, Cache.Get(keys[0]));
      var t := Respond(env, sv, true, Get(keys[0]));
      GetTurnIs(env, sv, tv, keys[0]);
      GetsInTurn(env, t.server, tv1, keys[1..]);
      assert GetEach(keys)[1..] == GetEach(keys[1..]);
      var blocks := BlocksOf(env, tv, keys, false);
      assert WithEnds(blocks)[1..] == WithEnds(BlocksOf(env, tv1, keys[1..], false));
    }
  }

  /**
   * `mget` answers what single `get`s of its keys, one after the other, would
   * have answered, without their ENDs but with one at the end, and leaves the
   * store as they would.
   */
  lemma MgetIsGets(env: Env, sv: Server, keys: seq<Key>, rest: Bytes) returns (blocks: seq<Bytes>, sv1: Server)
    requires Up(sv) && ValidKeys(keys) && AllWords(keys) && LineLength(Mget(keys)) <= LINE_BUFFER
    ensures |blocks| == |keys| && Up(sv1)
    ensures Run(env, sv, true, Print(Mget(keys)) + rest).1
         == Concat(blocks) + Text("END") + Run(env, sv1, true, rest).1
    ensures Run(env, sv, true, PrintAll(GetEach(keys))).1 == Concat(WithEnds(blocks))
    ensures SameStore(Run(env, sv, true, PrintAll(GetEach(keys))).0, sv1)
  {
    var counted := Counted(sv, MGET);
    blocks, sv1 := BlocksOf(env, counted, keys, false), Fetch(env, counted, keys, false).0;
    CommandRuns(env, sv, Mget(keys), rest, sv1, Fetch(env, counted, keys, false).1);
    FetchIsBlocks(env, counted, keys, false);
    SingleGets(env, sv, counted, keys);
  }

  lemma SingleGets(env: Env, sv: Server, tv: Server, keys: seq<Key>)
    requires SameStore(sv, tv) && ValidKeys(keys) && AllWords(keys)
    ensures Run(env, sv, true, PrintAll(GetEach(keys))).1 == Concat(WithEnds(BlocksOf(env, tv, keys, false)))
    ensures SameStore(Run(env, sv, true, PrintAll(GetEach(keys))).0, Fetch(env, tv, keys, false).0)
  {
    var cs := GetEach(keys);
    forall i | 0 <= i < |cs| ensures Sendable(cs[i]) && Clean(cs[i]) && LineLength(cs[i]) <= LINE_BUFFER {
      assert cs[i] == Get(keys[i]);
      SingleKeyLinesFit(cs[i]);
    }
    PipelinedSession(env, sv, true, cs, []);
    assert PrintAll(cs) + [] == PrintAll(cs);
    GetsInTurn(env, sv, tv, keys);
  }

  /** `gets` answers the same blocks with the version of each value added to its line. */
  lemma {:induction false} VersionsAreAdded(env: Env, sv: Server, keys: seq<Key>, i: nat)
    requires Up(sv) && i < |keys|
    ensures var plain, marked := BlocksOf(env, sv, keys, false)[i], BlocksOf(env, sv, keys, true)[i];
      || (plain == [] && marked == [])
      || exists value, version ::
           plain == Block(keys[i], value, None) && marked == Block(keys[i], value, Some(version))
    decreases |keys|
  {
    var (sv1, r) := Ask(env, sv, Cache.Get(keys[0]));
    if i > 0 {
      VersionsAreAdded(env, sv1, keys[1..], i - 1);
    } else if r.Hit? {
      assert BlockFor(keys[0], r, false) == Block(keys[0], r.value, None);
      assert BlockFor(keys[0], r, true) == Block(keys[0], r.value, Some(r.cas));
    }
  }

  lemma GetsIsBlocks(env: Env, sv: Server, keys: seq<Key>, rest: Bytes) returns (more: Bytes)
    requires Up(sv) && ValidKeys(keys) && AllWords(keys) && LineLength(Gets(keys)) <= LINE_BUFFER
    ensures Run(env, sv, true, Print(Gets(keys)) + rest).1
         == Concat(BlocksOf(env, Counted(sv, GETS), keys, true)) + Text("END") + more
  {
    var (sv1, answer) := Fetch(env, Counted(sv, GETS), keys, true);
    CommandRuns(env, sv, Gets(keys), rest, sv1, answer);
    FetchIsBlocks(env, Counted(sv, GETS), keys, true);
    more := Run(env, sv1, true, rest).1;
  }

  lemma LongCasTtlIsRefused(env: Env, sv: Server, key: Key, ttl: nat, version: nat, value: Bytes, rest: Bytes)
    returns (more: Bytes)
    requires Up(sv) && Addressable(sv) && ValidKey(key) && IsWord(key) && |value| <= MAX_INT && version <= MAX_UINT64
    requires ttl <= MAX_UINT64 && ttl * 1_000_000_000 > 0x7FFF_FFFF_FFFF_FFFF
    ensures Run(env, sv, true, Print(Cas(key, ttl, version, value)) + (Print(Get(key)) + rest)).1
         == Ascii("CLIENT_ERROR TTL is too large") + CRLF + more
    ensures Shown(DecodeGet(more, key)) == Shown(Probe(env, sv, key, rest))
  {
    TtlBound(ttl);
    more := NotAsked(env, sv, Cas(key, ttl, version, value), key, rest, Text("CLIENT_ERROR TTL is too large"));
  }
}
