/** The MiniKV client: how it reads answers, and what it gets back end to end. */
module Client {
  import opened Types
  import opened Decimal
  import opened Wire
  import opened Protocol
  import opened Framing
  import opened Session
  import opened SessionLaws
  import Hash
  import Cache
  import ListLaws
  import Effects
  import Ideal
  import Store

  datatype Scanned = Scanned(line: Bytes, rest: Bytes) | Torn

  /** `readCRLFLine`: a line of any length, which must end in CRLF. */
  function ReadCrlfLine(s: Bytes): Scanned {
    var i := IndexOf(s, LF);
    if i == |s| || i == 0 || s[i - 1] != CR then Torn else Scanned(s[..i - 1], s[i + 1..])
  }

  /** `strconv.Atoi`: an optional sign and decimal digits that fit a signed 64-bit integer. */
  function Atoi(token: Bytes): Option<int> {
    var signed := token != [] && (token[0] == 43 || token[0] == 45);
    var digits := if signed then token[1..] else token;
    if !IsDecimal(digits) then None
    else
      var n: int := if signed && token[0] == 45 then 0 - Value(digits) else Value(digits);
      if 0 - MAX_INT - 1 <= n <= MAX_INT then Some(n) else None
  }

  datatype Fetched = Found(value: Bytes, rest: Bytes) | Missing(rest: Bytes) | Broken

  /** `readMiniKVGet`: END alone is a miss, anything else has to be a value. */
  function DecodeGet(s: Bytes, key: Key): Fetched {
    match ReadCrlfLine(s)
    case Torn => Broken
    case Scanned(line, rest) => if line == Ascii("END") then Missing(rest) else ReadBlock(Fields(line), key, rest)
  }

  /** A value line names the key and the size; the value and END follow. */
  function ReadBlock(fields: seq<Bytes>, key: Key, s: Bytes): Fetched {
    if |fields| != 3 || fields[0] != Ascii("VALUE") || fields[1] != key then Broken
    else
      match Atoi(fields[2])
      case None => Broken
      case Some(size) =>
        if size < 0 then Broken
        else
          match TakeValue(size, s)
          case None => Broken
          case Some(value) =>
            match ReadCrlfLine(s[size + 2..])
            case Torn => Broken
            case Scanned(end, tail) => if end != Ascii("END") then Broken else Found(value, tail)
  }

  lemma ReadCrlfLineOf(text: Bytes, rest: Bytes)
    requires LF !in text
    ensures ReadCrlfLine(text + CRLF + rest) == Scanned(text, rest)
  {
    var s := text + CRLF + rest;
    assert s[..|text| + 1] == text + [CR];
    IndexOfIs(s, LF, |text| + 1);
    assert s[..|text|] == text && s[|text| + 2..] == rest;
  }

  lemma AtoiOfFormat(n: nat)
    requires n <= MAX_INT
    ensures Atoi(Format(n)) == Some(n)
  {
    FormatThenValue(n);
    assert IsDigit(Format(n)[0]);
  }

  lemma EndLine(rest: Bytes)
    ensures ReadCrlfLine(Text("END") + rest) == Scanned(Ascii("END"), rest)
  {
    assert LF !in Ascii("END");
    ReadCrlfLineOf(Ascii("END"), rest);
  }

  lemma ValueLine(key: Key, size: nat)
    requires ValidKey(key) && size <= MAX_INT
    ensures var header := [Ascii("VALUE"), key, Format(size)];
      && LF !in Join(header) && Join(header) != Ascii("END")
      && (IsWord(key) ==> Fields(Join(header)) == header)
  {
    var header := [Ascii("VALUE"), key, Format(size)];
    FormatIsToken(size);
    JoinHasNoLineFeed(header);
    PrintableIsWord(Ascii("VALUE"));
    if IsWord(key) {
      FieldsOfWords(header);
    }
    assert Join(header)[0] == Ascii("VALUE")[0];
  }

  /** No bytes at all decode to a value of a key that holds white space. */
  lemma DecodedIsWord(s: Bytes, key: Key)
    requires DecodeGet(s, key).Found?
    ensures IsWord(key)
  {
    FieldsAreWords(ReadCrlfLine(s).line);
  }

  lemma Regroup(line: Bytes, value: Bytes, end: Bytes, rest: Bytes)
    ensures line + CRLF + value + CRLF + end + rest == line + CRLF + (value + CRLF + (end + rest))
  {
  }

  lemma BlockParts(key: Key, value: Bytes, rest: Bytes)
    ensures Block(key, value, None) + Text("END") + rest ==
      Join([Ascii("VALUE"), key, Format(|value|)]) + CRLF + (value + CRLF + (Text("END") + rest))
  {
    var header := [Ascii("VALUE"), key, Format(|value|)];
    assert header + [] == header;
    Regroup(Join(header), value, Text("END"), rest);
  }

  /**
   * A printed value block decodes to exactly its value, whatever bytes the value
   * holds, if and only if the key holds no white space; otherwise the client
   * reports a broken answer.
   */
  lemma ResponseRoundTrip(key: Key, value: Bytes, rest: Bytes)
    requires ValidKey(key) && |value| <= MAX_INT
    ensures DecodeGet(Block(key, value, None) + Text("END") + rest, key) ==
      if IsWord(key) then Found(value, rest) else Broken
  {
    var line := Join([Ascii("VALUE"), key, Format(|value|)]);
    var more := Text("END") + rest;
    ValueLine(key, |value|);
    BlockParts(key, value, rest);
    ReadCrlfLineOf(line, value + CRLF + more);
    AtoiOfFormat(|value|);
    ValueIsTaken(value, more);
    EndLine(rest);
    FieldsAreWords(line);
  }

  // ----- exactly which answers are values

  /** A size as `strconv.Atoi` reads it: digits, with an optional sign. */
  ghost predicate SpellsSize(token: Bytes, n: nat) {
    || (IsDecimal(token) && Value(token) == n)
    || (token != [] && token[0] == 43 && IsDecimal(token[1..]) && Value(token[1..]) == n)
    || (token != [] && token[0] == 45 && IsDecimal(token[1..]) && Value(token[1..]) == n == 0)
  }

  lemma AtoiIsExact(token: Bytes, n: nat)
    ensures Atoi(token) == Some(n) <==> SpellsSize(token, n) && n < 0x8000_0000_0000_0000
  {
    if token != [] && (token[0] == 43 || token[0] == 45) {
      assert !IsDigit(token[0]);
      assert !IsDecimal(token);
    }
  }

  /** The stream is a line VALUE, key and size, the value, CRLF, END and what is left. */
  ghost predicate CarriesValue(s: Bytes, line: Bytes, key: Key, value: Bytes, rest: Bytes) {
    && LF !in line && s == line + CRLF + (value + CRLF + (Ascii("END") + CRLF + rest))
    && var fields := Fields(line);
       |fields| == 3 && fields[0] == Ascii("VALUE") && fields[1] == key && SpellsSize(fields[2], |value|)
       && |value| < 0x8000_0000_0000_0000
  }

  lemma LineIsScanned(s: Bytes)
    requires ReadCrlfLine(s).Scanned?
    ensures LF !in ReadCrlfLine(s).line && s == ReadCrlfLine(s).line + CRLF + ReadCrlfLine(s).rest
  {
    var i := IndexOf(s, LF);
    assert ReadCrlfLine(s).line == s[..i][..i - 1];
    assert s == s[..i - 1] + [s[i - 1], s[i]] + s[i + 1..];
  }

  /** The client takes a stream for a value of the key if and only if it carries one. */
  lemma DecodeIsExact(s: Bytes, key: Key, value: Bytes, rest: Bytes)
    ensures DecodeGet(s, key) == Found(value, rest) <==> exists line :: CarriesValue(s, line, key, value, rest)
  {
    if DecodeGet(s, key) == Found(value, rest) {
      DecodedCarries(s, key, value, rest);
    }
    if line :| CarriesValue(s, line, key, value, rest) {
      CarriedDecodes(s, line, key, value, rest);
    }
  }

  lemma BodyCarries(body: Bytes, value: Bytes, rest: Bytes)
    requires TakeValue(|value|, body) == Some(value)
    requires ReadCrlfLine(body[|value| + 2..]) == Scanned(Ascii("END"), rest)
    ensures body == value + CRLF + (Ascii("END") + CRLF + rest)
  {
    var n := |value|;
    LineIsScanned(body[n + 2..]);
    assert body == body[..n] + body[n..n + 2] + body[n + 2..];
  }

  lemma BlockIsExact(fields: seq<Bytes>, key: Key, s: Bytes, value: Bytes, rest: Bytes)
    ensures ReadBlock(fields, key, s) == Found(value, rest) <==>
      && |fields| == 3 && fields[0] == Ascii("VALUE") && fields[1] == key
      && SpellsSize(fields[2], |value|) && |value| < 0x8000_0000_0000_0000
      && s == value + CRLF + (Ascii("END") + CRLF + rest)
  {
    if |fields| == 3 {
      AtoiIsExact(fields[2], |value|);
    }
    if ReadBlock(fields, key, s) == Found(value, rest) {
      BodyCarries(s, value, rest);
    }
    ValueIsTaken(value, Text("END") + rest);
    EndLine(rest);
  }

  lemma DecodedCarries(s: Bytes, key: Key, value: Bytes, rest: Bytes)
    requires DecodeGet(s, key) == Found(value, rest)
    ensures CarriesValue(s, ReadCrlfLine(s).line, key, value, rest)
  {
    LineIsScanned(s);
    BlockIsExact(Fields(ReadCrlfLine(s).line), key, ReadCrlfLine(s).rest, value, rest);
  }

  lemma EndIsOneField()
    ensures |Fields(Ascii("END"))| == 1
  {
    PrintableIsWord(Ascii("END"));
    assert Ascii("END") + [] == Ascii("END");
    FirstField(Ascii("END"), []);
  }

  lemma CarriedDecodes(s: Bytes, line: Bytes, key: Key, value: Bytes, rest: Bytes)
    requires CarriesValue(s, line, key, value, rest)
    ensures DecodeGet(s, key) == Found(value, rest)
  {
    ReadCrlfLineOf(line, value + CRLF + (Text("END") + rest));
    EndIsOneField();
    BlockIsExact(Fields(line), key, value + CRLF + (Text("END") + rest), value, rest);
  }

  // ----- end to end

  /** The text of a single-key answer. */
  function Answer(key: Key, r: Cache.Reply): Bytes {
    (if r.Hit? then Block(key, r.value, None) else []) + Text("END")
  }

  lemma FetchOne(env: Env, sv: Server, key: Key)
    requires 0 < |sv.store.shards|
    ensures var (sv1, r) := Ask(env, sv, Cache.Get(key)); Fetch(env, sv, [key], false) == (sv1, Answer(key, r))
  {
    assert [key][1..] == [];
  }

  /** A `get` on an authenticated session: its answer comes first, and the session goes on. */
  lemma GetTurn(env: Env, sv: Server, key: Key, rest: Bytes, r: Cache.Reply) returns (more: Bytes)
    requires 0 < |sv.store.shards| && ValidKey(key) && IsWord(key)
    requires r == Ask(env, Counted(sv, GET), Cache.Get(key)).1
    ensures Run(env, sv, true, Print(Get(key)) + rest).1 == Answer(key, r) + more
  {
    var c := Get(key);
    SingleKeyLinesFit(c);
    OneTurn(env, sv, true, c, rest);
    FetchOne(env, Counted(sv, GET), key);
    more := Run(env, Respond(env, sv, true, c).server, true, rest).1;
  }

  lemma DecodeAnswer(key: Key, r: Cache.Reply, more: Bytes)
    requires ValidKey(key) && IsWord(key) && (r.Hit? ==> |r.value| <= MAX_INT)
    ensures DecodeGet(Answer(key, r) + more, key) == if r.Hit? then Found(r.value, more) else Missing(more)
  {
    if r.Hit? {
      ResponseRoundTrip(key, r.value, more);
    } else {
      EndLine(more);
      assert Answer(key, r) == Text("END");
    }
  }

  /**
   * What the client makes of the answer to its `get`, whatever else is on the
   * connection. A key without white space decodes to what the store replied: a
   * hit as its value, a miss as missing. Another key never decodes to a value.
   */
  lemma GetDecodes(env: Env, sv: Server, key: Key, rest: Bytes, r: Cache.Reply)
    requires 0 < |sv.store.shards| && ValidKey(key)
    requires r == Ask(env, Counted(sv, GET), Cache.Get(key)).1 && (r.Hit? ==> |r.value| <= MAX_INT)
    ensures var got := DecodeGet(Run(env, sv, true, Print(Get(key)) + rest).1, key);
      && (got.Found? <==> IsWord(key) && r.Hit?)
      && (got.Found? ==> got.value == r.value)
      && (IsWord(key) && !r.Hit? ==> got.Missing?)
  {
    if IsWord(key) {
      var more := GetTurn(env, sv, key, rest, r);
      DecodeAnswer(key, r, more);
    } else if DecodeGet(Run(env, sv, true, Print(Get(key)) + rest).1, key).Found? {
      DecodedIsWord(Run(env, sv, true, Print(Get(key)) + rest).1, key);
    }
  }

  /** A stored value is what the next read finds, until its deadline. */
  lemma StoredIsFound(
      l: Cache.Limits, s: Cache.Shard, key: Key, value: Bytes, ttl: int, now: Time, later: Time,
      cas: nat, token: nat, t: Cache.Shard)
    requires Cache.Step(l, s, Cache.Set(key, value, ttl), now, cas) == (t, Cache.Stored)
    ensures Cache.Step(l, t, Cache.Get(key), later, token).1
         == if ttl <= 0 || later < now + ttl then Cache.Hit(value, cas) else Cache.Miss
  {
    Effects.StepIsEffect(l, s, Cache.Set(key, value, ttl), now, cas);
    Effects.LapseFinds(t, key, later);
  }

  lemma StoredIsRead(
      l: Cache.Limits, st: Store.State, key: Key, value: Bytes, ttl: int, now: Time, later: Time, t: Store.State)
    requires 0 < |st.shards|
    requires Store.Apply(l, st, Store.Event(Cache.Set(key, value, ttl), now)) == (t, Cache.Stored)
    ensures 0 < |t.shards|
    ensures Store.Apply(l, t, Store.Event(Cache.Get(key), later)).1
         == if ttl <= 0 || later < now + ttl then Cache.Hit(value, st.counter + 1) else Cache.Miss
  {
    var i := Hash.ShardIndex(key, |st.shards|);
    StoredIsFound(l, st.shards[i], key, value, ttl, now, later, st.counter + 1, t.counter + 1, t.shards[i]);
  }

  /** A `set` answer reads as STORED exactly when the value was stored. */
  lemma AnswerLine(r: Cache.Reply, more: Bytes)
    requires WriteAnswer(r).Some?
    ensures var got := ReadCrlfLine(WriteAnswer(r).value + more);
      && got.Scanned? && got.rest == more
      && (got.line == Ascii("STORED") <==> r == Cache.Stored)
  {
    var line :=
      if r.Stored? then Ascii("STORED")
      else if r.error == Cache.ValueTooLarge then Ascii("SERVER_ERROR value too large")
      else Ascii("SERVER_ERROR memory limit exceeded");
    assert LF !in line;
    assert line[1] == if r.Stored? then 'T' as int else 'E' as int;
    ReadCrlfLineOf(line, more);
  }

  /** If the client reads STORED, the store has accepted the value and the next answer follows. */
  lemma SetTurn(env: Env, sv: Server, key: Key, value: Bytes, rest: Bytes, tail: Bytes) returns (sv1: Server)
    requires 0 < |sv.store.shards| && ValidKey(key) && IsWord(key) && |value| <= MAX_INT
    requires ReadCrlfLine(Run(env, sv, true, Print(Set(key, 0, value)) + rest).1) == Scanned(Ascii("STORED"), tail)
    ensures 0 < |sv1.store.shards| && tail == Run(env, sv1, true, rest).1
    ensures Store.Apply(env.limits, sv.store, Store.Event(Cache.Set(key, value, 0), env.clock(sv.ticks)))
         == (sv1.store, Cache.Stored)
  {
    var c := Set(key, 0, value);
    SingleKeyLinesFit(c);
    OneTurn(env, sv, true, c, rest);
    var r := Ask(env, Counted(sv, SET), Cache.Set(key, value, 0)).1;
    sv1 := Respond(env, sv, true, c).server;
    if WriteAnswer(r).Some? {
      AnswerLine(r, Run(env, sv1, true, rest).1);
    }
  }

  lemma SetReply(env: Env, sv: Server, key: Key, value: Bytes)
    requires 0 < |sv.store.shards|
    ensures Ask(env, sv, Cache.Set(key, value, 0)).1 == Ideal.WriteReply(env.limits, key, value)
  {
    var i := Hash.ShardIndex(key, |sv.store.shards|);
    var s, op := sv.store.shards[i], Cache.Set(key, value, 0);
    Ideal.StepIsIdeal(env.limits, s, op, env.clock(sv.ticks), sv.store.counter + 1);
  }

  /**
   * The client reads STORED for its `set` if and only if value and item fit the
   * limits by themselves: how full the store is does not matter.
   */
  lemma SetIsAnswered(env: Env, sv: Server, key: Key, value: Bytes, rest: Bytes)
    requires 0 < |sv.store.shards| && ValidKey(key) && IsWord(key) && |value| <= MAX_INT
    ensures var got := ReadCrlfLine(Run(env, sv, true, Print(Set(key, 0, value)) + rest).1);
      && got.Scanned?
      && (got.line == Ascii("STORED") <==>
            && |value| <= env.limits.maxValueBytes
            && |key| + |value| + env.limits.overheadBytes <= env.limits.maxMemoryBytes)
  {
    var r := Ideal.WriteReply(env.limits, key, value);
    var more := SetOutput(env, sv, key, value, rest, r);
    AnswerLine(r, more);
  }

  lemma SetOutput(env: Env, sv: Server, key: Key, value: Bytes, rest: Bytes, r: Cache.Reply) returns (more: Bytes)
    requires 0 < |sv.store.shards| && ValidKey(key) && IsWord(key) && |value| <= MAX_INT
    requires r == Ideal.WriteReply(env.limits, key, value)
    ensures WriteAnswer(r).Some?
    ensures Run(env, sv, true, Print(Set(key, 0, value)) + rest).1 == WriteAnswer(r).value + more
  {
    var c := Set(key, 0, value);
    SingleKeyLinesFit(c);
    OneTurn(env, sv, true, c, rest);
    SetReply(env, Counted(sv, SET), key, value);
    more := Run(env, Respond(env, sv, true, c).server, true, rest).1;
  }

  lemma CleanEndToEnd(env: Env, sv: Server, key: Key, value: Bytes, rest: Bytes, tail: Bytes)
    requires 0 < |sv.store.shards| && ValidKey(key) && IsWord(key) && |value| <= MAX_INT
    requires ReadCrlfLine(Run(env, sv, true, Print(Set(key, 0, value)) + (Print(Get(key)) + rest)).1)
          == Scanned(Ascii("STORED"), tail)
    ensures DecodeGet(tail, key).Found? && DecodeGet(tail, key).value == value
  {
    var sv1 := SetTurn(env, sv, key, value, Print(Get(key)) + rest, tail);
    StoredIsRead(env.limits, sv.store, key, value, 0, env.clock(sv.ticks), env.clock(sv1.ticks), sv1.store);
    GetDecodes(env, sv1, key, rest, Ask(env, Counted(sv1, GET), Cache.Get(key)).1);
  }

  /**
   * End to end on one connection: once the client has read STORED for its
   * `set`, its next `get` finds a value if and only if the key holds no white
   * space, and then exactly the bytes that were sent, whatever is sent afterwards.
   */
  lemma EndToEnd(env: Env, sv: Server, key: Key, value: Bytes, rest: Bytes, tail: Bytes)
    requires 0 < |sv.store.shards| && ValidKey(key) && |value| <= MAX_INT
    requires ReadCrlfLine(Run(env, sv, true, Print(Set(key, 0, value)) + (Print(Get(key)) + rest)).1)
          == Scanned(Ascii("STORED"), tail)
    ensures DecodeGet(tail, key).Found? <==> IsWord(key)
    ensures DecodeGet(tail, key).Found? ==> DecodeGet(tail, key).value == value
  {
    if IsWord(key) {
      CleanEndToEnd(env, sv, key, value, rest, tail);
    } else if DecodeGet(tail, key).Found? {
      DecodedIsWord(tail, key);
    }
  }

  /** The answers on a connection to a `set` that is misread and a `get` that is refused. */
  lemma SplitKeyAnswers(env: Env, sv: Server, value: Bytes, rest: Bytes)
    requires 0 < |sv.store.shards| && |value| <= MAX_INT
    requires Ask(env, Counted(sv, SET), Cache.Set([97], value, 7 * NANOS)).1 == Cache.Stored
    ensures Run(env, sv, true, Print(Set(SPLIT_KEY, 0, value)) + (Print(Get(SPLIT_KEY)) + rest)).1
         == Text("STORED") + Text("CLIENT_ERROR bad command")
  {
    var more := Print(Get(SPLIT_KEY)) + rest;
    SplitKeyIsMisread(value, more);
    SplitKeyIsMisread(value, rest);
  }

  /**
   * That is the concrete failure: with the key `a`, no-break space, `7` the
   * client reads STORED, although the value went to the key `a`, and its next
   * `get` is a broken answer.
   */
  lemma SplitKeyFails(env: Env, sv: Server, value: Bytes, rest: Bytes, out: Bytes)
    requires 0 < |sv.store.shards| && |value| <= MAX_INT
    requires Ask(env, Counted(sv, SET), Cache.Set([97], value, 7 * NANOS)).1 == Cache.Stored
    requires out == Run(env, sv, true, Print(Set(SPLIT_KEY, 0, value)) + (Print(Get(SPLIT_KEY)) + rest)).1
    ensures ReadCrlfLine(out).Scanned? && ReadCrlfLine(out).line == Ascii("STORED")
    ensures DecodeGet(ReadCrlfLine(out).rest, SPLIT_KEY) == Broken
  {
    SplitKeyAnswers(env, sv, value, rest);
    AnswerLine(Cache.Stored, Text("CLIENT_ERROR bad command"));
    BadCommandIsBroken(SPLIT_KEY);
  }

  lemma BadCommandIsBroken(key: Key)
    ensures DecodeGet(Text("CLIENT_ERROR bad command"), key) == Broken
  {
    var line := Ascii("CLIENT_ERROR bad command");
    assert LF !in line && line != Ascii("END");
    assert line + CRLF + [] == Text("CLIENT_ERROR bad command");
    ReadCrlfLineOf(line, []);
    var first, more := Ascii("CLIENT_ERROR"), Ascii("bad command");
    assert line == first + ([SPACE] + more);
    PrintableIsWord(first);
    NextField(first, [SPACE], more);
    assert |first| != |Ascii("VALUE")|;
  }
}
