/** Requests: what the parser makes of a byte stream, and how requests are printed. */
module Protocol {
  import opened Types
  import opened Decimal
  import opened Wire

  datatype Verb = PING | AUTH | GET | SET | DELETE | INCR | STATS | MGET | GETS | CAS

  datatype Command =
    | Ping
    | Auth(token: Bytes)
    | Get(key: Key)
    | Set(key: Key, ttl: nat, value: Bytes)
    | Delete(key: Key)
    | Incr(key: Key, delta: nat)
    | Stats
    | Mget(keys: seq<Key>)
    | Gets(keys: seq<Key>)
    | Cas(key: Key, ttl: nat, version: nat, value: Bytes)

  /** One call of `ReadCommand`: a command and the bytes after it, the end of the stream, or a protocol error. */
  datatype Parsed = Ok(command: Command, rest: Bytes) | End | Bad

  function Name(v: Verb): Bytes {
    match v
    case PING => Ascii("ping")
    case AUTH => Ascii("auth")
    case GET => Ascii("get")
    case SET => Ascii("set")
    case DELETE => Ascii("delete")
    case INCR => Ascii("incr")
    case STATS => Ascii("stats")
    case MGET => Ascii("mget")
    case GETS => Ascii("gets")
    case CAS => Ascii("cas")
  }

  function VerbFor(c: Command): Verb {
    match c
    case Ping => PING
    case Auth(_) => AUTH
    case Get(_) => GET
    case Set(_, _, _) => SET
    case Delete(_) => DELETE
    case Incr(_, _) => INCR
    case Stats => STATS
    case Mget(_) => MGET
    case Gets(_) => GETS
    case Cas(_, _, _, _) => CAS
  }

  /**
   * `strings.ToLower` as far as verbs can tell. One letter outside ASCII has an
   * ASCII lower case that occurs in a verb: U+0130, the capital I with a dot.
   * All other letters outside ASCII stay outside.
   */
  function Lower(w: Bytes): Bytes
    decreases |w|
  {
    if w == [] then []
    else if |w| >= 2 && w[0] == 0xC4 && w[1] == 0xB0 then [105] + Lower(w[2..])
    else [if 65 <= w[0] <= 90 then w[0] + 32 else w[0]] + Lower(w[1..])
  }

  /** Verbs are recognised in any case. */
  function VerbOf(w: Bytes): Option<Verb> {
    var l := Lower(w);
    if l == Name(PING) then Some(PING)
    else if l == Name(AUTH) then Some(AUTH)
    else if l == Name(GET) then Some(GET)
    else if l == Name(SET) then Some(SET)
    else if l == Name(DELETE) then Some(DELETE)
    else if l == Name(INCR) then Some(INCR)
    else if l == Name(STATS) then Some(STATS)
    else if l == Name(MGET) then Some(MGET)
    else if l == Name(GETS) then Some(GETS)
    else if l == Name(CAS) then Some(CAS)
    else None
  }

  // ----- parsing

  /** The value block of `set` and `cas`: `size` bytes and CRLF. */
  function TakeValue(size: nat, s: Bytes): Option<Bytes> {
    if |s| < size + 2 || s[size..size + 2] != CRLF then None else Some(s[..size])
  }

  function ParseSet(key: Key, ttlToken: Option<Bytes>, sizeToken: Bytes, s: Bytes): Parsed {
    match (if ttlToken.Some? then ParseUintToken(ttlToken.value) else Some(0), ParseByteCount(sizeToken))
    case (Some(ttl), Some(size)) =>
      (match TakeValue(size, s)
       case Some(value) => Ok(Set(key, ttl, value), s[size + 2..])
       case None => Bad)
    case _ => Bad
  }

  function ParseCas(key: Key, ttlToken: Option<Bytes>, versionToken: Bytes, sizeToken: Bytes, s: Bytes): Parsed {
    var ttl := if ttlToken.Some? then ParseUintToken(ttlToken.value) else Some(0);
    match (ttl, ParseUintToken(versionToken), ParseByteCount(sizeToken))
    case (Some(ttl), Some(version), Some(size)) =>
      (match TakeValue(size, s)
       case Some(value) => Ok(Cas(key, ttl, version, value), s[size + 2..])
       case None => Bad)
    case _ => Bad
  }

  predicate ValidKeys(keys: seq<Key>) {
    keys != [] && forall i :: 0 <= i < |keys| ==> ValidKey(keys[i])
  }

  /** What a verb, its arguments and the bytes after the line amount to. */
  function InterpretAs(verb: Verb, args: seq<Bytes>, s: Bytes): Parsed {
    var n := |args|;
    match verb
    case PING => if n != 0 then Bad else Ok(Ping, s)
    case AUTH => if n != 1 || !ValidKey(args[0]) then Bad else Ok(Auth(args[0]), s)
    case GET => if n != 1 || !ValidKey(args[0]) then Bad else Ok(Get(args[0]), s)
    case SET =>
      if (n != 2 && n != 3) || !ValidKey(args[0]) then Bad
      else if n == 2 then ParseSet(args[0], None, args[1], s)
      else ParseSet(args[0], Some(args[1]), args[2], s)
    case DELETE => if n != 1 || !ValidKey(args[0]) then Bad else Ok(Delete(args[0]), s)
    case INCR =>
      if n != 2 || !ValidKey(args[0]) then Bad
      else (match ParseUintToken(args[1]) case None => Bad case Some(delta) => Ok(Incr(args[0], delta), s))
    case STATS => if n != 0 then Bad else Ok(Stats, s)
    case MGET => if !ValidKeys(args) then Bad else Ok(Mget(args), s)
    case GETS => if !ValidKeys(args) then Bad else Ok(Gets(args), s)
    case CAS =>
      if (n != 3 && n != 4) || !ValidKey(args[0]) then Bad
      else if n == 3 then ParseCas(args[0], None, args[1], args[2], s)
      else ParseCas(args[0], Some(args[1]), args[2], args[3], s)
  }

  /** What the words of a command line, and the bytes after it, amount to. */
  function Interpret(words: seq<Bytes>, s: Bytes): Parsed {
    if words == [] then Bad
    else
      match VerbOf(words[0])
      case None => Bad
      case Some(verb) => InterpretAs(verb, words[1..], s)
  }

  function Parse(s: Bytes): Parsed {
    match ReadSlice(s)
    case Eof => End
    case TooLong => Bad
    case Line(text, rest) =>
      if |text| < 2 || text[|text| - 2] != CR then Bad else Interpret(Fields(text[..|text| - 2]), rest)
  }

  /** Reading a command consumes something. */
  lemma ParseConsumes(s: Bytes)
    requires Parse(s).Ok?
    ensures |Parse(s).rest| < |s|
  {
  }

  // ----- printing

  /** The words after the verb; a zero TTL is left out, as the client does. */
  function Arguments(c: Command): seq<Bytes> {
    match c
    case Ping => []
    case Stats => []
    case Auth(token) => [token]
    case Get(key) => [key]
    case Set(key, ttl, value) =>
      if ttl == 0 then [key, Format(|value|)] else [key, Format(ttl), Format(|value|)]
    case Delete(key) => [key]
    case Incr(key, delta) => [key, Format(delta)]
    case Mget(keys) => keys
    case Gets(keys) => keys
    case Cas(key, ttl, version, value) =>
      if ttl == 0 then [key, Format(version), Format(|value|)]
      else [key, Format(ttl), Format(version), Format(|value|)]
  }

  /** The words of the command line. */
  function Header(c: Command): seq<Bytes> {
    [Name(VerbFor(c))] + Arguments(c)
  }

  function Payload(c: Command): Bytes {
    if c.Set? || c.Cas? then c.value + CRLF else []
  }

  function Print(c: Command): Bytes {
    Join(Header(c)) + CRLF + Payload(c)
  }

  /** What a client may try to send: valid keys, 64-bit numbers, values of an addressable size. */
  ghost predicate Sendable(c: Command) {
    match c
    case Ping => true
    case Stats => true
    case Auth(token) => ValidKey(token)
    case Get(key) => ValidKey(key)
    case Set(key, ttl, value) => ValidKey(key) && ttl <= MAX_UINT64 && |value| <= MAX_INT
    case Delete(key) => ValidKey(key)
    case Incr(key, delta) => ValidKey(key) && delta <= MAX_UINT64
    case Mget(keys) => ValidKeys(keys)
    case Gets(keys) => ValidKeys(keys)
    case Cas(key, ttl, version, value) =>
      ValidKey(key) && ttl <= MAX_UINT64 && version <= MAX_UINT64 && |value| <= MAX_INT
  }

  /** The keys and the token in a command. */
  function Names(c: Command): seq<Bytes> {
    match c
    case Ping => []
    case Stats => []
    case Auth(token) => [token]
    case Get(key) => [key]
    case Set(key, _, _) => [key]
    case Delete(key) => [key]
    case Incr(key, _) => [key]
    case Mget(keys) => keys
    case Gets(keys) => keys
    case Cas(key, _, _, _) => [key]
  }

  /** A command line keeps its names apart only if none of them holds white space, which valid keys may. */
  ghost predicate Clean(c: Command) {
    AllWords(Names(c))
  }
}
