/** The command parser as it runs: it consumes a reader in place. */
module ParserImpl {
  import opened Types
  import opened Decimal
  import opened Wire
  import opened Protocol

  datatype Slice = Slice(text: Bytes) | BufferFull | AtEnd

  lemma {:induction false} NoLineFeedBefore(s: Bytes, i: nat)
    requires i <= |s| && LF !in s[..i]
    ensures IndexOf(s, LF) >= i
  {
    if i > 0 {
      assert s[..i] == [s[0]] + s[1..][..i - 1];
      NoLineFeedBefore(s[1..], i - 1);
    }
  }

  /** A buffered reader; `data` is what has not been consumed yet. */
  class Reader {
    var data: Bytes

    constructor (bytes: Bytes)
      ensures data == bytes
    {
      data := bytes;
    }

    /**
     * Reads through the next line feed, which must come within the buffer. The
     * line is the shortest stretch of the stream that ends in one.
     */
    method ReadSlice() returns (r: Slice)
      modifies this
      ensures match Wire.ReadSlice(old(data))
        case Line(text, rest) => r == Slice(text) && data == rest
        case TooLong => r == BufferFull
        case Eof => r == AtEnd
      ensures r.Slice? ==> old(data) == r.text + data && 0 < |r.text| <= 4096
      ensures r.Slice? ==> r.text[|r.text| - 1] == LF && LF !in r.text[..|r.text| - 1]
      ensures r == BufferFull <==> |old(data)| >= 4096 && LF !in old(data)[..4096]
      ensures r == AtEnd <==> |old(data)| < 4096 && LF !in old(data)
    {
      var i := 0;
      while i < |data| && i < LINE_BUFFER && data[i] != LF
        invariant i <= |data| && i <= LINE_BUFFER && LF !in data[..i]
      {
        i := i + 1;
      }
      NoLineFeedBefore(data, i);
      if i == LINE_BUFFER {
        return BufferFull;
      }
      if i == |data| {
        assert data[..i] == data;
        return AtEnd;
      }
      IndexOfIs(data, LF, i);
      r := Slice(data[..i + 1]);
      data := data[i + 1..];
    }

    /** Fills a buffer of `n` bytes, or fails having consumed everything. */
    method ReadFull(n: nat) returns (block: Option<Bytes>)
      modifies this
      ensures block.None? <==> |old(data)| < n
      ensures block.Some? ==> old(data) == block.value + data && |block.value| == n
      ensures block.None? ==> data == []
    {
      if |data| < n {
        data := [];
        return None;
      }
      block := Some(data[..n]);
      data := data[n..];
    }

    /** The block of a value: its bytes and a CRLF that must be there. */
    method ReadValue(size: nat) returns (value: Option<Bytes>)
      modifies this
      ensures value == TakeValue(size, old(data))
      ensures value.Some? ==> data == old(data)[size + 2..]
    {
      var block := ReadFull(size + 2);
      if block.None? {
        return None;
      }
      assert old(data)[size..size + 2] == [block.value[size], block.value[size + 1]];
      assert old(data)[..size] == block.value[..size];
      if block.value[size] != CR || block.value[size + 1] != LF {
        return None;
      }
      return Some(block.value[..size]);
    }
  }

  // ----- scans

  /** `validKey`, byte by byte. */
  method ScanKey(key: Bytes) returns (ok: bool)
    ensures ok <==> ValidKey(key)
    ensures ok <==> 1 <= |key| <= 250 && forall i :: 0 <= i < |key| ==> key[i] > 32 && key[i] != 127
  {
    if key == [] || |key| > MAX_KEY_BYTES {
      return false;
    }
    for i := 0 to |key|
      invariant forall j :: 0 <= j < i ==> key[j] > SPACE && key[j] != 127
    {
      if key[i] <= SPACE || key[i] == 127 {
        return false;
      }
    }
    return true;
  }

  /** `n` arguments, the first of which is a key. */
  method HasKey(args: seq<Bytes>, n: nat) returns (ok: bool)
    requires n >= 1
    ensures ok <==> |args| == n && ValidKey(args[0])
  {
    if |args| != n {
      return false;
    }
    ok := ScanKey(args[0]);
  }

  /** `keysFromFields`: all the words after the verb, if there are any and all are valid keys. */
  method KeysFromFields(fields: seq<Bytes>) returns (keys: Option<seq<Key>>)
    ensures keys == if ValidKeys(fields) then Some(fields) else None
  {
    if fields == [] {
      return None;
    }
    for i := 0 to |fields|
      invariant forall j :: 0 <= j < i ==> ValidKey(fields[j])
    {
      var ok := ScanKey(fields[i]);
      if !ok {
        return None;
      }
    }
    return Some(fields);
  }

  /** `parseUintToken`: digits only, then a number of 64 bits. */
  method ScanUintToken(token: Bytes) returns (n: Option<nat>)
    ensures n == ParseUintToken(token)
    ensures n == if IsDecimal(token) && Value(token) < 0x1_0000_0000_0000_0000 then Some(Value(token)) else None
  {
    var ok := ScanDecimal(token);
    n := if ok then ParseUint(token) else None;
  }

  method ScanByteCount(token: Bytes) returns (n: Option<nat>)
    ensures n == ParseByteCount(token)
    ensures n == if IsDecimal(token) && Value(token) < 0x8000_0000_0000_0000 then Some(Value(token)) else None
  {
    n := ScanUintToken(token);
    if n.Some? && n.value > MAX_INT {
      n := None;
    }
  }

  // ----- commands

  datatype Received = Received(command: Command) | Closed | Refused

  /** What a call returned and left in the reader is what the parse says; after an error nothing more is read. */
  predicate Agrees(p: Parsed, r: Received, data: Bytes) {
    match p
    case Ok(c, rest) => r == Received(c) && data == rest
    case End => r == Closed
    case Bad => r == Refused
  }

  class Parser {
    const reader: Reader

    constructor (reader: Reader)
      ensures this.reader == reader
    {
      this.reader := reader;
    }

    method ReadSet(args: seq<Bytes>) returns (r: Received)
      modifies reader
      ensures Agrees(InterpretAs(SET, args, old(reader.data)), r, reader.data)
    {
      if |args| != 2 && |args| != 3 {
        return Refused;
      }
      var ok := ScanKey(args[0]);
      if !ok {
        return Refused;
      }
      var ttl, sizeToken := Some(0), args[1];
      if |args| == 3 {
        ttl := ScanUintToken(args[1]);
        if ttl.None? {
          return Refused;
        }
        sizeToken := args[2];
      }
      var size := ScanByteCount(sizeToken);
      if size.None? {
        return Refused;
      }
      var value := reader.ReadValue(size.value);
      return if value.Some? then Received(Set(args[0], ttl.value, value.value)) else Refused;
    }

    method ReadCas(args: seq<Bytes>) returns (r: Received)
      modifies reader
      ensures Agrees(InterpretAs(CAS, args, old(reader.data)), r, reader.data)
    {
      if |args| != 3 && |args| != 4 {
        return Refused;
      }
      var ok := ScanKey(args[0]);
      if !ok {
        return Refused;
      }
      var ttl, versionToken, sizeToken := Some(0), args[1], args[2];
      if |args| == 4 {
        ttl := ScanUintToken(args[1]);
        if ttl.None? {
          return Refused;
        }
        versionToken, sizeToken := args[2], args[3];
      }
      var version := ScanUintToken(versionToken);
      if version.None? {
        return Refused;
      }
      var size := ScanByteCount(sizeToken);
      if size.None? {
        return Refused;
      }
      var value := reader.ReadValue(size.value);
      return if value.Some? then Received(Cas(args[0], ttl.value, version.value, value.value)) else Refused;
    }

    /** The command a line stands for; only `set` and `cas` read on. */
    method ReadRest(fields: seq<Bytes>) returns (r: Received)
      modifies reader
      ensures Agrees(Interpret(fields, old(reader.data)), r, reader.data)
    {
      if fields == [] {
        return Refused;
      }
      var args := fields[1..];
      match VerbOf(fields[0]) {
        case None => return Refused;
        case Some(PING) => return if args == [] then Received(Ping) else Refused;
        case Some(AUTH) =>
          var ok := HasKey(args, 1);
          return if ok then Received(Auth(args[0])) else Refused;
        case Some(GET) =>
          var ok := HasKey(args, 1);
          return if ok then Received(Get(args[0])) else Refused;
        case Some(SET) => r := ReadSet(args);
        case Some(DELETE) =>
          var ok := HasKey(args, 1);
          return if ok then Received(Delete(args[0])) else Refused;
        case Some(INCR) =>
          var ok := HasKey(args, 2);
          if !ok {
            return Refused;
          }
          var delta := ScanUintToken(args[1]);
          return if delta.Some? then Received(Incr(args[0], delta.value)) else Refused;
        case Some(STATS) => return if args == [] then Received(Stats) else Refused;
        case Some(MGET) =>
          var keys := KeysFromFields(args);
          return if keys.Some? then Received(Mget(keys.value)) else Refused;
        case Some(GETS) =>
          var keys := KeysFromFields(args);
          return if keys.Some? then Received(Gets(keys.value)) else Refused;
        case Some(CAS) => r := ReadCas(args);
      }
    }

    method ReadCommand() returns (r: Received)
      modifies reader
      ensures Agrees(Parse(old(reader.data)), r, reader.data)
    {
      var line := reader.ReadSlice();
      match line {
        case AtEnd => return Closed;
        case BufferFull => return Refused;
        case Slice(text) =>
          if |text| < 2 || text[|text| - 2] != CR {
            return Refused;
          }
          r := ReadRest(Fields(text[..|text| - 2]));
      }
    }
  }
}
