/** The MiniKV client as it runs: it writes requests and consumes a reader of answers. */
module ClientImpl {
  import opened Types
  import opened Decimal
  import opened Wire
  import opened Protocol
  import opened Client
  import opened ParserImpl

  datatype Outcome = Value(value: Bytes) | Absent | Failure

  /** What a read returned and left in the reader is what the decoding says; after an error nothing more is read. */
  predicate Matches(f: Fetched, r: Outcome, data: Bytes) {
    match f
    case Found(value, rest) => r == Outcome.Value(value) && data == rest
    case Missing(rest) => r == Absent && data == rest
    case Broken => r == Failure
  }

  class MiniKvClient {
    const reader: Reader   // what the server answers
    var sent: Bytes        // what has been written to the server

    constructor (reader: Reader)
      ensures this.reader == reader && sent == []
    {
      this.reader := reader;
      sent := [];
    }

    /** `readCRLFLine`. */
    method ReadLine() returns (line: Option<Bytes>)
      modifies reader
      ensures match ReadCrlfLine(old(reader.data))
        case Scanned(text, rest) => line == Some(text) && reader.data == rest
        case Torn => line == None
    {
      var data := reader.data;
      var i := IndexOf(data, LF);
      if i == |data| {
        reader.data := [];
        return None;
      }
      reader.data := data[i + 1..];
      if i == 0 || data[i - 1] != CR {
        return None;
      }
      return Some(data[..i - 1]);
    }

    /** `readMiniKVGet`. */
    method ReadGet(key: Key) returns (r: Outcome)
      modifies reader
      ensures Matches(DecodeGet(old(reader.data), key), r, reader.data)
    {
      var line := ReadLine();
      if line.None? {
        return Failure;
      }
      if line.value == Ascii("END") {
        return Absent;
      }
      var fields := Fields(line.value);
      if |fields| != 3 || fields[0] != Ascii("VALUE") || fields[1] != key {
        return Failure;
      }
      var size := Atoi(fields[2]);
      if size.None? || size.value < 0 {
        return Failure;
      }
      var value := reader.ReadValue(size.value);
      if value.None? {
        return Failure;
      }
      var end := ReadLine();
      if end != Some(Ascii("END")) {
        return Failure;
      }
      return Outcome.Value(value.value);
    }

    /** `Get`: one line out, one answer in. */
    method Get(key: Key) returns (r: Outcome)
      modifies this, reader
      ensures sent == old(sent) + Print(Protocol.Get(key))
      ensures Matches(DecodeGet(old(reader.data), key), r, reader.data)
    {
      GetText(key);
      sent := sent + (Ascii("get") + [SPACE] + key + CRLF);
      r := ReadGet(key);
    }

    /** `Set`: a line and a value block out, one line in. */
    method Set(key: Key, value: Bytes) returns (ok: bool)
      modifies this, reader
      ensures sent == old(sent) + Print(Protocol.Set(key, 0, value))
      ensures ok <==> ReadCrlfLine(old(reader.data)) == Scanned(Ascii("STORED"), reader.data)
    {
      SetText(key, value);
      sent := sent + (SetLine(key, |value|) + CRLF + (value + CRLF));
      var line := ReadLine();
      ok := line == Some(Ascii("STORED"));
    }
  }

  // ----- the text of requests

  function SetLine(key: Key, size: nat): Bytes {
    Ascii("set") + [SPACE] + key + [SPACE] + Format(size)
  }

  lemma GetText(key: Key)
    ensures Print(Protocol.Get(key)) == Ascii("get") + [SPACE] + key + CRLF
  {
    JoinTwo(Ascii("get"), key);
    assert forall s: Bytes :: s + CRLF + [] == s + CRLF;
  }

  lemma SetText(key: Key, value: Bytes)
    ensures Print(Protocol.Set(key, 0, value)) == SetLine(key, |value|) + CRLF + (value + CRLF)
  {
    assert Header(Protocol.Set(key, 0, value)) == [Ascii("set"), key, Format(|value|)];
    JoinThree(Ascii("set"), key, Format(|value|));
  }
}
