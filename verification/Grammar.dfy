/** The grammar of requests: exactly which bytes are which command. */
module Grammar {
  import opened Types
  import opened Decimal
  import opened Wire
  import opened Protocol
  import opened Framing
  import opened Spelling

  ghost predicate IsNumber(token: Bytes, n: nat) {
    IsDecimal(token) && Value(token) == n
  }

  /** The words after the verb stand for the parts of the command; numbers may have leading zeros. */
  ghost predicate SpellsArguments(args: seq<Bytes>, c: Command) {
    match c
    case Ping => args == []
    case Stats => args == []
    case Auth(token) => args == [token]
    case Get(key) => args == [key]
    case Delete(key) => args == [key]
    case Incr(key, delta) => |args| == 2 && args[0] == key && IsNumber(args[1], delta)
    case Mget(keys) => args == keys
    case Gets(keys) => args == keys
    case Set(key, ttl, value) =>
      || (|args| == 2 && ttl == 0 && args[0] == key && IsNumber(args[1], |value|))
      || (|args| == 3 && args[0] == key && IsNumber(args[1], ttl) && IsNumber(args[2], |value|))
    case Cas(key, ttl, version, value) =>
      || (|args| == 3 && ttl == 0 && args[0] == key && IsNumber(args[1], version) && IsNumber(args[2], |value|))
      || (|args| == 4 && args[0] == key && IsNumber(args[1], ttl) && IsNumber(args[2], version)
          && IsNumber(args[3], |value|))
  }

  // ----- arguments

  lemma NumberIsToken(token: Bytes, n: nat)
    ensures ParseUintToken(token) == Some(n) <==> IsNumber(token, n) && n < 0x1_0000_0000_0000_0000
    ensures ParseByteCount(token) == Some(n) <==> IsNumber(token, n) && n < 0x8000_0000_0000_0000
  {
  }

  /** A value block is taken if and only if it is there and CRLF follows it. */
  lemma BlockIsTaken(size: nat, s: Bytes, value: Bytes, tail: Bytes)
    ensures TakeValue(size, s) == Some(value) && s[size + 2..] == tail <==> |value| == size && s == value + CRLF + tail
  {
    if TakeValue(size, s) == Some(value) && s[size + 2..] == tail {
      assert s == s[..size] + s[size..size + 2] + s[size + 2..];
    }
    if |value| == size && s == value + CRLF + tail {
      ValueIsTaken(value, tail);
    }
  }

  lemma SetIsExact(args: seq<Bytes>, s: Bytes, c: Command, tail: Bytes)
    requires c.Set?
    ensures InterpretAs(SET, args, s) == Ok(c, tail) <==>
      SpellsArguments(args, c) && Sendable(c) && s == c.value + CRLF + tail
  {
    BlockIsTaken(|c.value|, s, c.value, tail);
    if |args| == 2 || |args| == 3 {
      NumberIsToken(args[1], c.ttl);
      NumberIsToken(args[|args| - 1], |c.value|);
    }
  }

  lemma CasIsExact(args: seq<Bytes>, s: Bytes, c: Command, tail: Bytes)
    requires c.Cas?
    ensures InterpretAs(CAS, args, s) == Ok(c, tail) <==>
      SpellsArguments(args, c) && Sendable(c) && s == c.value + CRLF + tail
  {
    BlockIsTaken(|c.value|, s, c.value, tail);
    if |args| == 3 || |args| == 4 {
      NumberIsToken(args[1], c.ttl);
      NumberIsToken(args[|args| - 2], c.version);
      NumberIsToken(args[|args| - 1], |c.value|);
    }
  }

  /** A verb's arguments and what follows the line are a command if and only if they spell it. */
  lemma ArgumentsAreExact(args: seq<Bytes>, s: Bytes, c: Command, tail: Bytes)
    ensures InterpretAs(VerbFor(c), args, s) == Ok(c, tail) <==>
      SpellsArguments(args, c) && Sendable(c) && s == Payload(c) + tail
  {
    if c.Set? {
      SetIsExact(args, s, c, tail);
    } else if c.Cas? {
      CasIsExact(args, s, c, tail);
    } else {
      assert Payload(c) + tail == tail;
      if c.Incr? && |args| == 2 {
        NumberIsToken(args[1], c.delta);
      }
    }
  }

  lemma VerbIsKept(verb: Verb, args: seq<Bytes>, s: Bytes)
    requires InterpretAs(verb, args, s).Ok?
    ensures VerbFor(InterpretAs(verb, args, s).command) == verb
  {
  }

  lemma WordsAreExact(words: seq<Bytes>, s: Bytes, c: Command, tail: Bytes)
    ensures Interpret(words, s) == Ok(c, tail) <==>
      && words != [] && Spells(words[0], Name(VerbFor(c))) && SpellsArguments(words[1..], c)
      && Sendable(c) && s == Payload(c) + tail
  {
    if words != [] {
      VerbOfIsSpelling(words[0], VerbFor(c));
      ArgumentsAreExact(words[1..], s, c, tail);
      if Interpret(words, s) == Ok(c, tail) {
        VerbIsKept(VerbOf(words[0]).value, words[1..], s);
      }
    }
  }

  // ----- streams

  /** The stream begins with a line of at most 4096 bytes that spells the command, and its payload. */
  ghost predicate Denotes(s: Bytes, line: Bytes, c: Command, tail: Bytes) {
    && LF !in line && |line| + 2 <= 4096 && s == line + CRLF + (Payload(c) + tail)
    && var words := Fields(line);
       words != [] && Spells(words[0], Name(VerbFor(c))) && SpellsArguments(words[1..], c) && Sendable(c)
  }

  lemma LineIsRead(s: Bytes)
    requires Parse(s).Ok?
    ensures ReadSlice(s).Line? && |ReadSlice(s).text| >= 2
    ensures var text := ReadSlice(s).text; var line := text[..|text| - 2];
      && LF !in line && |line| + 2 <= 4096 && s == line + CRLF + ReadSlice(s).rest
      && Parse(s) == Interpret(Fields(line), ReadSlice(s).rest)
  {
    var text, rest := ReadSlice(s).text, ReadSlice(s).rest;
    var line := text[..|text| - 2];
    assert line == s[..IndexOf(s, LF)][..|line|];
    assert text == line + [text[|text| - 2], text[|text| - 1]];
    assert s == text + rest;
  }

  /**
   * Exactly which streams the parser takes for which command, and what it leaves:
   * every other line, however it goes wrong, is refused.
   */
  lemma ParseIsExact(s: Bytes, c: Command, tail: Bytes)
    ensures Parse(s) == Ok(c, tail) <==> exists line :: Denotes(s, line, c, tail)
  {
    if Parse(s) == Ok(c, tail) {
      LineIsRead(s);
      var text := ReadSlice(s).text;
      var line := text[..|text| - 2];
      WordsAreExact(Fields(line), ReadSlice(s).rest, c, tail);
      assert Denotes(s, line, c, tail);
    }
    if line :| Denotes(s, line, c, tail) {
      LineIsInterpreted(line, Payload(c) + tail);
      WordsAreExact(Fields(line), Payload(c) + tail, c, tail);
    }
  }

  /** The stream is at its end if and only if it holds no line feed and has not filled the buffer. */
  lemma EndIsExact(s: Bytes)
    ensures Parse(s) == End <==> |s| < 4096 && LF !in s
  {
    var i := IndexOf(s, LF);
    assert i == |s| ==> s[..i] == s;
  }

  /** A line without a carriage return before its line feed is refused. */
  lemma LineNeedsCarriageReturn(line: Bytes, rest: Bytes)
    requires LF !in line && (line == [] || line[|line| - 1] != CR) && |line| < 4096
    ensures Parse(line + [LF] + rest) == Bad
  {
    var s := line + [LF] + rest;
    assert s[..|line|] == line;
    IndexOfIs(s, LF, |line|);
  }

  /** A verb with the wrong number of arguments is refused. */
  lemma ArityIsChecked(verb: Verb, args: seq<Bytes>, s: Bytes)
    requires match verb
      case PING => |args| != 0
      case STATS => |args| != 0
      case AUTH => |args| != 1
      case GET => |args| != 1
      case DELETE => |args| != 1
      case INCR => |args| != 2
      case SET => |args| != 2 && |args| != 3
      case CAS => |args| != 3 && |args| != 4
      case MGET => args == []
      case GETS => args == []
    ensures InterpretAs(verb, args, s) == Bad
  {
  }

  /** However its verb is spelled, a printed command is parsed back. */
  lemma RespelledRoundTrip(w: Bytes, c: Command, rest: Bytes)
    requires Sendable(c) && Clean(c) && IsWord(w) && Spells(w, Name(VerbFor(c)))
    requires |Join([w] + Arguments(c))| + 2 <= 4096
    ensures Parse(Join([w] + Arguments(c)) + CRLF + (Payload(c) + rest)) == Ok(c, rest)
  {
    var words := [w] + Arguments(c);
    ArgumentsAreWords(c);
    FieldsOfWords(words);
    assert words[1..] == Arguments(c);
    RespelledLine(w, c);
    LineIsInterpreted(Join(words), Payload(c) + rest);
    VerbOfIsSpelling(w, VerbFor(c));
    ArgumentsAreUnderstood(c, rest);
  }

  lemma RespelledLine(w: Bytes, c: Command)
    requires Sendable(c) && Clean(c) && IsWord(w)
    ensures LF !in Join([w] + Arguments(c))
  {
    ArgumentsAreWords(c);
    forall word | IsWord(word) ensures LF !in word { WordHasNoLineFeed(word); }
    JoinHasNoLineFeed([w] + Arguments(c));
  }

  lemma WordHasNoLineFeed(w: Bytes)
    requires IsWord(w)
    ensures LF !in w
  {
    forall i | 0 <= i < |w| ensures w[i] != LF {
      assert !SpaceAt(w, i);
    }
  }
}
