/** Requests survive the wire: printing and parsing are inverse, also back to back. */
module Framing {
  import opened Types
  import opened Sequences
  import opened Decimal
  import opened Wire
  import opened Protocol

  /** Names differ in length or first letter. */
  function Shape(v: Verb): (nat, char) {
    match v
    case PING => (4, 'p')
    case AUTH => (4, 'a')
    case GET => (3, 'g')
    case SET => (3, 's')
    case DELETE => (6, 'd')
    case INCR => (4, 'i')
    case STATS => (5, 's')
    case MGET => (4, 'm')
    case GETS => (4, 'g')
    case CAS => (3, 'c')
  }

  lemma NameShape(v: Verb)
    ensures |Name(v)| == Shape(v).0 && Name(v)[0] == Shape(v).1 as int
    ensures forall i :: 0 <= i < |Name(v)| ==> 97 <= Name(v)[i] <= 122
  {
  }

  lemma NamesDiffer(v: Verb, w: Verb)
    requires Name(v) == Name(w)
    ensures v == w
  {
    NameShape(v);
    NameShape(w);
  }

  lemma {:induction false} LowerIsLower(w: Bytes)
    requires forall i :: 0 <= i < |w| ==> 97 <= w[i] <= 122
    ensures Lower(w) == w
  {
    if w != [] {
      LowerIsLower(w[1..]);
    }
  }

  lemma NameLaws(v: Verb)
    ensures VerbOf(Name(v)) == Some(v) && IsWord(Name(v)) && |Name(v)| <= 6
  {
    NameShape(v);
    LowerIsLower(Name(v));
    AnyLower(Name(v), v);
    PrintableIsWord(Name(v));
  }

  /** Whatever lower-cases to a verb is recognised. */
  lemma AnyLower(w: Bytes, v: Verb)
    requires Lower(w) == Name(v)
    ensures VerbOf(w) == Some(v)
  {
    forall x: Verb | Lower(w) == Name(x) ensures x == v { NamesDiffer(x, v); }
    assert Lower(w) == Name(v);
  }

  /** A printed number stands for itself and fits into a line. */
  ghost predicate IsToken(n: nat) {
    var text := Format(n);
    ParseUintToken(text) == Some(n) && IsWord(text) && LF !in text && |text| <= 20
  }

  lemma NumbersAreWords(c: Command)
    requires Sendable(c)
    ensures c.Set? ==> IsToken(c.ttl) && IsToken(|c.value|)
    ensures c.Cas? ==> IsToken(c.ttl) && IsToken(c.version) && IsToken(|c.value|)
    ensures c.Incr? ==> IsToken(c.delta)
  {
    if c.Set? || c.Cas? {
      FormatIsToken(c.ttl);
      FormatIsToken(|c.value|);
    }
    if c.Cas? {
      FormatIsToken(c.version);
    }
    if c.Incr? {
      FormatIsToken(c.delta);
    }
  }

  lemma ArgumentsAreWords(c: Command)
    requires Sendable(c) && Clean(c)
    ensures AllWords(Arguments(c))
  {
    if !c.Mget? && !c.Gets? {
      NumbersAreWords(c);
      assert Names(c) != [] ==> IsWord(Names(c)[0]);
    }
  }

  lemma HeaderIsWords(c: Command)
    requires Sendable(c) && Clean(c)
    ensures AllWords(Header(c))
  {
    NameLaws(VerbFor(c));
    ArgumentsAreWords(c);
  }

  lemma HeaderHasNoLineFeed(c: Command)
    requires Sendable(c)
    ensures LF !in Join(Header(c))
  {
    NameShape(VerbFor(c));
    NumbersAreWords(c);
    JoinHasNoLineFeed(Header(c));
  }

  /** The value block is found again whatever bytes it holds, CRLF included. */
  lemma ValueIsTaken(value: Bytes, rest: Bytes)
    ensures TakeValue(|value|, value + CRLF + rest) == Some(value)
    ensures (value + CRLF + rest)[|value| + 2..] == rest
  {
    var s := value + CRLF + rest;
    assert s[|value|..|value| + 2] == CRLF;
    assert s[..|value|] == value;
  }

  lemma SetIsUnderstood(c: Command, rest: Bytes)
    requires Sendable(c) && c.Set?
    ensures InterpretAs(SET, Arguments(c), Payload(c) + rest) == Ok(c, rest)
  {
    NumbersAreWords(c);
    ValueIsTaken(c.value, rest);
  }

  lemma CasIsUnderstood(c: Command, rest: Bytes)
    requires Sendable(c) && c.Cas?
    ensures InterpretAs(CAS, Arguments(c), Payload(c) + rest) == Ok(c, rest)
  {
    NumbersAreWords(c);
    ValueIsTaken(c.value, rest);
  }

  lemma ArgumentsAreUnderstood(c: Command, rest: Bytes)
    requires Sendable(c)
    ensures InterpretAs(VerbFor(c), Arguments(c), Payload(c) + rest) == Ok(c, rest)
  {
    if c.Set? {
      SetIsUnderstood(c, rest);
    } else if c.Cas? {
      CasIsUnderstood(c, rest);
    } else {
      NumbersAreWords(c);
      assert Payload(c) + rest == rest;
    }
  }

  lemma HeaderIsUnderstood(c: Command, rest: Bytes)
    requires Sendable(c)
    ensures Interpret(Header(c), Payload(c) + rest) == Ok(c, rest)
  {
    NameLaws(VerbFor(c));
    assert Header(c)[1..] == Arguments(c);
    ArgumentsAreUnderstood(c, rest);
  }

  /** The length of the command line, CRLF included. */
  function LineLength(c: Command): nat {
    |Join(Header(c))| + 2
  }

  lemma JoinLength(words: seq<Bytes>)
    requires 1 <= |words| <= 5
    ensures |words| == 1 ==> |Join(words)| == |words[0]|
    ensures |words| == 2 ==> |Join(words)| == |words[0]| + 1 + |words[1]|
    ensures |words| == 3 ==> |Join(words)| == |words[0]| + 1 + |words[1]| + 1 + |words[2]|
    ensures |words| == 4 ==> |Join(words)| == |words[0]| + 1 + |words[1]| + 1 + |words[2]| + 1 + |words[3]|
    ensures |words| == 5 ==>
      |Join(words)| == |words[0]| + 1 + |words[1]| + 1 + |words[2]| + 1 + |words[3]| + 1 + |words[4]|
  {
    if |words| > 1 {
      JoinLength(words[1..]);
    }
  }

  /** Only `mget` and `gets` can outgrow the line buffer: every other line has at most 322 bytes. */
  lemma SingleKeyLinesFit(c: Command)
    requires Sendable(c) && !c.Mget? && !c.Gets?
    ensures LineLength(c) <= 322
  {
    NameLaws(VerbFor(c));
    NumbersAreWords(c);
    JoinLength(Header(c));
  }

  lemma InterpretIsClean(verb: Verb, args: seq<Bytes>, s: Bytes)
    requires AllWords(args) && InterpretAs(verb, args, s).Ok?
    ensures Clean(InterpretAs(verb, args, s).command)
  {
    var c := InterpretAs(verb, args, s).command;
    if c.Mget? || c.Gets? {
      assert Names(c) == args;
    } else {
      assert Names(c) == [] || Names(c) == [args[0]];
    }
  }

  /** Every name in a command that comes out of the parser is free of white space. */
  lemma ParsedIsClean(s: Bytes)
    requires Parse(s).Ok?
    ensures Clean(Parse(s).command)
  {
    var text, rest := ReadSlice(s).text, ReadSlice(s).rest;
    FieldsAreWords(text[..|text| - 2]);
    var words := Fields(text[..|text| - 2]);
    InterpretIsClean(VerbOf(words[0]).value, words[1..], rest);
  }

  lemma LineIsInterpreted(line: Bytes, rest: Bytes)
    requires LF !in line && |line| + 2 <= LINE_BUFFER
    ensures Parse(line + CRLF + rest) == Interpret(Fields(line), rest)
  {
    ReadSliceOf(line, rest);
    assert (line + CRLF)[..|line|] == line;
  }

  lemma LongLineIsRefused(line: Bytes, rest: Bytes)
    requires LF !in line && |line| + 2 > LINE_BUFFER
    ensures Parse(line + CRLF + rest) == Bad
  {
    var s := line + CRLF + rest;
    assert s[..|line| + 1] == line + [CR];
    IndexOfIs(s, LF, |line| + 1);
  }

  /** What the parser makes of a printed command is what it makes of the words of its line, if that fits. */
  lemma PrintedIsInterpreted(c: Command, rest: Bytes)
    requires Sendable(c)
    ensures Parse(Print(c) + rest) ==
      if LineLength(c) <= LINE_BUFFER then Interpret(Fields(Join(Header(c))), Payload(c) + rest) else Bad
  {
    var line := Join(Header(c));
    HeaderHasNoLineFeed(c);
    assert Print(c) + rest == line + CRLF + (Payload(c) + rest);
    if LineLength(c) <= LINE_BUFFER {
      LineIsInterpreted(line, Payload(c) + rest);
    } else {
      LongLineIsRefused(line, Payload(c) + rest);
    }
  }

  /** A clean command whose line fits is parsed back, with exactly the bytes that follow it left over. */
  lemma CleanRoundTrip(c: Command, rest: Bytes)
    requires Sendable(c) && Clean(c)
    ensures Parse(Print(c) + rest) == if LineLength(c) <= LINE_BUFFER then Ok(c, rest) else Bad
  {
    PrintedIsInterpreted(c, rest);
    HeaderIsWords(c);
    FieldsOfWords(Header(c));
    HeaderIsUnderstood(c, rest);
  }

  /**
   * Request framing, exactly: a command that the client prints is parsed back
   * if and only if no key or token in it holds white space and its line fits the
   * buffer. Otherwise nothing parses back to it, and a line that is too long is
   * a protocol error.
   */
  lemma RequestRoundTrip(c: Command, rest: Bytes)
    requires Sendable(c)
    ensures Parse(Print(c) + rest) == Ok(c, rest) <==> Clean(c) && LineLength(c) <= LINE_BUFFER
    ensures LineLength(c) > LINE_BUFFER ==> Parse(Print(c) + rest) == Bad
  {
    PrintedIsInterpreted(c, rest);
    if Clean(c) {
      CleanRoundTrip(c, rest);
    } else if Parse(Print(c) + rest).Ok? {
      ParsedIsClean(Print(c) + rest);
    }
  }

  // ----- pipelines

  function Concat(frames: seq<Bytes>): Bytes {
    if frames == [] then [] else frames[0] + Concat(frames[1..])
  }

  function PrintAll(cs: seq<Command>): Bytes {
    Concat(seq(|cs|, i requires 0 <= i < |cs| => Print(cs[i])))
  }

  /** A decoder that takes one item off each frame takes all items off their concatenation. */
  lemma {:induction false} DecodeFrames(
      decode: Bytes -> seq<Command>, frames: seq<Bytes>, cs: seq<Command>, rest: Bytes)
    requires |frames| == |cs|
    requires forall i, more {:trigger decode(frames[i] + more)} ::
      0 <= i < |frames| ==> decode(frames[i] + more) == [cs[i]] + decode(more)
    ensures decode(Concat(frames) + rest) == cs + decode(rest)
  {
    if frames == [] {
      assert Concat(frames) + rest == rest;
    } else {
      var more := Concat(frames[1..]) + rest;
      assert Concat(frames) + rest == frames[0] + more;
      assert forall i, tail {:trigger decode(frames[1..][i] + tail)} ::
        0 <= i < |frames[1..]| ==> decode(frames[i + 1] + tail) == [cs[i + 1]] + decode(tail);
      DecodeFrames(decode, frames[1..], cs[1..], rest);
      assert cs + decode(rest) == [cs[0]] + (cs[1..] + decode(rest));
    }
  }

  /** The commands a session reads from a stream before it ends or goes wrong. */
  function ParseAll(s: Bytes): seq<Command>
    decreases |s|
  {
    match Parse(s)
    case Ok(c, rest) => ParseConsumes(s); [c] + ParseAll(rest)
    case _ => []
  }

  lemma ParseAllStep(s: Bytes, c: Command, rest: Bytes)
    requires Parse(s) == Ok(c, rest)
    ensures ParseAll(s) == [c] + ParseAll(rest)
  {
  }

  lemma FirstOfPipeline(c: Command, more: Bytes)
    requires Sendable(c) && Clean(c) && LineLength(c) <= LINE_BUFFER
    ensures ParseAll(Print(c) + more) == [c] + ParseAll(more)
  {
    CleanRoundTrip(c, more);
    ParseAllStep(Print(c) + more, c, more);
  }

  /** Commands sent back to back are read back one by one, and the stream after them is read as usual. */
  lemma PipelineRoundTrip(cs: seq<Command>, rest: Bytes)
    requires forall i :: 0 <= i < |cs| ==> Sendable(cs[i]) && Clean(cs[i]) && LineLength(cs[i]) <= LINE_BUFFER
    ensures ParseAll(PrintAll(cs) + rest) == cs + ParseAll(rest)
  {
    var frames := seq(|cs|, i requires 0 <= i < |cs| => Print(cs[i]));
    var decode := s => ParseAll(s);
    forall i, more | 0 <= i < |frames| ensures decode(frames[i] + more) == [cs[i]] + decode(more) {
      FirstOfPipeline(cs[i], more);
    }
    DecodeFrames(decode, frames, cs, rest);
  }

  lemma {:induction false} AllParsedAreClean(s: Bytes)
    ensures forall i :: 0 <= i < |ParseAll(s)| ==> Clean(ParseAll(s)[i])
    decreases |s|
  {
    if Parse(s).Ok? {
      ParseConsumes(s);
      ParsedIsClean(s);
      AllParsedAreClean(Parse(s).rest);
    }
  }

  lemma PrintAllSplits(cs: seq<Command>, k: nat)
    requires k < |cs|
    ensures exists more :: PrintAll(cs) == PrintAll(cs[..k]) + (Print(cs[k]) + more)
  {
    var frames := seq(|cs|, i requires 0 <= i < |cs| => Print(cs[i]));
    ConcatSplits(frames, k);
    assert frames[..k] == seq(|cs[..k]|, i requires 0 <= i < |cs[..k]| => Print(cs[..k][i]));
  }

  lemma {:induction false} ConcatSplits(frames: seq<Bytes>, k: nat)
    requires k < |frames|
    ensures Concat(frames) == Concat(frames[..k]) + (frames[k] + Concat(frames[k + 1..]))
  {
    if k > 0 {
      ConcatSplits(frames[1..], k - 1);
      assert frames[1..][..k - 1] == frames[..k][1..];
    }
  }

  /** The first line that does not fit ends the pipeline. */
  lemma LongLineStops(cs: seq<Command>, k: nat)
    requires forall i :: 0 <= i < |cs| ==> Sendable(cs[i]) && Clean(cs[i])
    requires k < |cs| && LineLength(cs[k]) > LINE_BUFFER
    requires forall i :: 0 <= i < k ==> LineLength(cs[i]) <= LINE_BUFFER
    ensures ParseAll(PrintAll(cs)) == cs[..k]
  {
    PrintAllSplits(cs, k);
    var more :| PrintAll(cs) == PrintAll(cs[..k]) + (Print(cs[k]) + more);
    PipelineRoundTrip(cs[..k], Print(cs[k]) + more);
    CleanRoundTrip(cs[k], more);
  }

  /**
   * A pipeline is read back as it was sent if and only if every command in it
   * is clean and every line fits.
   */
  lemma PipelineIsExact(cs: seq<Command>)
    requires forall i :: 0 <= i < |cs| ==> Sendable(cs[i])
    ensures ParseAll(PrintAll(cs)) == cs <==>
      forall i :: 0 <= i < |cs| ==> Clean(cs[i]) && LineLength(cs[i]) <= LINE_BUFFER
  {
    AllParsedAreClean(PrintAll(cs));
    if forall i :: 0 <= i < |cs| ==> Clean(cs[i]) {
      if forall i :: 0 <= i < |cs| ==> LineLength(cs[i]) <= LINE_BUFFER {
        PipelineRoundTrip(cs, []);
        assert PrintAll(cs) + [] == PrintAll(cs);
      } else {
        var k := FirstWhere((c: Command) => LineLength(c) > LINE_BUFFER, cs);
        LongLineStops(cs, k);
      }
    }
  }

  // ----- where it fails

  /** `a`, a no-break space (U+00A0), and `7`: a key that `validKey` accepts. */
  const SPLIT_KEY: Key := [97, 0xC2, 0xA0, 55]

  lemma NextField(w: Bytes, space: Bytes, more: Bytes)
    requires IsWord(w) && space != [] && SpaceLength(space, 0) == |space|
    ensures Fields(w + (space + more)) == [w] + Fields(more)
  {
    assert SpaceLength(space + more, 0) == |space|;
    FirstField(w, space + more);
    SkipSpace(space, more);
  }

  const NO_BREAK: Bytes := [0xC2, 0xA0]

  lemma SplitKeyParts(tail: Bytes)
    ensures SPLIT_KEY + tail == [97] + (NO_BREAK + ([55] + tail))
  {
  }

  lemma SplitKeyFields(tail: Bytes)
    requires Ends(tail)
    ensures Fields(SPLIT_KEY + tail) == [[97], [55]] + Fields(tail)
  {
    SplitKeyParts(tail);
    PrintableIsWord([97]);
    PrintableIsWord([55]);
    NextField([97], NO_BREAK, [55] + tail);
    FirstField([55], tail);
  }

  lemma LastField(w: Bytes)
    requires IsWord(w)
    ensures Fields([SPACE] + w) == [w]
  {
    SkipSpace([SPACE], w);
    assert w + [] == w;
    FirstField(w, []);
  }

  lemma ThreeWords(a: Bytes, b: Bytes, c: Bytes)
    ensures Join([a, b, c]) == a + ([SPACE] + (b + ([SPACE] + c)))
  {
    JoinThree(a, b, c);
  }

  lemma SplitSetFields(name: Bytes, size: Bytes)
    requires IsWord(name) && IsWord(size)
    ensures Fields(Join([name, SPLIT_KEY, size])) == [name, [97], [55], size]
  {
    ThreeWords(name, SPLIT_KEY, size);
    NextField(name, [SPACE], SPLIT_KEY + ([SPACE] + size));
    SplitKeyFields([SPACE] + size);
    LastField(size);
  }

  lemma SplitGetFields(name: Bytes)
    requires IsWord(name)
    ensures Fields(Join([name, SPLIT_KEY])) == [name, [97], [55]]
  {
    JoinTwo(name, SPLIT_KEY);
    assert Join([name, SPLIT_KEY]) == name + ([SPACE] + (SPLIT_KEY + []));
    NextField(name, [SPACE], SPLIT_KEY + []);
    SplitKeyFields([]);
  }

  /**
   * With that key the client's `set` is understood as a `set` of the key `a`
   * with a TTL of 7 seconds, and its `get` is a protocol error.
   */
  lemma SplitKeyIsMisread(value: Bytes, rest: Bytes)
    requires |value| <= MAX_INT
    ensures ValidKey(SPLIT_KEY) && !IsWord(SPLIT_KEY)
    ensures Parse(Print(Set(SPLIT_KEY, 0, value)) + rest) == Ok(Set([97], 7, value), rest)
    ensures Parse(Print(Get(SPLIT_KEY)) + rest) == Bad
  {
    assert SpaceAt(SPLIT_KEY, 1);
    SplitSet(value, rest);
    SplitGet(rest);
  }

  lemma SplitSet(value: Bytes, rest: Bytes)
    requires |value| <= MAX_INT
    ensures Parse(Print(Set(SPLIT_KEY, 0, value)) + rest) == Ok(Set([97], 7, value), rest)
  {
    var c, read := Set(SPLIT_KEY, 0, value), Set([97], 7, value);
    SplitHeader(c, read);
    SingleKeyLinesFit(c);
    PrintedIsInterpreted(c, rest);
    HeaderIsUnderstood(read, rest);
  }

  lemma SplitHeader(c: Command, read: Command)
    requires c.Set? && |c.value| <= MAX_INT && c == Set(SPLIT_KEY, 0, c.value) && read == Set([97], 7, c.value)
    ensures Fields(Join(Header(c))) == Header(read)
  {
    var size := Format(|c.value|);
    NameLaws(SET);
    FormatIsToken(|c.value|);
    assert Header(c) == [Name(SET), SPLIT_KEY, size];
    SplitSetFields(Name(SET), size);
    assert Header(read) == [Name(SET), [97], [55], size];
  }

  lemma SplitGet(rest: Bytes)
    ensures Parse(Print(Get(SPLIT_KEY)) + rest) == Bad
  {
    var c := Get(SPLIT_KEY);
    NameLaws(GET);
    SingleKeyLinesFit(c);
    PrintedIsInterpreted(c, rest);
    assert Header(c) == [Name(GET), SPLIT_KEY];
    SplitGetFields(Name(GET));
  }
}
