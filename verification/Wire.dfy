/** Bytes on the wire: lines, words, and unsigned number tokens. */
module Wire {
  import opened Types
  import opened Decimal

  const CR: byte := 13
  const LF: byte := 10
  const SPACE: byte := 32
  const CRLF: Bytes := [CR, LF]

  /** The size of a default `bufio.Reader` buffer, which bounds a command line. */
  const LINE_BUFFER: nat := 4096
  const MAX_KEY_BYTES: nat := 250
  const MAX_INT: nat := 0x7FFF_FFFF_FFFF_FFFF

  /** The bytes of an ASCII literal. */
  function Ascii(s: string): (b: Bytes)
    ensures |b| == |s| && forall i :: 0 <= i < |s| && s[i] < 128 as char ==> b[i] == s[i] as int
  {
    seq(|s|, i requires 0 <= i < |s| => if s[i] < 128 as char then s[i] as int else 63)
  }

  // ----- words

  /** UTF-8 white space of three bytes: U+1680, U+2000 to U+200A, U+2028, U+2029, U+202F, U+205F, U+3000. */
  predicate IsWideSpace(a: byte, b: byte, c: byte) {
    || (a == 0xE1 && b == 0x9A && c == 0x80)
    || (a == 0xE2 && b == 0x80 && (0x80 <= c <= 0x8A || c == 0xA8 || c == 0xA9 || c == 0xAF))
    || (a == 0xE2 && b == 0x81 && c == 0x9F)
    || (a == 0xE3 && b == 0x80 && c == 0x80)
  }

  /**
   * How many bytes of white space start at a position, in UTF-8. A lead byte is
   * never taken for part of another character, so looking at every byte finds
   * the same white space as decoding from the left.
   */
  function SpaceLength(s: Bytes, i: nat): (n: nat)
    requires i < |s|
    ensures i + n <= |s|
  {
    if 9 <= s[i] <= 13 || s[i] == SPACE then 1
    else if i + 1 < |s| && s[i] == 0xC2 && (s[i + 1] == 0x85 || s[i + 1] == 0xA0) then 2
    else if i + 2 < |s| && IsWideSpace(s[i], s[i + 1], s[i + 2]) then 3
    else 0
  }

  predicate SpaceAt(s: Bytes, i: nat)
    requires i < |s|
  {
    SpaceLength(s, i) > 0
  }

  predicate IsWord(w: Bytes) {
    w != [] && forall i :: 0 <= i < |w| ==> !SpaceAt(w, i)
  }

  /** How many bytes come before the first white space. */
  function WordLength(s: Bytes): (n: nat)
    ensures n <= |s|
  {
    if s == [] || SpaceAt(s, 0) then 0 else 1 + WordLength(s[1..])
  }

  /** `strings.Fields`: the words between runs of white space. */
  function Fields(s: Bytes): seq<Bytes>
    decreases |s|
  {
    if s == [] then []
    else if SpaceAt(s, 0) then Fields(s[SpaceLength(s, 0)..])
    else [s[..WordLength(s)]] + Fields(s[WordLength(s)..])
  }

  /** Words separated by single spaces, as the clients and the server print them. */
  function Join(words: seq<Bytes>): Bytes {
    if words == [] then []
    else if |words| == 1 then words[0]
    else words[0] + [SPACE] + Join(words[1..])
  }

  ghost predicate AllWords(words: seq<Bytes>) {
    forall i :: 0 <= i < |words| ==> IsWord(words[i])
  }

  /** What follows a word: nothing, or white space. */
  ghost predicate Ends(tail: Bytes) {
    tail == [] || SpaceAt(tail, 0)
  }

  /** White space never starts in one word and ends in what follows it. */
  lemma NoStraddle(w: Bytes, tail: Bytes, i: nat)
    requires i < |w| && Ends(tail)
    ensures SpaceLength(w + tail, i) == SpaceLength(w, i)
  {
  }

  lemma {:induction false} WordLengthIs(w: Bytes, tail: Bytes)
    requires (forall i :: 0 <= i < |w| ==> !SpaceAt(w, i)) && Ends(tail)
    ensures WordLength(w + tail) == |w|
  {
    if w == [] {
      assert w + tail == tail;
    } else {
      NoStraddle(w, tail, 0);
      assert !SpaceAt(w, 0);
      assert (w + tail)[1..] == w[1..] + tail;
      forall i | 0 <= i < |w[1..]| ensures !SpaceAt(w[1..], i) { assert !SpaceAt(w, i + 1); }
      WordLengthIs(w[1..], tail);
    }
  }

  lemma FirstField(w: Bytes, tail: Bytes)
    requires IsWord(w) && Ends(tail)
    ensures Fields(w + tail) == [w] + Fields(tail)
  {
    var s := w + tail;
    WordLengthIs(w, tail);
    NoStraddle(w, tail, 0);
    assert s[..|w|] == w && s[|w|..] == tail;
  }

  lemma SkipSpace(space: Bytes, s: Bytes)
    requires space != [] && SpaceLength(space, 0) == |space|
    ensures Fields(space + s) == Fields(s)
  {
    assert SpaceLength(space + s, 0) == |space|;
    assert (space + s)[|space|..] == s;
  }

  /** Printing words and splitting the line again gives the words back. */
  lemma {:induction false} FieldsOfWords(words: seq<Bytes>)
    requires AllWords(words)
    ensures Fields(Join(words)) == words
  {
    if |words| == 1 {
      assert words[0] + [] == words[0];
      FirstField(words[0], []);
    } else if words != [] {
      var w, more := words[0], Join(words[1..]);
      assert Join(words) == w + ([SPACE] + more);
      FirstField(w, [SPACE] + more);
      SkipSpace([SPACE], more);
      FieldsOfWords(words[1..]);
    }
  }

  lemma {:induction false} WordHasNoSpace(s: Bytes, i: nat)
    requires i < WordLength(s)
    ensures !SpaceAt(s, i)
  {
    if i > 0 {
      WordHasNoSpace(s[1..], i - 1);
    }
  }

  /** Whatever is split off is a word: no field holds white space, of one byte or of several. */
  lemma {:induction false} FieldsAreWords(s: Bytes)
    ensures AllWords(Fields(s))
    decreases |s|
  {
    if s != [] {
      if SpaceAt(s, 0) {
        FieldsAreWords(s[SpaceLength(s, 0)..]);
      } else {
        var n := WordLength(s);
        forall i | 0 <= i < n ensures !SpaceAt(s[..n], i) { WordHasNoSpace(s, i); }
        FieldsAreWords(s[n..]);
      }
    }
  }

  /** A printed line splits into what was printed if and only if that was words. */
  lemma FieldsOfJoin(words: seq<Bytes>)
    ensures Fields(Join(words)) == words <==> AllWords(words)
  {
    FieldsAreWords(Join(words));
    if AllWords(words) {
      FieldsOfWords(words);
    }
  }

  lemma JoinTwo(a: Bytes, b: Bytes)
    ensures Join([a, b]) == a + [SPACE] + b
  {
    assert [a, b][1..] == [b];
  }

  lemma JoinThree(a: Bytes, b: Bytes, c: Bytes)
    ensures Join([a, b, c]) == a + [SPACE] + b + [SPACE] + c
  {
    assert [a, b, c][1..] == [b, c];
    JoinTwo(b, c);
    assert a + [SPACE] + (b + [SPACE] + c) == a + [SPACE] + b + [SPACE] + c;
  }

  /** A printed line has no line feed of its own. */
  lemma {:induction false} JoinHasNoLineFeed(words: seq<Bytes>)
    requires forall i :: 0 <= i < |words| ==> LF !in words[i]
    ensures LF !in Join(words)
  {
    if |words| > 1 {
      JoinHasNoLineFeed(words[1..]);
    }
  }

  // ----- lines

  datatype Line = Line(text: Bytes, rest: Bytes) | TooLong | Eof

  /** The position of the first occurrence of `b`, or the length if there is none. */
  function IndexOf(s: Bytes, b: byte): (i: nat)
    ensures i <= |s| && (i < |s| ==> s[i] == b) && b !in s[..i]
  {
    if s == [] then 0
    else if s[0] == b then 0
    else
      var i := 1 + IndexOf(s[1..], b);
      assert s[..i] == [s[0]] + s[1..][..i - 1];
      i
  }

  lemma {:induction false} IndexOfIs(s: Bytes, b: byte, i: nat)
    requires i < |s| && s[i] == b && b !in s[..i]
    ensures IndexOf(s, b) == i
  {
    if i > 0 {
      assert s[..i] == [s[0]] + s[1..][..i - 1];
      IndexOfIs(s[1..], b, i - 1);
    }
  }

  /** `ReadSlice('\\n')` on a buffered reader: a line must end within the buffer. */
  function ReadSlice(s: Bytes): Line {
    var i := IndexOf(s, LF);
    if i < |s| && i < LINE_BUFFER then Line(s[..i + 1], s[i + 1..])
    else if |s| >= LINE_BUFFER then TooLong
    else Eof
  }

  /** A line that fits the buffer is read back exactly, whatever follows it. */
  lemma ReadSliceOf(text: Bytes, rest: Bytes)
    requires LF !in text && |text| + 2 <= LINE_BUFFER
    ensures ReadSlice(text + CRLF + rest) == Line(text + CRLF, rest)
  {
    var s := text + CRLF + rest;
    assert s[..|text| + 1] == text + [CR];
    IndexOfIs(s, LF, |text| + 1);
    assert s[..|text| + 2] == text + CRLF && s[|text| + 2..] == rest;
  }

  // ----- tokens

  predicate ValidKey(key: Bytes) {
    0 < |key| <= MAX_KEY_BYTES && forall i :: 0 <= i < |key| ==> key[i] > SPACE && key[i] != 127
  }

  /** `parseUintToken`: an unsigned decimal number of 64 bits. */
  function ParseUintToken(token: Bytes): Option<nat> {
    if IsDecimal(token) then ParseUint(token) else None
  }

  /** `parseByteCount`: the same, within a signed 64-bit integer. */
  function ParseByteCount(token: Bytes): Option<nat> {
    match ParseUintToken(token)
    case Some(n) => if n > MAX_INT then None else Some(n)
    case None => None
  }

  /** Printable ASCII without spaces is a word. */
  lemma PrintableIsWord(w: Bytes)
    requires w != [] && forall i :: 0 <= i < |w| ==> SPACE < w[i] < 128
    ensures IsWord(w)
  {
  }

  lemma FormatIsToken(n: nat)
    requires n <= MAX_UINT64
    ensures ParseUintToken(Format(n)) == Some(n)
    ensures IsWord(Format(n)) && LF !in Format(n) && |Format(n)| <= 20
  {
    FormatThenValue(n);
    FormatUint64Length(n);
    PrintableIsWord(Format(n));
  }
}
