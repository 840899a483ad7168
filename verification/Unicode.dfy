/** The white space that lines are split on is Unicode's, in UTF-8. */
module Unicode {
  import opened Types
  import opened Wire

  /** The UTF-8 bytes of a code point. */
  function Utf8(c: nat): (b: Bytes)
    requires c < 0x110000
    ensures 1 <= |b| <= 4
  {
    if c < 0x80 then [c]
    else if c < 0x800 then [0xC0 + c / 64, 0x80 + c % 64]
    else if c < 0x10000 then [0xE0 + c / 4096, 0x80 + (c / 64) % 64, 0x80 + c % 64]
    else [0xF0 + c / 262144, 0x80 + (c / 4096) % 64, 0x80 + (c / 64) % 64, 0x80 + c % 64]
  }

  /** `unicode.IsSpace`, by code point. */
  predicate IsUnicodeSpace(c: nat) {
    || c == 0x09 || c == 0x0A || c == 0x0B || c == 0x0C || c == 0x0D || c == 0x20
    || c == 0x85 || c == 0xA0 || c == 0x1680 || 0x2000 <= c <= 0x200A
    || c == 0x2028 || c == 0x2029 || c == 0x202F || c == 0x205F || c == 0x3000
  }

  lemma ThreeByteSpace(c: nat)
    requires 0x800 <= c < 0x10000
    ensures IsWideSpace(0xE0 + c / 4096, 0x80 + (c / 64) % 64, 0x80 + c % 64) <==> IsUnicodeSpace(c)
  {
    assert c == 4096 * (c / 4096) + 64 * ((c / 64) % 64) + c % 64;
  }

  /** A character in front of any bytes is white space of its own length, or none, by its code point. */
  lemma SpaceIsUnicode(c: nat, rest: Bytes)
    requires c < 0x110000
    ensures SpaceLength(Utf8(c) + rest, 0) == if IsUnicodeSpace(c) then |Utf8(c)| else 0
  {
    var s := Utf8(c) + rest;
    if 0x800 <= c < 0x10000 {
      ThreeByteSpace(c);
      assert s[0] == 0xE0 + c / 4096 && s[1] == 0x80 + (c / 64) % 64 && s[2] == 0x80 + c % 64;
    }
  }

  /** No white space starts inside a character, so looking at every byte is as good as decoding. */
  lemma NoSpaceInside(c: nat, rest: Bytes, i: nat)
    requires c < 0x110000 && 0 < i < |Utf8(c)|
    ensures SpaceLength(Utf8(c) + rest, i) == 0
  {
    var s := Utf8(c) + rest;
    assert s[i] == Utf8(c)[i];
  }
}
