/** Which words are verbs. */
module Spelling {
  import opened Types
  import opened Wire
  import opened Protocol
  import opened Framing

  /** The verbs as they are written in the protocol. */
  lemma VerbTexts()
    ensures Name(PING) == [112, 105, 110, 103] && Name(AUTH) == [97, 117, 116, 104]
    ensures Name(GET) == [103, 101, 116] && Name(SET) == [115, 101, 116]
    ensures Name(DELETE) == [100, 101, 108, 101, 116, 101] && Name(INCR) == [105, 110, 99, 114]
    ensures Name(STATS) == [115, 116, 97, 116, 115] && Name(MGET) == [109, 103, 101, 116]
    ensures Name(GETS) == [103, 101, 116, 115] && Name(CAS) == [99, 97, 115]
  {
  }

  ghost predicate IsLower(name: Bytes) {
    forall i :: 0 <= i < |name| ==> 97 <= name[i] <= 122
  }

  /** `w` is `name`, letter by letter, in either case; a capital I may carry a dot (U+0130). */
  ghost predicate Spells(w: Bytes, name: Bytes) {
    if name == [] then w == []
    else
      || (w != [] && (w[0] == name[0] || w[0] as int + 32 == name[0] as int) && Spells(w[1..], name[1..]))
      || (|w| >= 2 && w[..2] == [0xC4, 0xB0] && name[0] == 105 && Spells(w[2..], name[1..]))
  }

  lemma {:induction false} LowerIsSpelling(w: Bytes, name: Bytes)
    requires IsLower(name)
    ensures Lower(w) == name <==> Spells(w, name)
    decreases |w|
  {
    if w != [] && name != [] {
      var k := if |w| >= 2 && w[0] == 0xC4 && w[1] == 0xB0 then 2 else 1;
      LowerIsSpelling(w[k..], name[1..]);
      assert Lower(w)[1..] == Lower(w[k..]);
      assert Lower(w) == [Lower(w)[0]] + Lower(w[k..]);
      assert name == [name[0]] + name[1..];
    }
  }

  /** A word is read as a verb if and only if it spells it. */
  lemma VerbOfIsSpelling(w: Bytes, v: Verb)
    ensures VerbOf(w) == Some(v) <==> Spells(w, Name(v))
  {
    NameShape(v);
    LowerIsSpelling(w, Name(v));
    if Lower(w) == Name(v) {
      AnyLower(w, v);
    }
  }

  ghost predicate SameButCase(w: Bytes, name: Bytes) {
    |w| == |name| && forall i :: 0 <= i < |w| ==> w[i] == name[i] || w[i] as int + 32 == name[i] as int
  }

  /** Among ASCII words those are the ones that differ from the verb at most in the case of letters. */
  lemma {:induction false} AsciiSpelling(w: Bytes, name: Bytes)
    requires IsLower(name) && forall i :: 0 <= i < |w| ==> w[i] < 128
    ensures Spells(w, name) <==> SameButCase(w, name)
  {
    if w != [] && name != [] {
      AsciiSpelling(w[1..], name[1..]);
      if SameButCase(w, name) {
        assert SameButCase(w[1..], name[1..]);
      }
      if Spells(w, name) {
        assert SameButCase(w[1..], name[1..]);
        forall i | 0 <= i < |w| ensures w[i] == name[i] || w[i] as int + 32 == name[i] as int {
          assert i > 0 ==> w[i] == w[1..][i - 1] && name[i] == name[1..][i - 1];
        }
      }
    }
  }

  /** Any mixture of upper and lower case is recognised. */
  lemma AnyCase(w: Bytes, v: Verb)
    requires SameButCase(w, Name(v))
    ensures VerbOf(w) == Some(v)
  {
    NameShape(v);
    AsciiSpelling(w, Name(v));
    VerbOfIsSpelling(w, v);
  }

  /** An ASCII word that is no such spelling of any verb is no verb. */
  lemma UnknownVerb(w: Bytes)
    requires forall i :: 0 <= i < |w| ==> w[i] < 128
    requires forall v :: !SameButCase(w, Name(v))
    ensures VerbOf(w) == None
  {
    if VerbOf(w).Some? {
      var v := VerbOf(w).value;
      NameShape(v);
      AsciiSpelling(w, Name(v));
      VerbOfIsSpelling(w, v);
    }
  }
}
