/** Unsigned decimal text, as `strconv.FormatUint` and `strconv.ParseUint` treat it. */
module Decimal {
  import opened Types

  const MAX_UINT64: nat := 0xFFFF_FFFF_FFFF_FFFF

  predicate IsDigit(b: byte) {
    48 <= b <= 57
  }

  predicate AllDigits(s: Bytes) {
    forall i :: 0 <= i < |s| ==> IsDigit(s[i])
  }

  predicate IsDecimal(s: Bytes) {
    s != [] && AllDigits(s)
  }

  /** The scan the store performs before it parses a counter. */
  method ScanDecimal(value: Bytes) returns (ok: bool)
    ensures ok <==> IsDecimal(value)
  {
    if |value| == 0 {
      return false;
    }
    for i := 0 to |value|
      invariant AllDigits(value[..i])
    {
      if value[i] < 48 || value[i] > 57 {
        return false;
      }
    }
    assert value[..|value|] == value;
    return true;
  }

  /** The number that a string of digits denotes; leading zeros are allowed. */
  function Value(s: Bytes): (n: nat)
    requires AllDigits(s)
  {
    if s == [] then 0 else Value(s[..|s| - 1]) * 10 + (s[|s| - 1] - 48)
  }

  /** `strconv.ParseUint(s, 10, 64)` on text already known to be decimal. */
  function ParseUint(s: Bytes): Option<nat>
    requires IsDecimal(s)
  {
    if Value(s) <= MAX_UINT64 then Some(Value(s)) else None
  }

  /** `strconv.FormatUint(n, 10)`. */
  function Format(n: nat): Bytes {
    if n < 10 then [48 + n] else Format(n / 10) + [48 + n % 10]
  }

  /** Formatting and parsing back is the identity. */
  lemma {:induction false} FormatThenValue(n: nat)
    ensures IsDecimal(Format(n))
    ensures Value(Format(n)) == n
  {
    if n < 10 {
      assert Format(n)[..0] == [];
    } else {
      FormatThenValue(n / 10);
      var s := Format(n);
      assert s[..|s| - 1] == Format(n / 10);
    }
  }

  /** A larger number never prints shorter. */
  lemma {:induction false} FormatLengthMonotone(a: nat, b: nat)
    requires a <= b
    ensures 1 <= |Format(a)| <= |Format(b)|
  {
    if a >= 10 {
      FormatLengthMonotone(a / 10, b / 10);
    }
  }

  function PowerOfTen(k: nat): nat {
    if k == 0 then 1 else 10 * PowerOfTen(k - 1)
  }

  lemma {:induction false} FormatLengthBelow(n: nat, k: nat)
    requires 0 < k && n < PowerOfTen(k)
    ensures |Format(n)| <= k
  {
    if n >= 10 {
      assert PowerOfTen(1) == 10;
      FormatLengthBelow(n / 10, k - 1);
    }
  }

  /** No 64-bit counter prints longer than twenty digits. */
  lemma FormatUint64Length(n: nat)
    requires n <= MAX_UINT64
    ensures |Format(n)| <= 20
  {
    assert PowerOfTen(5) == 100_000;
    PowerOfTenAdd(5, 5);
    PowerOfTenAdd(10, 10);
    FormatLengthBelow(n, 20);
  }

  lemma {:induction false} PowerOfTenAdd(a: nat, b: nat)
    ensures PowerOfTen(a + b) == PowerOfTen(a) * PowerOfTen(b)
  {
    if a > 0 {
      PowerOfTenAdd(a - 1, b);
      assert PowerOfTen(a + b) == 10 * (PowerOfTen(a - 1) * PowerOfTen(b));
    }
  }

  /** Distinct numbers print differently. */
  lemma FormatInjective(a: nat, b: nat)
    requires Format(a) == Format(b)
    ensures a == b
  {
    FormatThenValue(a);
    FormatThenValue(b);
  }

  // ----- positional notation

  lemma ValueOfDigit(d: nat)
    requires d < 10
    ensures AllDigits([48 + d]) && Value([48 + d]) == d
  {
    assert [48 + d][..0] == [];
  }

  /** Digits count by their place, whatever comes first. */
  lemma {:induction false} ValueOfConcat(a: Bytes, b: Bytes)
    requires AllDigits(a) && AllDigits(b)
    ensures AllDigits(a + b) && Value(a + b) == Value(a) * PowerOfTen(|b|) + Value(b)
  {
    if b == [] {
      assert a + b == a;
    } else {
      var init, n := b[..|b| - 1], |b| - 1;
      ValueOfConcat(a, init);
      assert (a + b)[..|a + b| - 1] == a + init;
      assert Value(a) * PowerOfTen(n) * 10 == Value(a) * (10 * PowerOfTen(n));
    }
  }

  function Zeros(k: nat): Bytes {
    seq(k, _ => 48)
  }

  lemma {:induction false} ValueOfZeros(k: nat)
    ensures AllDigits(Zeros(k)) && Value(Zeros(k)) == 0
  {
    if k > 0 {
      ValueOfZeros(k - 1);
      assert Zeros(k)[..k - 1] == Zeros(k - 1);
    }
  }

  /** Leading zeros do not count: base ten, not eight. */
  lemma LeadingZeros(k: nat, text: Bytes)
    requires AllDigits(text)
    ensures AllDigits(Zeros(k) + text) && Value(Zeros(k) + text) == Value(text)
  {
    ValueOfZeros(k);
    ValueOfConcat(Zeros(k), text);
  }

  /** A number prints without leading zeros. */
  lemma {:induction false} FormatIsCanonical(n: nat)
    ensures Format(n) != [] && (Format(n)[0] == 48 <==> n == 0) && (n == 0 ==> Format(n) == [48])
  {
    if n >= 10 {
      FormatIsCanonical(n / 10);
    }
  }
}
