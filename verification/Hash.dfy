/** FNV-1a, 32-bit, reduced to a shard number. */
module Hash {
  import opened Types

  const OFFSET: nat := 2166136261
  const PRIME: nat := 16777619
  const TWO_32: nat := 0x1_0000_0000

  /** Bitwise exclusive or of unsigned integers. */
  function Xor(a: nat, b: nat): nat {
    if a == 0 then b else if b == 0 then a else 2 * Xor(a / 2, b / 2) + (a + b) % 2
  }

  /** One round: exclusive or with the byte, then multiply modulo 2^32. */
  function Mix(h: nat, b: byte): nat {
    (Xor(h, b) * PRIME) % TWO_32
  }

  /** The hash of section 2 of draft-eastlake-fnv: fold the bytes from the left. It stays a 32-bit number. */
  function Fnv1a(key: Key): (h: nat)
    ensures h < TWO_32
  {
    if key == [] then OFFSET else Mix(Fnv1a(key[..|key| - 1]), key[|key| - 1])
  }

  /** The number of shards as the source narrows it to 32 bits; a multiple of 2^32, where it panics, stays as it is. */
  function Divisor(n: nat): (d: nat)
    requires 0 < n
    ensures 0 < d <= n
  {
    if n < TWO_32 || n % TWO_32 == 0 then n else n % TWO_32
  }

  function ShardIndex(key: Key, n: nat): (i: nat)
    requires 0 < n
    ensures i < n
  {
    Fnv1a(key) % Divisor(n)
  }

  // ----- the hash is the published one

  /** Bit `k` of a number, counted from the least significant. */
  function Bit(n: nat, k: nat): nat {
    if k == 0 then n % 2 else Bit(n / 2, k - 1)
  }

  lemma Halve(a: nat, b: nat)
    ensures Xor(a, b) / 2 == Xor(a / 2, b / 2) && Xor(a, b) % 2 == (a + b) % 2
  {
  }

  /** Every bit of the result is set if and only if it is set in exactly one of the operands. */
  lemma {:induction false} XorIsBitwise(a: nat, b: nat, k: nat)
    ensures Bit(Xor(a, b), k) == if Bit(a, k) == Bit(b, k) then 0 else 1
    decreases k
  {
    Halve(a, b);
    if k > 0 {
      XorIsBitwise(a / 2, b / 2, k - 1);
    }
  }

  /** Start from 2166136261; for each byte exclusive or it in, then multiply by 16777619 modulo 2^32. */
  lemma FoldIsFnv1a(key: Key, b: byte)
    ensures Fnv1a([]) == 2166136261
    ensures Fnv1a(key + [b]) == (Xor(Fnv1a(key), b) * 16777619) % 4294967296
  {
    assert (key + [b])[..|key|] == key;
  }

  lemma DivisorIsNarrowed(n: nat)
    requires n % TWO_32 != 0
    ensures 0 < n && Divisor(n) == n % TWO_32
  {
  }

  /** The loop of `shardIndex`. */
  method HashOf(key: Key) returns (h: nat)
    ensures h == Fnv1a(key)
  {
    h := OFFSET;
    for k := 0 to |key|
      invariant h == Fnv1a(key[..k])
    {
      assert key[..k + 1][..k] == key[..k];
      h := Xor(h, key[k]);
      h := (h * PRIME) % TWO_32;
    }
    assert key[..|key|] == key;
  }

  /** The source divides by `uint32(n)` and panics when that is zero. */
  method ShardIndexOf(key: Key, n: nat) returns (i: nat)
    requires n % TWO_32 != 0
    ensures i == ShardIndex(key, n)
  {
    DivisorIsNarrowed(n);
    var h := HashOf(key);
    i := h % (n % TWO_32);
  }
}
