/** `incr` is exact unsigned 64-bit addition on decimal text. */
module Increments {
  import opened Types
  import opened Decimal
  import opened Cache
  import opened ListLaws
  import opened Effects
  import opened ShardLaws

  /** Text without a number, or with one that does not fit 64 bits, is refused; so is a sum that does not fit. */
  lemma AddDeltaIsExact(text: Bytes, delta: nat)
    ensures AddDelta(text, delta) ==
      if !IsDecimal(text) || Value(text) >= 0x1_0000_0000_0000_0000 then Bad(NotInteger)
      else if Value(text) + delta >= 0x1_0000_0000_0000_0000 then Bad(Overflow)
      else Next(Value(text) + delta)
  {
  }

  /** Text of any number of zeros and then a number counts as that number. */
  lemma LeadingZerosCount(zeros: nat, n: nat, delta: nat)
    requires n + delta < 0x1_0000_0000_0000_0000
    ensures AddDelta(Zeros(zeros) + Format(n), delta) == Next(n + delta)
  {
    FormatThenValue(n);
    LeadingZeros(zeros, Format(n));
    AddDeltaIsExact(Zeros(zeros) + Format(n), delta);
  }

  /** A successful increment stores text for the sum, keeps the deadline, and says what it stored. */
  lemma IncrementStoresSum(l: Limits, s: Shard, key: Key, delta: nat, now: Time, cas: nat)
    requires Step(l, s, Incr(key, delta), now, cas).1.Counted?
    ensures LiveEntry(s, key, now).Some?
    ensures var (t, r) := Step(l, s, Incr(key, delta), now, cas);
      var before, after := LiveEntry(s, key, now).value, LiveEntry(t, key, now);
      && after.Some?
      && IsDecimal(before.value) && IsDecimal(after.value.value)
      && r.total == Value(before.value) + delta == Value(after.value.value) <= MAX_UINT64
      && after.value == Entry(key, Format(r.total), before.expiresAt, cas)
  {
    StepIsEffect(l, s, Incr(key, delta), now, cas);
    var e := LiveEntry(s, key, now).value;
    AddDeltaIsExact(e.value, delta);
    FormatThenValue(Value(e.value) + delta);
  }

  /** Formatting what was parsed gives back the number, even from text with leading zeros. */
  lemma IncrementAgain(text: Bytes, first: nat, second: nat)
    requires AddDelta(text, first).Next?
    ensures AddDelta(Format(AddDelta(text, first).value), second) == AddDelta(text, first + second)
  {
    AddDeltaIsExact(text, first);
    AddDeltaIsExact(text, first + second);
    FormatThenValue(AddDelta(text, first).value);
    AddDeltaIsExact(Format(AddDelta(text, first).value), second);
  }

  /** The answer depends on the live text alone. */
  function Answer(l: Limits, key: Key, text: Bytes, delta: nat): Reply {
    match AddDelta(text, delta)
    case Bad(error) => Failed(error)
    case Next(n) =>
      if |Format(n)| > l.maxValueBytes then Failed(ValueTooLarge)
      else if ItemSize(l, key, |Format(n)|) > l.maxMemoryBytes then Failed(MemoryLimitExceeded)
      else Counted(n)
  }

  lemma AnswerLaw(l: Limits, s: Shard, key: Key, delta: nat, now: Time, cas: nat)
    requires LiveEntry(s, key, now).Some?
    ensures Step(l, s, Incr(key, delta), now, cas).1 == Answer(l, key, LiveEntry(s, key, now).value.value, delta)
  {
    LapseFinds(s, key, now);
  }

  /**
   * Two successful increments, at any two times, answer and store what one
   * increment by their sum does at the later one.
   */
  lemma TwoIncrementsAreOne(
      l: Limits, s: Shard, key: Key, first: nat, second: nat, now: Time, later: Time, a: nat, b: nat,
      m: Shard, t: Shard, u: Shard, x: Reply, y: Reply, z: Reply)
    requires Step(l, s, Incr(key, first), now, a) == (m, x) && x.Counted?
    requires Step(l, m, Incr(key, second), later, b) == (t, y) && y.Counted?
    requires Step(l, s, Incr(key, first + second), later, b) == (u, z)
    ensures z == y && LiveEntry(u, key, later) == LiveEntry(t, key, later)
  {
    IncrementStoresSum(l, s, key, first, now, a);
    IncrementStoresSum(l, m, key, second, later, b);
    var text := LiveEntry(s, key, now).value.value;
    AnswerLaw(l, s, key, first, now, a);
    AnswerLaw(l, m, key, second, later, b);
    assert LiveEntry(s, key, later) == LiveEntry(s, key, now);
    AnswerLaw(l, s, key, first + second, later, b);
    IncrementAgain(text, first, second);
    assert Answer(l, key, Format(x.total), second) == Answer(l, key, text, first + second);
    IncrementStoresSum(l, s, key, first + second, later, b);
  }
}
