/** Algebra of recency lists: how lookup, removal, expiry and accounting interact. */
module ListLaws {
  import opened Types
  import opened Sequences
  import opened Cache

  lemma {:induction false} MemConcat(l: Limits, a: seq<Entry>, b: seq<Entry>)
    ensures Mem(l, a + b) == Mem(l, a) + Mem(l, b)
  {
    if a == [] {
      assert a + b == b;
    } else {
      MemConcat(l, a[1..], b);
      assert (a + b)[1..] == a[1..] + b;
    }
  }

  lemma {:induction false} TtlCountConcat(a: seq<Entry>, b: seq<Entry>)
    ensures TtlCount(a + b) == TtlCount(a) + TtlCount(b)
  {
    if a == [] {
      assert a + b == b;
    } else {
      TtlCountConcat(a[1..], b);
      assert (a + b)[1..] == a[1..] + b;
    }
  }

  lemma {:induction false} WithoutConcat(a: seq<Entry>, b: seq<Entry>, key: Key)
    ensures Without(a + b, key) == Without(a, key) + Without(b, key)
  {
    if a == [] {
      assert a + b == b;
    } else {
      WithoutConcat(a[1..], b, key);
      var c := a + b;
      assert c[0] == a[0] && c[1..] == a[1..] + b;
      if a[0].key == key {
      } else {
        assert Without(c, key) == [a[0]] + (Without(a[1..], key) + Without(b, key));
      }
    }
  }

  lemma {:induction false} WithoutMember(es: seq<Entry>, key: Key, e: Entry)
    ensures e in Without(es, key) <==> e in es && e.key != key
  {
    if es != [] {
      WithoutMember(es[1..], key, e);
      assert es == [es[0]] + es[1..];
    }
  }

  lemma {:induction false} LiveMember(es: seq<Entry>, now: Time, e: Entry)
    ensures e in Live(es, now) <==> e in es && !Expired(e, now)
  {
    if es != [] {
      LiveMember(es[1..], now, e);
      assert es == [es[0]] + es[1..];
    }
  }

  lemma {:induction false} FindMember(es: seq<Entry>, key: Key)
    ensures Find(es, key).Some? ==> Find(es, key).value in es && Find(es, key).value.key == key
    ensures Find(es, key).None? <==> forall e :: e in es ==> e.key != key
  {
    if es != [] {
      FindMember(es[1..], key);
      assert es == [es[0]] + es[1..];
    }
  }

  /** In a list without repeated keys, lookup finds exactly the member with that key. */
  lemma FindUnique(es: seq<Entry>, e: Entry)
    requires Unique(es) && e in es
    ensures Find(es, e.key) == Some(e)
  {
    FindMember(es, e.key);
    var f := Find(es, e.key).value;
    var i :| 0 <= i < |es| && es[i] == e;
    var j :| 0 <= j < |es| && es[j] == f;
  }

  lemma {:induction false} WithoutAbsent(es: seq<Entry>, key: Key)
    requires forall e :: e in es ==> e.key != key
    ensures Without(es, key) == es
  {
    if es != [] {
      assert es[0] in es;
      WithoutAbsent(es[1..], key);
    }
  }

  lemma {:induction false} WithoutUnique(es: seq<Entry>, key: Key)
    requires Unique(es)
    ensures Unique(Without(es, key))
    ensures forall e :: e in Without(es, key) ==> e in es && e.key != key
  {
    forall e ensures e in Without(es, key) ==> e in es && e.key != key { WithoutMember(es, key, e); }
    if es != [] {
      WithoutUnique(es[1..], key);
      assert forall e :: e in es[1..] ==> e.key != es[0].key;
      var rest := Without(es[1..], key);
      assert forall i :: 0 <= i < |rest| ==> rest[i] in rest;
    }
  }

  lemma {:induction false} LiveUnique(es: seq<Entry>, now: Time)
    requires Unique(es)
    ensures Unique(Live(es, now))
    ensures forall e :: e in Live(es, now) ==> e in es && !Expired(e, now)
  {
    forall e ensures e in Live(es, now) ==> e in es && !Expired(e, now) { LiveMember(es, now, e); }
    if es != [] {
      LiveUnique(es[1..], now);
      assert forall e :: e in es[1..] ==> e.key != es[0].key;
      var rest := Live(es[1..], now);
      assert forall i :: 0 <= i < |rest| ==> rest[i] in rest;
    }
  }

  /** Removing a key from a list without repeated keys cuts out one position. */
  lemma {:induction false} WithoutAt(es: seq<Entry>, i: nat)
    requires Unique(es) && i < |es|
    ensures Without(es, es[i].key) == Cut(es, i)
    ensures Find(es, es[i].key) == Some(es[i])
  {
    var key := es[i].key;
    if i == 0 {
      assert forall e :: e in es[1..] ==> e.key != key;
      WithoutAbsent(es[1..], key);
    } else {
      WithoutAt(es[1..], i - 1);
      assert es[..i] + es[i + 1..] == [es[0]] + (es[1..][..i - 1] + es[1..][i..]);
    }
  }

  /** Removing a key releases exactly its entry's bytes and, if it has one, its deadline. */
  lemma AccountWithout(l: Limits, es: seq<Entry>, key: Key)
    requires Unique(es)
    ensures match Find(es, key)
      case None => Without(es, key) == es
      case Some(e) =>
        && Mem(l, es) == Mem(l, Without(es, key)) + SizeOf(l, e)
        && TtlCount(es) == TtlCount(Without(es, key)) + (if e.expiresAt != 0 then 1 else 0)
        && |es| == |Without(es, key)| + 1
  {
    FindMember(es, key);
    if Find(es, key).None? {
      WithoutAbsent(es, key);
    } else {
      var i :| 0 <= i < |es| && es[i] == Find(es, key).value;
      WithoutAt(es, i);
      AccountAt(l, es, i);
    }
  }

  lemma AccountAt(l: Limits, es: seq<Entry>, i: nat)
    requires i < |es|
    ensures Mem(l, es) == Mem(l, Cut(es, i)) + SizeOf(l, es[i])
    ensures TtlCount(es) == TtlCount(Cut(es, i)) + (if es[i].expiresAt != 0 then 1 else 0)
  {
    var a, m, b := es[..i], [es[i]], es[i + 1..];
    assert es == a + (m + b);
    MemConcat(l, a, m + b);
    MemConcat(l, m, b);
    MemConcat(l, a, b);
    TtlCountConcat(a, m + b);
    TtlCountConcat(m, b);
    TtlCountConcat(a, b);
  }

  lemma {:induction false} FindWithout(es: seq<Entry>, key: Key, other: Key)
    ensures Find(Without(es, key), other) == if key == other then None else Find(es, other)
  {
    if es != [] {
      FindWithout(es[1..], key, other);
    }
  }

  lemma {:induction false} FindLive(es: seq<Entry>, now: Time, key: Key)
    requires Unique(es)
    ensures Find(Live(es, now), key)
         == match Find(es, key) case None => None case Some(e) => if Expired(e, now) then None else Some(e)
  {
    if es != [] {
      FindLive(es[1..], now, key);
      if es[0].key == key {
        FindMember(es[1..], key);
      }
    }
  }

  lemma {:induction false} LiveWithout(es: seq<Entry>, now: Time, key: Key)
    ensures Live(Without(es, key), now) == Without(Live(es, now), key)
  {
    if es != [] {
      LiveWithout(es[1..], now, key);
    }
  }

  lemma {:induction false} WithoutTwice(es: seq<Entry>, key: Key)
    ensures Without(Without(es, key), key) == Without(es, key)
  {
    if es != [] {
      WithoutTwice(es[1..], key);
    }
  }

  lemma {:induction false} LiveConcat(a: seq<Entry>, b: seq<Entry>, now: Time)
    ensures Live(a + b, now) == Live(a, now) + Live(b, now)
  {
    if a == [] {
      assert a + b == b;
    } else {
      LiveConcat(a[1..], b, now);
      var c := a + b;
      assert c[0] == a[0] && c[1..] == a[1..] + b;
      if Expired(a[0], now) {
      } else {
        assert Live(c, now) == [a[0]] + (Live(a[1..], now) + Live(b, now));
      }
    }
  }

  lemma {:induction false} LiveAll(es: seq<Entry>, now: Time)
    requires forall e :: e in es ==> !Expired(e, now)
    ensures Live(es, now) == es
  {
    if es != [] {
      assert es[0] in es;
      LiveAll(es[1..], now);
    }
  }

  /** Once expired, always expired: later filtering subsumes earlier filtering. */
  lemma {:induction false} LiveLater(es: seq<Entry>, early: Time, late: Time)
    requires early <= late
    ensures Live(Live(es, early), late) == Live(es, late)
  {
    if es != [] {
      LiveLater(es[1..], early, late);
    }
  }

  lemma {:induction false} MemLive(l: Limits, es: seq<Entry>, now: Time)
    ensures Mem(l, Live(es, now)) <= Mem(l, es)
    ensures |Live(es, now)| <= |es|
  {
    if es != [] {
      MemLive(l, es[1..], now);
    }
  }

  lemma {:induction false} LiveWithNoDeadlines(es: seq<Entry>, now: Time)
    requires TtlCount(es) == 0
    ensures Live(es, now) == es
  {
    if es != [] {
      LiveWithNoDeadlines(es[1..], now);
    }
  }

  /** What is kept is the longest most recent run that occupies at most `budget` bytes. */
  lemma {:induction false} FitLongest(l: Limits, es: seq<Entry>, budget: int)
    ensures var kept := Fit(l, es, budget);
      && kept <= es
      && (0 <= budget ==> Mem(l, kept) <= budget)
      && (|kept| < |es| ==> Mem(l, es[..|kept| + 1]) > budget)
  {
    if es != [] && Mem(l, es) > budget {
      FitLongest(l, es[..|es| - 1], budget);
      var kept := Fit(l, es, budget);
      if |kept| < |es| - 1 {
        assert es[..|es| - 1][..|kept| + 1] == es[..|kept| + 1];
      } else {
        assert es[..|kept| + 1] == es;
      }
    }
  }

  lemma FitMember(l: Limits, es: seq<Entry>, budget: int)
    requires Unique(es)
    ensures Unique(Fit(l, es, budget))
    ensures forall e :: e in Fit(l, es, budget) ==> e in es
  {
    FitLongest(l, es, budget);
    var kept := Fit(l, es, budget);
    assert kept == es[..|kept|];
  }

  /** Nothing is dropped from a list that already fits. */
  lemma FitWhole(l: Limits, es: seq<Entry>, budget: int)
    requires Mem(l, es) <= budget
    ensures Fit(l, es, budget) == es
  {
  }
}
