/** Positions in sequences without repetition. */
module Sequences {
  /** A sequence with the element at one position taken out. */
  ghost function Cut<T>(s: seq<T>, at: nat): seq<T>
    requires at < |s|
  {
    s[..at] + s[at + 1..]
  }

  ghost predicate Apart<T>(s: seq<T>, i: nat, j: nat)
    requires i < |s| && j < |s|
  {
    s[i] != s[j]
  }

  ghost predicate Distinct<T>(s: seq<T>) {
    forall i, j {:trigger Apart(s, i, j)} :: 0 <= i < j < |s| ==> Apart(s, i, j)
  }

  lemma AllApart<T>(s: seq<T>)
    requires Distinct(s)
    ensures forall i, j :: 0 <= i < j < |s| ==> s[i] != s[j]
  {
    forall i, j | 0 <= i < j < |s| ensures s[i] != s[j] {
      assert Apart(s, i, j);
    }
  }

  lemma CutMember<T>(s: seq<T>, at: nat)
    requires at < |s| && Distinct(s)
    ensures Distinct(Cut(s, at))
    ensures forall x :: x in Cut(s, at) <==> x in s && x != s[at]
  {
    assert s == s[..at] + [s[at]] + s[at + 1..];
    AllApart(s);
  }

  /** The first place in a list where a predicate holds. */
  lemma {:induction false} FirstWhere<T>(p: T -> bool, s: seq<T>) returns (k: nat)
    requires exists i :: 0 <= i < |s| && p(s[i])
    ensures k < |s| && p(s[k]) && forall i :: 0 <= i < k ==> !p(s[i])
  {
    if p(s[0]) {
      k := 0;
    } else {
      var i :| 0 <= i < |s| && p(s[i]);
      assert s[1..][i - 1] == s[i];
      k := FirstWhere(p, s[1..]);
      k := k + 1;
    }
  }

  lemma TailOfPrefix<T>(s: seq<T>, i: nat)
    requires 0 < i <= |s|
    ensures s[..i][1..] == s[1..][..i - 1]
  {
  }
}
