/** Facts about sequences used as queues. */
module Sequences {

  /** The index of the first element `f` accepts, or the length when there is none. */
  function Position<T>(s: seq<T>, f: T -> bool): (k: nat)
    ensures k <= |s|
    ensures k < |s| ==> f(s[k])
    ensures forall i | 0 <= i < k :: !f(s[i])
  {
    if s == [] || f(s[0]) then 0 else 1 + Position(s[1..], f)
  }

  function Without<T>(s: seq<T>, k: nat): (rest: seq<T>)
    requires k < |s|
    ensures |rest| == |s| - 1
  {
    s[..k] + s[k + 1..]
  }

  /** The elements `f` accepts, in order. */
  function Keep<T>(s: seq<T>, f: T -> bool): (kept: seq<T>)
  {
    if s == [] then []
    else if f(s[|s| - 1]) then Keep(s[..|s| - 1], f) + [s[|s| - 1]]
    else Keep(s[..|s| - 1], f)
  }

  /** The last `n` elements, or all of them. */
  function LastN<T>(s: seq<T>, n: nat): (last: seq<T>)
    ensures |last| <= n
  {
    if |s| <= n then s else s[|s| - n..]
  }

  /** The first `n` elements, or all of them. */
  function FirstN<T>(s: seq<T>, n: nat): (first: seq<T>)
    ensures |first| <= n
  {
    if |s| <= n then s else s[..n]
  }

  function Map<S, T>(f: S -> T, s: seq<S>): (t: seq<T>)
    ensures |t| == |s|
    ensures forall i | 0 <= i < |s| :: t[i] == f(s[i])
  {
    seq(|s|, i requires 0 <= i < |s| => f(s[i]))
  }

  predicate Distinct<T(==)>(s: seq<T>) {
    forall i, j | 0 <= i < j < |s| :: s[i] != s[j]
  }

  lemma MapAppend<S, T>(f: S -> T, s: seq<S>, t: seq<S>)
    ensures Map(f, s + t) == Map(f, s) + Map(f, t)
  {
  }

  lemma MapWithout<S, T>(f: S -> T, s: seq<S>, k: nat)
    requires k < |s|
    ensures Map(f, Without(s, k)) == Without(Map(f, s), k)
  {
  }

  lemma WithoutMultiset<T>(s: seq<T>, k: nat)
    requires k < |s|
    ensures multiset(s) == multiset(Without(s, k)) + multiset{s[k]}
  {
    assert s == s[..k] + [s[k]] + s[k + 1..];
  }

  /** An element of a sequence without duplicates occurs once in it. */
  lemma {:induction false} DistinctCount<T>(s: seq<T>, x: T)
    requires Distinct(s)
    ensures multiset(s)[x] == if x in s then 1 else 0
  {
    if s != [] {
      var n := |s| - 1;
      assert s == s[..n] + [s[n]];
      DistinctCount(s[..n], x);
    }
  }

  /** Counting each element at most once is having no duplicates. */
  lemma CountedOnceIsDistinct<T>(s: seq<T>)
    requires forall x <- s :: multiset(s)[x] <= 1
    ensures Distinct(s)
  {
    forall i, j | 0 <= i < j < |s|
      ensures s[i] != s[j]
    {
      var head, tail := s[..j], s[j..];
      assert s == head + tail && s[i] == head[i] && s[j] == tail[0];
      assert multiset(head)[s[i]] >= 1 && multiset(tail)[s[j]] >= 1;
      assert multiset(s)[s[i]] == multiset(head)[s[i]] + multiset(tail)[s[i]];
      assert s[i] in s && multiset(s)[s[i]] <= 1;
    }
  }

  lemma {:induction false} LastNAppend<T>(s: seq<T>, x: T, n: nat)
    requires n > 0
    ensures var last := LastN(s, n);
            LastN(s + [x], n) == (if |last| >= n then last[1..] else last) + [x]
  {
  }

  /** With all but one element rejected, `Keep` drops just that one. */
  lemma {:induction false} KeepAllButOne<T>(s: seq<T>, f: T -> bool, k: nat)
    requires k < |s| && forall i | 0 <= i < |s| :: f(s[i]) <==> i != k
    ensures Keep(s, f) == Without(s, k)
  {
    var n := |s| - 1;
    var init := s[..n];
    if k == n {
      KeepAll(init, f);
      assert Without(s, k) == init;
    } else {
      assert forall i | 0 <= i < n :: init[i] == s[i];
      KeepAllButOne(init, f, k);
      assert Keep(s, f) == Keep(init, f) + [s[n]];
      assert Without(s, k) == Without(init, k) + [s[n]];
    }
  }

  lemma {:induction false} KeepAll<T>(s: seq<T>, f: T -> bool)
    requires forall x <- s :: f(x)
    ensures Keep(s, f) == s
  {
    if s != [] {
      KeepAll(s[..|s| - 1], f);
    }
  }
}
