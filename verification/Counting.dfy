/** Counting occurrences in a sequence, shared by the worker pools and the usage report. */
module Counting {
  function One(holds: bool): nat
  {
    if holds then 1 else 0
  }

  function Times<T(==)>(s: seq<T>, x: T): nat
  {
    if s == [] then 0 else One(s[0] == x) + Times(s[1..], x)
  }

  lemma {:induction false} TimesConcat<T>(a: seq<T>, b: seq<T>, x: T)
    ensures Times(a + b, x) == Times(a, x) + Times(b, x)
  {
    if a == [] {
      assert a + b == b;
    } else {
      assert (a + b)[1..] == a[1..] + b;
      TimesConcat(a[1..], b, x);
    }
  }

  lemma {:induction false} TimesZero<T>(s: seq<T>, x: T)
    ensures Times(s, x) == 0 <==> x !in s
  {
    if s != [] { TimesZero(s[1..], x); }
  }

  function Sum<T>(s: seq<T>, f: T -> nat): nat
  {
    if s == [] then 0 else f(s[0]) + Sum(s[1..], f)
  }

  lemma {:induction false} SumLast<T>(s: seq<T>, f: T -> nat)
    requires s != []
    ensures Sum(s, f) == Sum(s[..|s| - 1], f) + f(s[|s| - 1])
  {
    var n := |s| - 1;
    if n > 0 {
      SumLast(s[1..], f);
      assert s[1..][..n - 1] == s[..n][1..];
    }
  }

  /** The numbers below `n`. */
  function Below(n: nat): (below: set<nat>)
    ensures |below| == n && forall i: nat :: i in below <==> i < n
  {
    if n == 0 then {} else Below(n - 1) + {n - 1}
  }

  lemma FewerThan(few: set<nat>, n: nat)
    requires forall i | i in few :: i < n
    ensures |few| <= n
  {
    assert Below(n) == few + (Below(n) - few);
  }
}
