/** Weighted sums over sequences: thread counts, termination measures. */
module Sums {

  function Sum<T>(f: T -> nat, s: seq<T>): nat {
    if s == [] then 0 else f(s[0]) + Sum(f, s[1..])
  }

  lemma {:induction false} SumUpdate<T>(f: T -> nat, s: seq<T>, i: nat, x: T)
    requires i < |s|
    ensures Sum(f, s[i := x]) == Sum(f, s) - f(s[i]) + f(x)
    ensures f(s[i]) <= Sum(f, s)
  {
    if i == 0 {
      assert s[i := x][1..] == s[1..];
    } else {
      assert s[i := x][1..] == s[1..][i - 1 := x];
      SumUpdate(f, s[1..], i - 1, x);
    }
  }

  /** n * k by repeated addition, so that proofs about measures stay linear. */
  function Times(n: nat, k: nat): nat {
    if n == 0 then 0 else k + Times(n - 1, k)
  }

  lemma {:induction false} TimesIsProduct(n: nat, k: nat)
    ensures Times(n, k) == n * k
  {
    if n > 0 {
      TimesIsProduct(n - 1, k);
      assert n * k == (n - 1) * k + k;
    }
  }

  lemma {:induction false} TimesOne(n: nat)
    ensures Times(n, 1) == n
  {
    TimesIsProduct(n, 1);
  }

  /** Pointwise growth of at most k grows the sum by at most k per element. */
  lemma {:induction false} SumGrowth<T>(f: T -> nat, s: seq<T>, g: T -> nat, t: seq<T>, k: nat)
    requires |s| == |t|
    requires forall i :: 0 <= i < |s| ==> g(t[i]) <= f(s[i]) + k
    ensures Sum(g, t) <= Sum(f, s) + Times(|s|, k)
  {
    if s != [] {
      assert g(t[0]) <= f(s[0]) + k;
      SumGrowth(f, s[1..], g, t[1..], k);
    }
  }

  lemma {:induction false} SumSame<T>(f: T -> nat, s: seq<T>, t: seq<T>)
    requires |s| == |t|
    requires forall i :: 0 <= i < |s| ==> f(s[i]) == f(t[i])
    ensures Sum(f, s) == Sum(f, t)
  {
    if s != [] {
      assert f(s[0]) == f(t[0]);
      SumSame(f, s[1..], t[1..]);
    }
  }

  /** Two different positions contribute separately. */
  lemma SumPair<T>(f: T -> nat, s: seq<T>, i: nat, j: nat)
    requires i < |s| && j < |s| && i != j
    ensures f(s[i]) + f(s[j]) <= Sum(f, s)
  {
    var lo, hi := if i < j then i else j, if i < j then j else i;
    SumSplit(f, s, hi);
    SumUpdate(f, s[..hi], lo, s[lo]);
    SumUpdate(f, s[hi..], 0, s[hi]);
  }

  lemma {:induction false} SumSplit<T>(f: T -> nat, s: seq<T>, n: nat)
    requires n <= |s|
    ensures Sum(f, s) == Sum(f, s[..n]) + Sum(f, s[n..])
  {
    if n == 0 {
      assert s[0..] == s;
    } else {
      SumSplit(f, s[1..], n - 1);
      assert s[..n][1..] == s[1..][..n - 1];
      assert s[n..] == s[1..][n - 1..];
    }
  }

  lemma {:induction false} SumZero<T>(f: T -> nat, s: seq<T>)
    ensures Sum(f, s) == 0 <==> forall i :: 0 <= i < |s| ==> f(s[i]) == 0
  {
    if s != [] {
      SumZero(f, s[1..]);
      assert forall i :: 0 <= i < |s| - 1 ==> s[1..][i] == s[i + 1];
      if forall i :: 0 <= i < |s| ==> f(s[i]) == 0 {
        assert f(s[0]) == 0;
        assert forall i :: 0 <= i < |s[1..]| ==> f(s[1..][i]) == 0;
      } else {
        var i :| 0 <= i < |s| && f(s[i]) != 0;
        if i != 0 { assert s[1..][i - 1] == s[i]; }
      }
    }
  }
}
