/** The sieve of Eratosthenes: marking starts at p*p and stops at the square root. */
module Sieve {
  import opened ModArith

  /** p divides i, by repeated subtraction. */
  predicate Multiple(p: nat, i: nat)
    decreases i
  {
    i == 0 || (0 < p <= i && Multiple(p, i - p))
  }

  predicate Prime(n: nat) {
    n >= 2 && forall d :: 2 <= d < n ==> !Multiple(d, n)
  }

  // ---- divisibility

  function Quotient(p: nat, i: nat): (m: nat)
    requires Multiple(p, i)
    ensures m * p == i
  {
    if i == 0 then 0 else Quotient(p, i - p) + 1
  }

  lemma {:induction false} MultipleOf(p: nat, k: nat)
    ensures Multiple(p, k * p)
  {
    if k > 0 && p > 0 {
      assert k * p - p == (k - 1) * p;
      MultipleOf(p, k - 1);
    }
  }

  /** Repeated subtraction is divisibility in the usual sense. */
  lemma MultipleIsDivisible(p: nat, i: nat)
    requires p > 0
    ensures Multiple(p, i) <==> i % p == 0
  {
    if Multiple(p, i) { ModUnique(i, Quotient(p, i), 0, p); }
    if i % p == 0 {
      assert i == (i / p) * p;
      MultipleOf(p, i / p);
    }
  }

  /** Multiples of p are at least p apart. */
  lemma {:induction false} Spacing(p: nat, a: nat, b: nat)
    requires Multiple(p, a) && Multiple(p, b) && a < b
    ensures b - a >= p
    decreases a
  {
    if a > 0 { Spacing(p, a - p, b - p); }
  }

  lemma Transitive(e: nat, d: nat, n: nat)
    requires Multiple(e, d) && Multiple(d, n)
    ensures Multiple(e, n)
  {
    var a, b := Quotient(e, d), Quotient(d, n);
    assert n == b * (a * e) == (b * a) * e;
    MultipleOf(e, b * a);
  }

  /** A composite number has a prime divisor no larger than its square root. */
  lemma SmallPrimeDivisor(n: nat) returns (d: nat)
    requires n >= 2 && !Prime(n)
    ensures 2 <= d < n && Multiple(d, n) && Prime(d) && d * d <= n
  {
    var some :| 2 <= some < n && Multiple(some, n);
    d := LeastDivisor(n, some);
    forall e | 2 <= e < d ensures !Multiple(e, d) {
      if Multiple(e, d) { Transitive(e, d, n); }
    }
    var m := Quotient(d, n);
    assert n == d * m;
    MultipleOf(m, d);
    Cofactor(d, m);
  }

  lemma Cofactor(d: nat, m: nat)
    requires 2 <= d < m * d && (2 <= m < m * d ==> m >= d)
    ensures d * d <= m * d
  {
    assert m >= 2;
    assert m < m * d;
  }

  lemma {:induction false} LeastDivisor(n: nat, d: nat) returns (least: nat)
    requires 2 <= d < n && Multiple(d, n)
    ensures 2 <= least <= d && Multiple(least, n)
    ensures forall e :: 2 <= e < least ==> !Multiple(e, n)
    decreases d
  {
    if e :| 2 <= e < d && Multiple(e, n) {
      least := LeastDivisor(n, e);
    } else {
      least := d;
    }
  }

  // ---- the sieve

  /** j has been struck out by some prime below p. */
  ghost predicate Struck(p: nat, j: nat) {
    exists q :: 2 <= q < p && StruckBy(q, j)
  }

  predicate StruckBy(q: nat, j: nat) {
    Prime(q) && q * q <= j && Multiple(q, j)
  }

  lemma SquareOrder(d: nat, p: nat)
    ensures d >= p ==> d * d >= p * p
  {
  }

  /** Struck numbers are composite, and once p passes the square root every composite is struck. */
  lemma StruckIsComposite(p: nat, j: nat)
    requires j >= 2
    ensures Struck(p, j) ==> !Prime(j)
    ensures j < p * p && !Prime(j) ==> Struck(p, j)
  {
    if Struck(p, j) {
      var q :| 2 <= q < p && StruckBy(q, j);
      assert q < q * q;
    } else if j < p * p && !Prime(j) {
      var d := SmallPrimeDivisor(j);
      SquareOrder(d, p);
      assert StruckBy(d, j);
    }
  }

  lemma StruckNext(p: nat, j: nat)
    requires p >= 2
    ensures Struck(p + 1, j) <==> Struck(p, j) || StruckBy(p, j)
  {
    if StruckBy(p, j) { assert 2 <= p < p + 1; }
  }

  /** After the loops, primes[i] is true exactly when i is prime. */
  method SievePrimes(maxN: nat) returns (primes: array<bool>)
    requires maxN >= 1
    ensures fresh(primes) && primes.Length == maxN + 1
    ensures forall i :: 0 <= i <= maxN ==> (primes[i] <==> Prime(i))
  {
    primes := new bool[maxN + 1](i => true);
    primes[0], primes[1] := false, false;
    var p := 2;
    while p * p <= maxN
      invariant p >= 2 && !primes[0] && !primes[1]
      invariant forall j :: 2 <= j <= maxN ==> (primes[j] <==> !Struck(p, j))
      decreases maxN + 1 - p
    {
      assert p < p * p;
      StruckIsComposite(p, p);
      if primes[p] {
        StrikeOut(primes, p);
      }
      forall j | 2 <= j <= maxN ensures primes[j] <==> !Struck(p + 1, j) { StruckNext(p, j); }
      p := p + 1;
    }
    forall i | 2 <= i <= maxN ensures primes[i] <==> Prime(i) { StruckIsComposite(p, i); }
  }

  /** The inner loop: multiples of p from p*p on. */
  method StrikeOut(primes: array<bool>, p: nat)
    requires p >= 2 && p * p < primes.Length
    modifies primes
    ensures forall j :: 0 <= j < primes.Length ==>
      primes[j] == (old(primes[j]) && !(p * p <= j && Multiple(p, j)))
  {
    var i := p * p;
    MultipleOf(p, p);
    while i < primes.Length
      invariant p * p <= i && Multiple(p, i)
      invariant forall j :: 0 <= j < primes.Length ==>
        primes[j] == (old(primes[j]) && !(p * p <= j < i && Multiple(p, j)))
      decreases primes.Length - i
    {
      primes[i] := false;
      forall j | i < j < i + p ensures !Multiple(p, j) {
        if Multiple(p, j) { Spacing(p, i, j); }
      }
      i := i + p;
    }
  }

  /** The program's prime_count loop: the primes up to maxN, counted. */
  method CountPrimes(primes: array<bool>, maxN: nat) returns (count: nat)
    requires primes.Length == maxN + 1 && forall i :: 0 <= i <= maxN ==> (primes[i] <==> Prime(i))
    ensures count == |set p | 2 <= p <= maxN && Prime(p)|
  {
    count := 0;
    var p := 2;
    ghost var found: set<int> := {};
    while p <= maxN
      invariant 2 <= p && (p <= maxN + 1 || maxN < 2)
      invariant found == set q | 2 <= q < p && q <= maxN && Prime(q)
      invariant count == |found|
    {
      if primes[p] {
        count := count + 1;
        found := found + {p};
      }
      p := p + 1;
    }
    assert found == set q | 2 <= q <= maxN && Prime(q);
  }
}
