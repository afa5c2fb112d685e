/** Counting Goldbach pairs: what one thread computes and how the even numbers are dealt to ten threads. */
module Goldbach {
  import opened Sieve
  import opened Sums

  const THREADS: nat := 10

  /** The pairs (p1, n - p1) found by the inner loop before p1 reaches hi. */
  ghost function PairsBelow(n: nat, hi: nat): set<(nat, nat)>
    requires hi <= n + 1
  {
    set p: nat | p < hi && IsPair(n, p) :: (p, n - p)
  }

  predicate IsPair(n: nat, p: nat) { p <= n && Prime(p) && Prime(n - p) }

  /** The number of times the inner loop counts before p1 reaches hi. */
  function Count(n: nat, hi: nat): nat
    requires hi <= n + 1
  {
    if hi == 0 then 0 else Count(n, hi - 1) + if IsPair(n, hi - 1) then 1 else 0
  }

  /** What gb_count[n/2] should become. */
  function GoldbachCount(n: nat): nat {
    Count(n, n / 2 + 1)
  }

  lemma {:induction false} CountIsCardinality(n: nat, hi: nat)
    requires hi <= n + 1
    ensures Count(n, hi) == |PairsBelow(n, hi)|
  {
    if hi == 0 {
      assert PairsBelow(n, 0) == {};
    } else {
      CountIsCardinality(n, hi - 1);
      var more := if IsPair(n, hi - 1) then {(hi - 1, n - (hi - 1))} else {};
      assert PairsBelow(n, hi) == PairsBelow(n, hi - 1) + more;
      assert (hi - 1, n - (hi - 1)) !in PairsBelow(n, hi - 1);
    }
  }

  ghost predicate GoldbachPair(n: nat, a: (nat, nat)) {
    Prime(a.0) && Prime(a.1) && a.0 <= a.1 && a.0 + a.1 == n
  }

  /** It is the number of pairs of primes p1 <= p2 with p1 + p2 = n. */
  lemma CountsGoldbachPairs(n: nat) returns (pairs: set<(nat, nat)>)
    ensures forall a :: a in pairs <==> GoldbachPair(n, a)
    ensures GoldbachCount(n) == |pairs|
  {
    pairs := PairsBelow(n, n / 2 + 1);
    CountIsCardinality(n, n / 2 + 1);
    forall a | GoldbachPair(n, a) ensures a in pairs {
      assert a == (a.0, n - a.0) && IsPair(n, a.0);
    }
  }

  ghost predicate SieveTable(primes: seq<bool>, maxN: nat) {
    |primes| == maxN + 1 && forall i :: 0 <= i <= maxN ==> (primes[i] <==> Prime(i))
  }

  lemma SmallNotPaired(n: nat)
    requires n >= 2
    ensures Count(n, 2) == 0
  {
    assert Count(n, 1) == Count(n, 0) + 0;
  }

  predicate InRange(n: int, start: int, end: int) { start <= n <= end && n % 2 == 0 }

  /** compute_goldbach run alone: every even n of its range gets its count added, no other cell changes. */
  method ComputeGoldbach(primes: array<bool>, gbCount: array<int>, start: nat, end: nat, maxN: nat)
    requires SieveTable(primes[..], maxN) && gbCount.Length == maxN / 2 + 1
    requires start % 2 == 0 && 4 <= start && end <= maxN
    modifies gbCount
    ensures forall m :: 0 <= m < gbCount.Length ==>
      gbCount[m] == old(gbCount[m]) + if InRange(2 * m, start, end) then GoldbachCount(2 * m) else 0
  {
    var n := start;
    while n <= end
      invariant start <= n && n % 2 == 0
      invariant forall m :: 0 <= m < gbCount.Length ==>
        gbCount[m] == old(gbCount[m]) + if InRange(2 * m, start, end) && 2 * m < n then GoldbachCount(2 * m) else 0
      decreases end + 1 - n
    {
      SmallNotPaired(n);
      var p1 := 2;
      while p1 <= n / 2
        invariant 2 <= p1 <= n / 2 + 1
        invariant forall m :: 0 <= m < gbCount.Length ==>
          gbCount[m] == old(gbCount[m])
            + (if InRange(2 * m, start, end) && 2 * m < n then GoldbachCount(2 * m) else 0)
            + (if 2 * m == n then Count(n, p1) else 0)
      {
        var p2 := n - p1;
        assert primes[p1] == primes[..][p1] && primes[p2] == primes[..][p2];
        if primes[p1] && primes[p2] {
          gbCount[n / 2] := gbCount[n / 2] + 1;
        }
        p1 := p1 + 1;
      }
      n := n + 2;
    }
  }

  // ---- dealing out the even numbers

  /** maxN / 10, made even. */
  function RangeSize(maxN: nat): (r: nat)
    ensures r % 2 == 0 && maxN / THREADS <= r <= maxN / THREADS + 1
    ensures THREADS * r + THREADS > maxN
  {
    var range := maxN / THREADS;
    if range % 2 == 1 then range + 1 else range
  }

  /** The first number of thread i. */
  function StartOf(maxN: nat, i: nat): nat {
    if i == 0 then 4 else StartOf(maxN, i - 1) + RangeSize(maxN) + 2
  }

  function Min(a: nat, b: nat): nat { if a < b then a else b }

  function EndOf(maxN: nat, i: nat): nat { Min(maxN, StartOf(maxN, i) + RangeSize(maxN)) }

  function Endpoints(maxN: nat, i: nat): (nat, nat) { (StartOf(maxN, i), EndOf(maxN, i)) }

  /** The loop that fills endpoints[][] and starts thread i on endpoints[i]. */
  method SplitRanges(maxN: nat) returns (endpoints: seq<(nat, nat)>)
    ensures |endpoints| == THREADS
    ensures forall i :: 0 <= i < THREADS ==> endpoints[i] == Endpoints(maxN, i)
  {
    var range := maxN / 10;
    if range % 2 == 1 {
      range := range + 1;
    }
    assert range == RangeSize(maxN);
    var start := 4;
    endpoints := [];
    for i := 0 to THREADS
      invariant |endpoints| == i && start == StartOf(maxN, i)
      invariant forall k :: 0 <= k < i ==> endpoints[k] == Endpoints(maxN, k)
    {
      endpoints := endpoints + [(start, Min(maxN, start + range))];
      assert endpoints[i] == Endpoints(maxN, i);
      start := start + range + 2;
    }
  }

  lemma {:induction false} StartsApart(maxN: nat, i: nat, j: nat)
    requires i < j
    ensures StartOf(maxN, i) + RangeSize(maxN) + 2 <= StartOf(maxN, j)
  {
    if i < j - 1 { StartsApart(maxN, i, j - 1); }
  }

  lemma {:induction false} StartEven(maxN: nat, i: nat)
    ensures StartOf(maxN, i) % 2 == 0
  {
    if i > 0 { StartEven(maxN, i - 1); }
  }

  lemma {:induction false} StartIs(maxN: nat, i: nat)
    ensures StartOf(maxN, i) == 4 + Times(i, RangeSize(maxN) + 2)
  {
    if i > 0 { StartIs(maxN, i - 1); }
  }

  /** The ranges in numbers: a tenth of maxN made even, one after the other from 4, two apart, up to maxN. */
  lemma EndpointsExactly(maxN: nat, i: nat)
    ensures var r := maxN / 10 + (maxN / 10) % 2;
      && StartOf(maxN, i) == 4 + i * (r + 2)
      && EndOf(maxN, i) == if StartOf(maxN, i) + r < maxN then StartOf(maxN, i) + r else maxN
  {
    StartIs(maxN, i);
    TimesIsProduct(i, RangeSize(maxN) + 2);
  }

  lemma LastStart(maxN: nat)
    ensures StartOf(maxN, THREADS) > maxN
  {
    StartIs(maxN, THREADS);
    TimesIsProduct(THREADS, RangeSize(maxN) + 2);
  }

  /** Whose range n falls in, searching down from thread i. */
  lemma {:induction false} FindOwner(maxN: nat, n: nat, i: nat) returns (owner: nat)
    requires n % 2 == 0 && 4 <= n <= maxN && n < StartOf(maxN, i + 1)
    ensures owner <= i && InRange(n, StartOf(maxN, owner), EndOf(maxN, owner))
  {
    StartEven(maxN, i);
    if n >= StartOf(maxN, i) {
      owner := i;
    } else {
      owner := FindOwner(maxN, n, i - 1);
    }
  }

  /** Every even n from 4 to maxN lies in exactly one of the ten ranges. */
  lemma RangesPartition(maxN: nat, n: nat) returns (owner: nat)
    requires n % 2 == 0 && 4 <= n <= maxN
    ensures owner < THREADS && InRange(n, StartOf(maxN, owner), EndOf(maxN, owner))
    ensures forall j: nat :: j != owner ==> !InRange(n, StartOf(maxN, j), EndOf(maxN, j))
  {
    LastStart(maxN);
    owner := FindOwner(maxN, n, THREADS - 1);
    forall j: nat | j != owner ensures !InRange(n, StartOf(maxN, j), EndOf(maxN, j)) {
      if j < owner { StartsApart(maxN, j, owner); } else { StartsApart(maxN, owner, j); }
    }
  }
}
