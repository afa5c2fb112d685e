/** However they are interleaved, the ten threads finish: every run is bounded and none gets stuck. */
module GoldbachEnds {
  import opened Sums
  import opened Goldbach
  import opened GoldbachThreads

  /** The inner iterations a thread has left on its present n; a load and its store count two. */
  function RowLeft(t: Thread): nat {
    2 * (if t.p1 <= t.n / 2 then t.n / 2 + 1 - t.p1 else 0) + if t.loaded then 0 else 1
  }

  function ThreadLeft(maxN: nat): Thread -> nat {
    (t: Thread) => if t.n > maxN then 0 else Times(maxN + 1 - t.n, maxN + 6) + RowLeft(t)
  }

  function Work(maxN: nat, s: State): nat { Sum(ThreadLeft(maxN), s.threads) }

  lemma NextRowLess(maxN: nat, t: Thread)
    requires t.n <= maxN && !t.loaded
    ensures ThreadLeft(maxN)(t.(n := t.n + 2, p1 := 2)) < ThreadLeft(maxN)(t)
  {
    var k := maxN + 6;
    if t.n + 2 <= maxN {
      assert Times(maxN + 1 - t.n, k) == k + Times(maxN - t.n, k);
      assert Times(maxN - t.n, k) == k + Times(maxN - t.n - 1, k);
    }
  }

  /** One step of a thread on its own. */
  lemma ThreadStepLess(maxN: nat, t: Thread, t': Thread)
    requires t.n <= maxN && 2 <= t.p1 <= t.n / 2 + 1
    requires
      || (!t.loaded && t' == t.(n := t.n + 2, p1 := 2))
      || (!t.loaded && t'.loaded && t'.n == t.n && t'.p1 == t.p1)
      || (t.p1 <= t.n / 2 && !t'.loaded && t'.n == t.n && t'.p1 == t.p1 + 1)
    ensures ThreadLeft(maxN)(t') < ThreadLeft(maxN)(t)
  {
    if t'.n != t.n { NextRowLess(maxN, t); }
  }

  lemma StepWork(maxN: nat, s: State, i: nat, s': State)
    requires Inv(maxN, s) && Step(maxN, s, i, s')
    ensures Work(maxN, s') < Work(maxN, s)
  {
    assert ThreadInv(maxN, s, i);
    ThreadStepLess(maxN, s.threads[i], s'.threads[i]);
    SumUpdate(ThreadLeft(maxN), s.threads, i, s'.threads[i]);
  }

  lemma {:induction false} RunWork(maxN: nat, trace: seq<State>, who: seq<nat>)
    requires Run(maxN, trace, who)
    ensures |who| + Work(maxN, trace[|who|]) <= Work(maxN, trace[0])
  {
    if who != [] {
      var n := |who| - 1;
      RunWork(maxN, trace[..|who|], who[..n]);
      RunInv(maxN, trace, who, n);
      StepWork(maxN, trace[n], who[n], trace[n + 1]);
    }
  }

  /** A thread within its range always has a step to take: its cell exists. */
  lemma RunningSteps(maxN: nat, s: State, i: nat)
    requires Inv(maxN, s) && Running(maxN, s, i)
    ensures exists s' :: Step(maxN, s, i, s')
  {
    assert ThreadInv(maxN, s, i);
    var t := s.threads[i];
    var s' :=
      if t.loaded then
        State(s.gbCount[t.n / 2 := t.register + 1], s.threads[i := Thread(t.n, t.p1 + 1, false, t.register)])
      else if t.p1 > t.n / 2 then s.(threads := s.threads[i := t.(n := t.n + 2, p1 := 2)])
      else if IsPair(t.n, t.p1) then
        s.(threads := s.threads[i := t.(loaded := true, register := s.gbCount[t.n / 2])])
      else s.(threads := s.threads[i := t.(p1 := t.p1 + 1)]);
    assert Step(maxN, s, i, s');
  }

  /**
   Every run of the ten threads is at most as long as the work there was at its start, and a run that
   can go no further has put in each cell the number of prime pairs p1 <= p2 with p1 + p2 = n.
   */
  lemma ParallelCountsAll(maxN: nat, trace: seq<State>, who: seq<nat>)
    requires Run(maxN, trace, who)
    ensures |who| <= Work(maxN, trace[0])
    ensures var last := trace[|who|];
      |last.gbCount| == maxN / 2 + 1
      && ((forall i: nat, s' :: !Step(maxN, last, i, s')) ==>
            forall m :: 2 <= m < |last.gbCount| ==> last.gbCount[m] == GoldbachCount(2 * m))
  {
    RunWork(maxN, trace, who);
    RunInv(maxN, trace, who, |who|);
    var last := trace[|who|];
    if forall i: nat, s' :: !Step(maxN, last, i, s') {
      forall i: nat ensures !Running(maxN, last, i) {
        if Running(maxN, last, i) { RunningSteps(maxN, last, i); }
      }
      forall m | 2 <= m < |last.gbCount| ensures last.gbCount[m] == GoldbachCount(2 * m) {
        ParallelIsSequential(maxN, trace, who, 2 * m);
      }
    }
  }
}
