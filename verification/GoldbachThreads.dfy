/**
 The ten compute_goldbach threads interleaved at any point. gb_count[n/2]++ is a load and a
 separate store, so two threads sharing a cell could lose counts; the ranges see that none do.
 */
module GoldbachThreads {
  import opened Goldbach

  /** The loop variables of one thread; loaded means between the load and the store of its increment. */
  datatype Thread = Thread(n: nat, p1: nat, loaded: bool, register: int)

  datatype State = State(gbCount: seq<int>, threads: seq<Thread>)

  ghost predicate Init(maxN: nat, s: State) {
    && |s.gbCount| == maxN / 2 + 1 && (forall m :: 0 <= m < |s.gbCount| ==> s.gbCount[m] == 0)
    && |s.threads| == THREADS
    && forall i :: 0 <= i < THREADS ==> s.threads[i] == Thread(StartOf(maxN, i), 2, false, 0)
  }

  predicate Running(maxN: nat, s: State, i: nat) {
    i < |s.threads| && s.threads[i].n <= EndOf(maxN, i)
  }

  /** One step of thread i: a store, the next n, a load, or the next p1. */
  ghost predicate Step(maxN: nat, s: State, i: nat, s': State) {
    && Running(maxN, s, i)
    && var t := s.threads[i];
       if t.loaded then
         && t.n / 2 < |s.gbCount|
         && s' == State(s.gbCount[t.n / 2 := t.register + 1], s.threads[i := Thread(t.n, t.p1 + 1, false, t.register)])
       else if t.p1 > t.n / 2 then
         s' == s.(threads := s.threads[i := t.(n := t.n + 2, p1 := 2)])
       else if IsPair(t.n, t.p1) then
         && t.n / 2 < |s.gbCount|
         && s' == s.(threads := s.threads[i := t.(loaded := true, register := s.gbCount[t.n / 2])])
       else
         s' == s.(threads := s.threads[i := t.(p1 := t.p1 + 1)])
  }

  ghost predicate Run(maxN: nat, trace: seq<State>, who: seq<nat>) {
    && |trace| == |who| + 1
    && Init(maxN, trace[0])
    && forall k :: 0 <= k < |who| ==> Step(maxN, trace[k], who[k], trace[k + 1])
  }

  // ---- the invariant

  ghost predicate ThreadInv(maxN: nat, s: State, i: nat)
    requires i < |s.threads|
  {
    var t := s.threads[i];
    && t.n % 2 == 0 && StartOf(maxN, i) <= t.n
    && 2 <= t.p1 <= t.n / 2 + 1
    && (t.loaded ==>
          && t.n <= EndOf(maxN, i) && t.p1 <= t.n / 2 < |s.gbCount| && IsPair(t.n, t.p1)
          && t.register == s.gbCount[t.n / 2])
  }

  /** What the cell of number k, owned by thread t, holds so far. */
  function SoFar(t: Thread, k: nat): nat
    requires t.n >= 2 && t.p1 <= t.n / 2 + 1
  {
    if k < t.n then GoldbachCount(k) else if k == t.n then Count(k, t.p1) else 0
  }

  ghost predicate CellInv(maxN: nat, s: State, i: nat, m: nat)
    requires i < |s.threads| && m < |s.gbCount| && ThreadInv(maxN, s, i)
  {
    InRange(2 * m, StartOf(maxN, i), EndOf(maxN, i)) ==> s.gbCount[m] == SoFar(s.threads[i], 2 * m)
  }

  ghost predicate Inv(maxN: nat, s: State) {
    && |s.gbCount| == maxN / 2 + 1
    && |s.threads| == THREADS
    && (forall i :: 0 <= i < THREADS ==> ThreadInv(maxN, s, i))
    && (forall i, m :: 0 <= i < THREADS && 0 <= m < |s.gbCount| ==> CellInv(maxN, s, i, m))
  }

  lemma InitInv(maxN: nat, s: State)
    requires Init(maxN, s)
    ensures Inv(maxN, s)
  {
    forall i | 0 <= i < THREADS ensures ThreadInv(maxN, s, i) {
      StartEven(maxN, i);
      StartsAtFour(maxN, i);
    }
    forall i, m | 0 <= i < THREADS && 0 <= m < |s.gbCount| ensures CellInv(maxN, s, i, m) {
      SmallNotPaired(StartOf(maxN, i));
    }
  }

  lemma {:induction false} StartsAtFour(maxN: nat, i: nat)
    ensures StartOf(maxN, i) >= 4
  {
    if i > 0 { StartsAtFour(maxN, i - 1); }
  }

  /** A number in thread i's range is in nobody else's. */
  lemma RangesDisjoint(maxN: nat, i: nat, j: nat, n: int)
    requires i != j && InRange(n, StartOf(maxN, i), EndOf(maxN, i))
    ensures !InRange(n, StartOf(maxN, j), EndOf(maxN, j))
  {
    if i < j { StartsApart(maxN, i, j); } else { StartsApart(maxN, j, i); }
  }

  lemma StepThread(maxN: nat, s: State, i: nat, s': State, j: nat)
    requires Inv(maxN, s) && Step(maxN, s, i, s') && j < THREADS
    ensures |s'.threads| == THREADS && |s'.gbCount| == |s.gbCount| && ThreadInv(maxN, s', j)
  {
    assert ThreadInv(maxN, s, i) && ThreadInv(maxN, s, j);
    var t, u := s.threads[i], s.threads[j];
    if i != j && t.loaded && u.loaded && t.n / 2 == u.n / 2 {
      RangesDisjoint(maxN, i, j, t.n);
    }
  }

  lemma StepCell(maxN: nat, s: State, i: nat, s': State, j: nat, m: nat)
    requires Inv(maxN, s) && Step(maxN, s, i, s') && j < THREADS && m < |s.gbCount|
    ensures |s'.threads| == THREADS && |s'.gbCount| == |s.gbCount| && ThreadInv(maxN, s', j)
    ensures CellInv(maxN, s', j, m)
  {
    StepThread(maxN, s, i, s', j);
    assert ThreadInv(maxN, s, i) && ThreadInv(maxN, s, j) && CellInv(maxN, s, j, m);
    var t := s.threads[i];
    if i != j {
      if t.loaded && m == t.n / 2 { RangesDisjoint(maxN, i, j, t.n); }
    } else if !t.loaded && t.p1 > t.n / 2 {
      SmallNotPaired(t.n + 2);
    }
  }

  lemma StepInv(maxN: nat, s: State, i: nat, s': State)
    requires Inv(maxN, s) && Step(maxN, s, i, s')
    ensures Inv(maxN, s')
  {
    StepThread(maxN, s, i, s', i);
    forall j | 0 <= j < THREADS ensures ThreadInv(maxN, s', j) {
      StepThread(maxN, s, i, s', j);
    }
    forall j, m | 0 <= j < THREADS && 0 <= m < |s'.gbCount| ensures CellInv(maxN, s', j, m) {
      StepCell(maxN, s, i, s', j, m);
    }
  }

  lemma {:induction false} RunInv(maxN: nat, trace: seq<State>, who: seq<nat>, k: nat)
    requires Run(maxN, trace, who) && k < |trace|
    ensures Inv(maxN, trace[k])
  {
    if k == 0 {
      InitInv(maxN, trace[0]);
    } else {
      RunInv(maxN, trace, who, k - 1);
      StepInv(maxN, trace[k - 1], who[k - 1], trace[k]);
    }
  }

  /** However the threads interleave, when all are done every cell holds the sequential count. */
  lemma ParallelIsSequential(maxN: nat, trace: seq<State>, who: seq<nat>, n: nat)
    requires Run(maxN, trace, who) && n % 2 == 0 && 4 <= n <= maxN
    requires forall i: nat :: !Running(maxN, trace[|who|], i)
    ensures |trace[|who|].gbCount| == maxN / 2 + 1
    ensures trace[|who|].gbCount[n / 2] == GoldbachCount(n)
  {
    RunInv(maxN, trace, who, |who|);
    var s := trace[|who|];
    var owner := RangesPartition(maxN, n);
    assert ThreadInv(maxN, s, owner) && CellInv(maxN, s, owner, n / 2);
    assert !Running(maxN, s, owner);
  }

  /** No two threads are ever about to write the same cell. */
  lemma CellsDisjoint(maxN: nat, trace: seq<State>, who: seq<nat>, k: nat, i: nat, j: nat)
    requires Run(maxN, trace, who) && k < |trace| && i != j
    requires Running(maxN, trace[k], i) && Running(maxN, trace[k], j)
    ensures trace[k].threads[i].n / 2 != trace[k].threads[j].n / 2
  {
    RunInv(maxN, trace, who, k);
    assert ThreadInv(maxN, trace[k], i) && ThreadInv(maxN, trace[k], j);
    RangesDisjoint(maxN, i, j, trace[k].threads[i].n);
  }
}
