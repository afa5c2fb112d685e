/** Deadlock freedom, termination and exactly-once delivery of the master-worker program. */
module MasterWorkerTheorems {
  import opened Sums
  import opened MasterWorkerModel
  import opened MasterWorkerProofs

  // ---- deadlock freedom

  /** The configurations whose runs can only stop with every thread returned. */
  predicate Healthy(c: Config) {
    (c.numMasters > 0 && c.maxBufSize > 0) || (c.numMasters == 0 && c.totalItems <= 0)
  }

  /** While some worker is left, the one whose turn it is has not returned. */
  lemma TurnHolderPresent(c: Config, s: State)
    requires Inv(c, s) && exists w :: 0 <= w < |s.workers| && !s.workers[w].WReturned?
    ensures !s.workers[s.workerTurn].WReturned?
  {
    assert s.workerTurn < |s.workers|;
    var w :| 0 <= w < |s.workers| && !s.workers[w].WReturned?;
    assert Behind(c.numWorkers, s.workerTurn, w) > Exits(s);
    assert Behind(c.numWorkers, s.workerTurn, s.workerTurn) == c.numWorkers;
  }

  /** Deadlock freedom: in a healthy configuration an unreturned thread means a runnable one. */
  lemma NoDeadlock(c: Config, s: State)
    requires Inv(c, s) && Healthy(c) && !AllReturned(s)
    ensures Runnable(s)
  {
    if exists w :: 0 <= w < |s.workers| && !s.workers[w].WReturned? {
      TurnHolderPresent(c, s);
      if !WorkerReady(s.workers, s.workerTurn) {
        assert s.workers[s.workerTurn] == WItem(false);
        SleepingMasterIsCovered(c, s, 0);
      }
    } else {
      NobodyLeft(c, s);
      var m :| 0 <= m < |s.masters| && !s.masters[m].MReturned?;
      SleepingMasterIsCovered(c, s, m);
    }
  }

  /** With room in the buffer, an unreturned master means a runnable one, itself or the signalled one. */
  lemma SleepingMasterIsCovered(c: Config, s: State, m: nat)
    requires Inv(c, s) && s.buffer == [] && c.maxBufSize > 0
    requires m < |s.masters| && !s.masters[m].MReturned?
    ensures MastersRunnable(s.masters)
  {
    if s.masters[m] == MWait(false) {
      var k :| 0 <= k < |s.masters| && s.masters[k] == MWait(true);
      assert MasterReady(s.masters, k);
    } else {
      assert MasterReady(s.masters, m) || s.masters[m] == MTest;
    }
  }

  /** Everything can have returned only in a healthy configuration. */
  lemma DoneMeansHealthy(c: Config, s: State)
    requires Inv(c, s) && AllReturned(s)
    ensures Healthy(c)
  {
    NobodyLeft(c, s);
    if c.numMasters > 0 { assert s.masters[0].MReturned?; }
  }

  /** Once all workers are gone nothing is buffered and nothing is left to produce. */
  lemma NobodyLeft(c: Config, s: State)
    requires Inv(c, s) && forall w :: 0 <= w < |s.workers| ==> s.workers[w].WReturned?
    ensures s.buffer == [] && s.itemToProduce >= c.totalItems
  {
    assert Gone(s.workers[0]) == 1;
    SumZero(Gone, s.workers);
  }

  /** A master that is awake really has a step to take. */
  lemma MasterCanRun(c: Config, s: State, m: nat)
    requires m < |s.masters|
    ensures s.masters[m] == MTest ==> exists s' :: Step(c, s, TestMaster(m), s')
    ensures MasterReady(s.masters, m) ==> exists s' :: Step(c, s, RunMaster(m), s')
  {
    if s.masters[m] == MTest {
      var s' := s.(masters := s.masters[m := if s.itemToProduce >= c.totalItems then MReturned else MEnter]);
      assert Step(c, s, TestMaster(m), s');
    } else if MasterReady(s.masters, m) {
      var ms := SomeSignal(s.masters[m := MTest]);
      var s' := if |s.buffer| == c.maxBufSize then s.(masters := s.masters[m := MWait(false)])
                else Produce(c, s, m).(workers := Broadcast(s.workers), masters := ms);
      assert Step(c, s, RunMaster(m), s');
    }
  }

  /** So does a worker. */
  lemma WorkerCanRun(c: Config, s: State, w: nat)
    requires Inv(c, s) && WorkerReady(s.workers, w)
    ensures exists s' :: Step(c, s, RunWorker(w), s')
  {
    var ms := SomeSignal(s.masters);
    var last := |s.buffer| - 1;
    var s' := match WorkerOutcome(c, s, w)
      case AwaitTurn => s.(workers := s.workers[w := WTurn(false)])
      case Take => State(s.buffer[..last], s.itemToProduce, NextTurn(|s.workers|, s.workerTurn), ms,
                         Broadcast(s.workers[w := WEnter]), s.produced, s.consumed + [(s.buffer[last], w)])
      case Leave => s.(workerTurn := NextTurn(|s.workers|, s.workerTurn),
                       workers := Broadcast(s.workers[w := WReturned]))
      case AwaitItem => s.(workers := s.workers[w := WItem(false)]);
    assert Step(c, s, RunWorker(w), s');
  }

  /** A runnable thread really has a step to take. */
  lemma RunnableSteps(c: Config, s: State)
    requires Inv(c, s) && Runnable(s)
    ensures exists l: Label, s' :: !l.Spurious() && Step(c, s, l, s')
  {
    if m :| 0 <= m < |s.masters| && (MasterReady(s.masters, m) || s.masters[m] == MTest) {
      MasterCanRun(c, s, m);
      var l := if s.masters[m] == MTest then TestMaster(m) else RunMaster(m);
      var s' :| Step(c, s, l, s');
      assert !l.Spurious();
    } else {
      var w :| 0 <= w < |s.workers| && WorkerReady(s.workers, w);
      WorkerCanRun(c, s, w);
      var s' :| Step(c, s, RunWorker(w), s');
      assert !RunWorker(w).Spurious();
    }
  }

  lemma SomeSignal(ms: seq<Master>) returns (ms': seq<Master>)
    ensures Signal(ms, ms')
  {
    ms' := ms;
    if i :| 0 <= i < |ms| && ms[i] == MWait(false) { ms' := ms[i := MWait(true)]; }
  }

  // ---- termination

  function WorkerWeight(c: Config): Worker -> nat {
    (w: Worker) =>
      if w.WReturned? then 0
      else if w == WTurn(false) || w == WItem(false) then c.numWorkers + 1
      else c.numWorkers + 2
  }

  /** A master's weight; once nothing is left to produce, one more pass ends it. */
  function MasterWeight(c: Config, over: bool): Master -> nat {
    (m: Master) =>
      if m.MReturned? then 0
      else if !over then (if m == MWait(false) then 0 else if m == MTest then 2 else 1)
      else if m == MTest then 1
      else if m == MWait(false) then c.numWorkers + 3
      else c.numWorkers + 4
  }

  function ItemWeight(c: Config): nat { 2 * c.numWorkers + 6 + Times(c.numMasters, c.numWorkers + 4) }

  function Over(c: Config, s: State): bool { s.itemToProduce >= c.totalItems }

  function Measure(c: Config, s: State): nat
    requires s.itemToProduce <= Goal(c)
  {
    Times(Goal(c) - s.itemToProduce, ItemWeight(c)) + Times(|s.buffer|, c.numWorkers + 2)
    + Sum(MasterWeight(c, Over(c, s)), s.masters) + Sum(WorkerWeight(c), s.workers)
  }

  lemma BroadcastWeight(c: Config, ws: seq<Worker>)
    requires |ws| == c.numWorkers
    ensures Sum(WorkerWeight(c), Broadcast(ws)) <= Sum(WorkerWeight(c), ws) + c.numWorkers
  {
    SumGrowth(WorkerWeight(c), ws, WorkerWeight(c), Broadcast(ws), 1);
    TimesOne(c.numWorkers);
  }

  lemma SignalWeight(c: Config, over: bool, ms: seq<Master>, ms': seq<Master>)
    requires Signal(ms, ms')
    ensures |ms'| == |ms|
    ensures Sum(MasterWeight(c, over), ms') <= Sum(MasterWeight(c, over), ms) + 1
  {
    if i :| 0 <= i < |ms| && ms[i] == MWait(false) && ms' == ms[i := MWait(true)] {
      SumUpdate(MasterWeight(c, over), ms, i, MWait(true));
    }
  }

  lemma OverWeight(c: Config, over: bool, ms: seq<Master>)
    requires |ms| == c.numMasters
    ensures Sum(MasterWeight(c, over), ms)
         <= Sum(MasterWeight(c, false), ms) + Times(c.numMasters, c.numWorkers + 4)
  {
    SumGrowth(MasterWeight(c, false), ms, MasterWeight(c, over), ms, c.numWorkers + 4);
  }

  lemma StatusMeasure(c: Config, s: State, m: nat, st: Master)
    requires Shape(c, s) && m < |s.masters|
    ensures var f := MasterWeight(c, Over(c, s));
      Measure(c, s.(masters := s.masters[m := st])) == Measure(c, s) - f(s.masters[m]) + f(st)
  {
    SumUpdate(MasterWeight(c, Over(c, s)), s.masters, m, st);
  }

  /** What a critical section with room in the buffer does to the masters' part of the measure. */
  lemma MastersAfter(c: Config, s: State, s': State, m: nat)
    requires Shape(c, s) && MasterStep(c, s, s', m) && |s.buffer| != c.maxBufSize
    ensures
      var before := Sum(MasterWeight(c, Over(c, s)), s.masters);
      var after := Sum(MasterWeight(c, Over(c, s')), s'.masters);
      if Over(c, s) then after + c.numWorkers + 1 <= before
      else after <= before + 2 + if Over(c, s') then Times(c.numMasters, c.numWorkers + 4) else 0
  {
    var over, over' := Over(c, s), Over(c, s');
    var ms := s.masters[m := MTest];
    SumUpdate(MasterWeight(c, over), s.masters, m, MTest);
    SignalWeight(c, over', ms, s'.masters);
    if !over && over' {
      OverWeight(c, over', ms);
    }
  }

  lemma MasterMeasure(c: Config, s: State, s': State, m: nat)
    requires Shape(c, s) && MasterStep(c, s, s', m) && s'.itemToProduce <= Goal(c)
    ensures Measure(c, s') < Measure(c, s)
  {
    if |s.buffer| == c.maxBufSize {
      StatusMeasure(c, s, m, MWait(false));
    } else {
      MastersAfter(c, s, s', m);
      BroadcastWeight(c, s.workers);
    }
  }

  lemma WorkerMeasure(c: Config, s: State, s': State, w: nat)
    requires Shape(c, s) && WorkerStep(c, s, s', w)
    ensures Measure(c, s') < Measure(c, s)
  {
    var ws := s.workers[w := StatusAfter(WorkerOutcome(c, s, w))];
    SumUpdate(WorkerWeight(c), s.workers, w, ws[w]);
    BroadcastWeight(c, ws);
    if WorkerOutcome(c, s, w).Take? {
      SignalWeight(c, Over(c, s), s.masters, s'.masters);
    }
  }

  lemma AwakeMeasure(c: Config, s: State, w: nat)
    requires Shape(c, s) && w < |s.workers| && Awake(s.workers[w]) != s.workers[w]
    ensures Measure(c, s.(workers := s.workers[w := Awake(s.workers[w])])) <= Measure(c, s) + 1
  {
    SumUpdate(WorkerWeight(c), s.workers, w, Awake(s.workers[w]));
  }

  /** Every step that is not a spurious wakeup brings the measure down; a spurious one adds at most 1. */
  lemma StepMeasure(c: Config, s: State, l: Label, s': State)
    requires Inv(c, s) && Step(c, s, l, s')
    ensures s'.itemToProduce <= Goal(c)
    ensures if l.Spurious() then Measure(c, s') <= Measure(c, s) + 1 else Measure(c, s') < Measure(c, s)
  {
    StepShape(c, s, l, s');
    match l
    case RunMaster(m) => MasterMeasure(c, s, s', m);
    case RunWorker(w) => WorkerMeasure(c, s, s', w);
    case TestMaster(m) => StatusMeasure(c, s, m, s'.masters[m]);
    case SpuriousMaster(m) => StatusMeasure(c, s, m, MWait(true));
    case SpuriousWorker(w) => AwakeMeasure(c, s, w);
  }

  /** What a thread that runs may rely on: the invariant, and that the program has come nearer its end. */
  lemma StepKeeps(c: Config, s: State, l: Label, s': State)
    requires Inv(c, s) && Step(c, s, l, s')
    ensures Inv(c, s')
    ensures if l.Spurious() then Measure(c, s') <= Measure(c, s) + 1 else Measure(c, s') < Measure(c, s)
  {
    StepInv(c, s, l, s');
    StepMeasure(c, s, l, s');
  }

  function SpuriousCount(labels: seq<Label>): nat {
    if labels == [] then 0
    else SpuriousCount(labels[..|labels| - 1]) + if labels[|labels| - 1].Spurious() then 1 else 0
  }

  /** The measure of the initial state, in the configuration's numbers. */
  function StepBound(c: Config): nat {
    Times(Goal(c), ItemWeight(c)) + Times(c.numMasters, c.numWorkers + 4) + Times(c.numWorkers, c.numWorkers + 2)
  }

  lemma InitMeasure(c: Config, s: State)
    requires Init(c, s)
    ensures Measure(c, s) <= StepBound(c)
  {
    var none: Master -> nat, nobody: Worker -> nat := m => 0, w => 0;
    SumGrowth(none, s.masters, MasterWeight(c, Over(c, s)), s.masters, c.numWorkers + 4);
    SumGrowth(nobody, s.workers, WorkerWeight(c), s.workers, c.numWorkers + 2);
    SumZero(none, s.masters);
    SumZero(nobody, s.workers);
  }

  lemma {:induction false} RunMeasure(c: Config, trace: seq<State>, labels: seq<Label>)
    requires c.numWorkers > 0 && Run(c, trace, labels)
    ensures Inv(c, trace[|labels|])
    ensures |labels| + Measure(c, trace[|labels|]) <= StepBound(c) + 2 * SpuriousCount(labels)
  {
    RunInv(c, trace, labels, |labels|);
    if labels == [] {
      InitMeasure(c, trace[0]);
    } else {
      var n := |labels| - 1;
      RunMeasure(c, trace[..|labels|], labels[..n]);
      StepMeasure(c, trace[n], labels[n], trace[n + 1]);
    }
  }

  // ---- the main theorems

  /** Item i was consumed, exactly once; nothing else was; and item k of the log went to worker k mod n. */
  ghost predicate DeliveredExactly(c: Config, s: State)
    requires c.numWorkers > 0
  {
    && |s.produced| == |s.consumed| == Goal(c)
    && (forall i :: 0 <= i < |s.produced| ==> s.produced[i].0 == i)
    && multiset(Items(s.consumed)) == multiset(Range(Goal(c)))
    && (forall k :: 0 <= k < |s.consumed| ==> s.consumed[k].1 == k % c.numWorkers)
  }

  lemma DoneMeansDelivered(c: Config, s: State)
    requires Inv(c, s) && AllReturned(s)
    ensures DeliveredExactly(c, s)
  {
    NobodyLeft(c, s);
    assert |multiset(Items(s.consumed))| == |multiset(Range(Goal(c)))|;
    forall k | 0 <= k < |s.consumed| ensures s.consumed[k].1 == k % c.numWorkers {
      TurnOfIs(c.numWorkers, k);
    }
  }

  /**
   A run has a bounded number of steps (two more for every spurious wakeup), so it reaches a
   state with no runnable thread; in such a state all threads have returned, for exactly the
   healthy configurations, and then every item was delivered exactly once, in turn.
   */
  lemma Termination(c: Config, trace: seq<State>, labels: seq<Label>)
    requires c.numWorkers > 0 && Run(c, trace, labels)
    ensures |labels| <= StepBound(c) + 2 * SpuriousCount(labels)
    ensures var last := trace[|labels|];
      && (Runnable(last) <==> exists l: Label, s' :: !l.Spurious() && Step(c, last, l, s'))
      && (!Runnable(last) ==> (AllReturned(last) <==> Healthy(c)))
      && (AllReturned(last) ==> DeliveredExactly(c, last))
  {
    RunMeasure(c, trace, labels);
    var last := trace[|labels|];
    if Runnable(last) {
      RunnableSteps(c, last);
    } else {
      if Healthy(c) && !AllReturned(last) { NoDeadlock(c, last); }
      forall l: Label, s' | !l.Spurious() ensures !Step(c, last, l, s') {}
    }
    if AllReturned(last) {
      DoneMeansHealthy(c, last);
      DoneMeansDelivered(c, last);
    }
  }

  /** In every state of every run nothing is lost or doubled: produced = consumed + buffered, without repeats. */
  lemma NothingLost(c: Config, trace: seq<State>, labels: seq<Label>, i: nat)
    requires c.numWorkers > 0 && Run(c, trace, labels) && i < |trace|
    ensures var s := trace[i];
      && multiset(Items(s.produced)) == multiset(Items(s.consumed)) + multiset(s.buffer)
      && (forall x :: multiset(Items(s.produced))[x] == if 0 <= x < s.itemToProduce then 1 else 0)
  {
    RunInv(c, trace, labels, i);
    var s := trace[i];
    assert Items(s.produced) == Range(s.itemToProduce);
    forall x ensures multiset(Range(s.itemToProduce))[x] == if 0 <= x < s.itemToProduce then 1 else 0 {
      RangeCounts(s.itemToProduce, x);
    }
  }

  lemma {:induction false} RangeCounts(n: nat, x: int)
    ensures multiset(Range(n))[x] == if 0 <= x < n then 1 else 0
  {
    if n > 0 {
      RangeCounts(n - 1, x);
      assert Range(n) == Range(n - 1) + [n - 1];
    } else {
      assert Range(0) == [];
    }
  }

  /** Without masters, but with something to produce, the program stops short: one worker, asleep for ever. */
  lemma NobodyProduces() returns (c: Config, trace: seq<State>, labels: seq<Label>)
    ensures c.numWorkers > 0 && c.numMasters == 0 && !Healthy(c)
    ensures Run(c, trace, labels) && |labels| == 1
    ensures !Runnable(trace[1]) && !AllReturned(trace[1])
  {
    c := Config(1, 1, 1, 0);
    var s0 := State([], 0, 0, [], [WEnter], [], []);
    var s1 := s0.(workers := [WItem(false)]);
    trace, labels := [s0, s1], [RunWorker(0)];
    assert s0.workers[0 := WItem(false)] == s1.workers;
    assert s1.workers[0] == WItem(false);
  }

  /** Without buffer space it stops short too: the master asleep on a buffer that is always full. */
  lemma NoRoom() returns (c: Config, trace: seq<State>, labels: seq<Label>)
    ensures c.numWorkers > 0 && c.numMasters > 0 && c.maxBufSize == 0 && !Healthy(c)
    ensures Run(c, trace, labels) && |labels| == 2
    ensures !Runnable(trace[2]) && !AllReturned(trace[2])
  {
    c := Config(1, 0, 1, 1);
    var s0 := State([], 0, 0, [MEnter], [WEnter], [], []);
    var s1 := s0.(masters := [MWait(false)]);
    var s2 := s1.(workers := [WItem(false)]);
    trace, labels := [s0, s1, s2], [RunMaster(0), RunWorker(0)];
    assert s0.masters[0 := MWait(false)] == s1.masters;
    assert s1.workers[0 := WItem(false)] == s2.workers;
    assert s2.workers[0] == WItem(false);
  }
}
