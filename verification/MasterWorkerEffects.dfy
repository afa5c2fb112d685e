/**
 What each critical section does, told from the thread that runs it and the state it finds: what is
 printed, who falls asleep and who is woken. Nothing here goes through the functions that make up a step.
 */
module MasterWorkerEffects {
  import opened ModArith
  import opened MasterWorkerModel
  import opened MasterWorkerProofs
  import opened MasterWorkerTheorems

  predicate Signalled(ms: seq<Master>, ms': seq<Master>, i: nat) {
    i < |ms| && i < |ms'| && ms[i] == MWait(false) && ms'[i] == MWait(true)
  }

  /** One sleeping master is woken, if there is one besides m; nobody else but m changes. */
  ghost predicate WakesOneMaster(ms: seq<Master>, ms': seq<Master>, m: nat) {
    && |ms'| == |ms|
    && (forall i: nat :: i < |ms| && i != m ==> ms'[i] == ms[i] || Signalled(ms, ms', i))
    && (forall i: nat, j: nat :: i != m && j != m && Signalled(ms, ms', i) && Signalled(ms, ms', j) ==> i == j)
    && ((exists i: nat :: i != m && Signalled(ms, ms', i)) <==>
          exists i: nat :: i < |ms| && i != m && ms[i] == MWait(false))
  }

  predicate SameMasters(ms: seq<Master>, ms': seq<Master>, m: nat) {
    |ms'| == |ms| && forall i :: 0 <= i < |ms| && i != m ==> ms'[i] == ms[i]
  }

  predicate SameWorkers(ws: seq<Worker>, ws': seq<Worker>, w: int) {
    |ws'| == |ws| && forall i :: 0 <= i < |ws| && i != w ==> ws'[i] == ws[i]
  }

  /** Every sleeping worker but w is woken, in whichever of its two loops it sleeps. */
  predicate WakesAllWorkers(ws: seq<Worker>, ws': seq<Worker>, w: int) {
    && |ws'| == |ws|
    && forall i :: 0 <= i < |ws| && i != w ==>
         ws'[i] == if ws[i].WTurn? then WTurn(true) else if ws[i].WItem? then WItem(true) else ws[i]
  }

  lemma SignalWakesOne(ms: seq<Master>, ms0: seq<Master>, ms': seq<Master>, m: nat)
    requires |ms0| == |ms| && (forall i :: 0 <= i < |ms| && i != m ==> ms0[i] == ms[i])
    requires (m < |ms| ==> ms0[m] != MWait(false)) && Signal(ms0, ms')
    ensures WakesOneMaster(ms, ms', m)
    ensures m < |ms| ==> ms'[m] == ms0[m]
  {
    if i: nat :| i < |ms| && i != m && ms[i] == MWait(false) {
      assert ms0[i] == MWait(false);
    }
    if k :| 0 <= k < |ms0| && ms0[k] == MWait(false) && ms' == ms0[k := MWait(true)] {
      assert k != m && Signalled(ms, ms', k);
    }
  }

  // ---- masters

  /** A master sleeps exactly if the buffer is full; otherwise it wakes all workers and one master. */
  lemma MasterRuns(c: Config, s: State, m: nat, s': State)
    requires Step(c, s, RunMaster(m), s')
    ensures m < |s.masters| && (s.masters[m] == MEnter || s.masters[m] == MWait(true))
    ensures |s'.masters| == |s.masters| && s'.masters[m] == if |s.buffer| == c.maxBufSize then MWait(false) else MTest
    ensures if |s.buffer| == c.maxBufSize
      then SameMasters(s.masters, s'.masters, m) && s'.workers == s.workers
      else WakesOneMaster(s.masters, s'.masters, m) && WakesAllWorkers(s.workers, s'.workers, -1)
    ensures s'.consumed == s.consumed && s'.workerTurn == s.workerTurn
  {
    if |s.buffer| != c.maxBufSize {
      SignalWakesOne(s.masters, s.masters[m := MTest], s'.masters, m);
    }
  }

  /** It puts the next item on top of the buffer, under its own number, exactly if there is room and an item left. */
  lemma MasterProduces(c: Config, s: State, m: nat, s': State)
    requires Step(c, s, RunMaster(m), s')
    ensures if |s.buffer| != c.maxBufSize && s.itemToProduce < c.totalItems
      then && s'.buffer == s.buffer + [s.itemToProduce] && s'.itemToProduce == s.itemToProduce + 1
           && s'.produced == s.produced + [(s.itemToProduce, m)]
      else s'.buffer == s.buffer && s'.itemToProduce == s.itemToProduce && s'.produced == s.produced
  {
  }

  /** Its exit test ends it exactly if everything has been produced, and changes nothing else. */
  lemma MasterTests(c: Config, s: State, m: nat, s': State)
    requires Step(c, s, TestMaster(m), s')
    ensures m < |s.masters| && s.masters[m] == MTest && SameMasters(s.masters, s'.masters, m)
    ensures s'.masters[m] == if s.itemToProduce >= c.totalItems then MReturned else MEnter
    ensures s' == s.(masters := s'.masters)
  {
  }

  // ---- workers

  /** w is at the test of its turn and it is not its turn. */
  predicate OutOfTurn(s: State, w: nat) {
    w < |s.workers| && !s.workers[w].WItem? && s.workerTurn != w
  }

  /** A worker sleeps exactly if it is out of turn, or finds nothing buffered with items still to come. */
  lemma WorkerRuns(c: Config, s: State, w: nat, s': State)
    requires Inv(c, s) && Step(c, s, RunWorker(w), s')
    ensures w < |s.workers| == |s'.workers|
    ensures s.workers[w] == WEnter || s.workers[w] == WTurn(true) || s.workers[w] == WItem(true)
    ensures s'.workers[w] ==
      if OutOfTurn(s, w) then WTurn(false)
      else if s.buffer != [] then WEnter
      else if s.itemToProduce >= c.totalItems then WReturned
      else WItem(false)
    ensures s'.workerTurn ==
      if OutOfTurn(s, w) || s'.workers[w] == WItem(false) then s.workerTurn else (s.workerTurn + 1) % c.numWorkers
    ensures if s'.workers[w] == WEnter || s'.workers[w] == WReturned
      then WakesAllWorkers(s.workers, s'.workers, w) else SameWorkers(s.workers, s'.workers, w)
  {
    NextTurnIs(c.numWorkers, s.workerTurn);
  }

  /** It takes the top of the buffer, under its own number, exactly if it is in turn and something is buffered. */
  lemma WorkerTakes(c: Config, s: State, w: nat, s': State)
    requires Step(c, s, RunWorker(w), s')
    ensures s'.itemToProduce == s.itemToProduce && s'.produced == s.produced
    ensures if !OutOfTurn(s, w) && s.buffer != []
      then && s'.buffer == s.buffer[..|s.buffer| - 1]
           && s'.consumed == s.consumed + [(s.buffer[|s.buffer| - 1], w)]
           && WakesOneMaster(s.masters, s'.masters, |s.masters|)
      else s'.buffer == s.buffer && s'.consumed == s.consumed && s'.masters == s.masters
  {
    if !OutOfTurn(s, w) && s.buffer != [] {
      SignalWakesOne(s.masters, s.masters, s'.masters, |s.masters|);
    }
  }

  // ---- runs

  /** Whatever is printed as produced is printed by the master that ran: the next number, and nothing else. */
  lemma ProducedByWhoRan(c: Config, trace: seq<State>, labels: seq<Label>, k: nat) returns (m: nat)
    requires Run(c, trace, labels) && k < |labels| && trace[k + 1].produced != trace[k].produced
    ensures labels[k] == RunMaster(m)
    ensures trace[k + 1].produced == trace[k].produced + [(trace[k].itemToProduce, m)]
    ensures trace[k + 1].buffer == trace[k].buffer + [trace[k].itemToProduce]
  {
    assert Step(c, trace[k], labels[k], trace[k + 1]);
    if labels[k].RunWorker? {
      WorkerTakes(c, trace[k], labels[k].w, trace[k + 1]);
    }
    assert labels[k].RunMaster?;
    m := labels[k].m;
    MasterProduces(c, trace[k], m, trace[k + 1]);
  }

  /** Whatever is printed as consumed is printed by the worker that ran, and is the newest item in the buffer. */
  lemma ConsumedByWhoRan(c: Config, trace: seq<State>, labels: seq<Label>, k: nat) returns (w: nat)
    requires Run(c, trace, labels) && k < |labels| && trace[k + 1].consumed != trace[k].consumed
    ensures labels[k] == RunWorker(w) && trace[k].buffer != []
    ensures trace[k].buffer == trace[k + 1].buffer + [trace[k].buffer[|trace[k].buffer| - 1]]
    ensures trace[k + 1].consumed == trace[k].consumed + [(trace[k].buffer[|trace[k].buffer| - 1], w)]
  {
    assert Step(c, trace[k], labels[k], trace[k + 1]);
    if labels[k].RunMaster? {
      MasterRuns(c, trace[k], labels[k].m, trace[k + 1]);
    }
    assert labels[k].RunWorker?;
    w := labels[k].w;
    WorkerTakes(c, trace[k], w, trace[k + 1]);
  }

  /** What can happen in a state: any thread at a lock or with a wakeup can run, and any sleeper can wake. */
  lemma CanRunExactlyWhen(c: Config, s: State, i: nat)
    requires Inv(c, s)
    ensures (exists s' :: Step(c, s, RunMaster(i), s'))
       <==> i < |s.masters| && (s.masters[i] == MEnter || s.masters[i] == MWait(true))
    ensures (exists s' :: Step(c, s, TestMaster(i), s')) <==> i < |s.masters| && s.masters[i] == MTest
    ensures (exists s' :: Step(c, s, RunWorker(i), s'))
       <==> i < |s.workers| && (s.workers[i] == WEnter || s.workers[i] == WTurn(true) || s.workers[i] == WItem(true))
    ensures (exists s' :: Step(c, s, SpuriousMaster(i), s')) <==> i < |s.masters| && s.masters[i] == MWait(false)
    ensures (exists s' :: Step(c, s, SpuriousWorker(i), s'))
       <==> i < |s.workers| && (s.workers[i] == WTurn(false) || s.workers[i] == WItem(false))
  {
    if i < |s.masters| && s.masters[i] == MWait(false) {
      assert Step(c, s, SpuriousMaster(i), s.(masters := s.masters[i := MWait(true)]));
    }
    if i < |s.workers| && Awake(s.workers[i]) != s.workers[i] {
      assert Step(c, s, SpuriousWorker(i), s.(workers := s.workers[i := Awake(s.workers[i])]));
    }
    if i < |s.masters| { MasterCanRun(c, s, i); }
    if i < |s.workers| && WorkerReady(s.workers, i) { WorkerCanRun(c, s, i); }
  }
}
