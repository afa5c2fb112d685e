/** What every step of the master-worker program keeps, why it terminates, and what it delivers. */
module MasterWorkerProofs {
  import opened ModArith
  import opened Sums
  import opened MasterWorkerModel

  // ---- the invariant

  function Goal(c: Config): nat { if c.totalItems > 0 then c.totalItems else 0 }

  function Range(n: nat): seq<int> { seq(n, i => i) }

  function Items(log: seq<(int, nat)>): (r: seq<int>)
    ensures |r| == |log|
  {
    seq(|log|, i requires 0 <= i < |log| => log[i].0)
  }

  function Gone(w: Worker): nat { if w.WReturned? then 1 else 0 }

  function Exits(s: State): nat { Sum(Gone, s.workers) }

  /** How many turn moves ago it was worker w's turn: 1 for the last one, n for the present one. */
  function Behind(n: nat, turn: nat, w: nat): int {
    if w < turn then turn - w else turn - w + n
  }

  /** Whose turn it is after k moves of the turn, starting from worker 0. */
  function TurnOf(n: nat, k: nat): nat {
    if k == 0 then 0 else NextTurn(n, TurnOf(n, k - 1))
  }

  ghost predicate Shape(c: Config, s: State) {
    && |s.masters| == c.numMasters
    && |s.workers| == c.numWorkers > 0
    && 0 <= s.itemToProduce <= Goal(c)
    && (c.numMasters == 0 ==> s.itemToProduce == 0)
    && |s.buffer| <= c.maxBufSize
    && s.workerTurn < c.numWorkers
  }

  /** Produced in order 0, 1, 2, ...; what was produced is what was consumed and what is buffered. */
  ghost predicate Conserved(c: Config, s: State) {
    && |s.produced| == s.itemToProduce
    && (forall i :: 0 <= i < |s.produced| ==> s.produced[i].0 == i && s.produced[i].1 < c.numMasters)
    && s.itemToProduce >= 0
    && multiset(s.buffer) + multiset(Items(s.consumed)) == multiset(Range(s.itemToProduce))
  }

  /** Item k went to worker k mod n, and the workers that left are the ones whose turns came last. */
  ghost predicate TurnOrder(c: Config, s: State)
    requires c.numWorkers > 0
  {
    InTurn(c, s) && ExitBlock(c, s)
  }

  ghost predicate InTurn(c: Config, s: State)
    requires c.numWorkers > 0
  {
    && s.workerTurn == TurnOf(c.numWorkers, |s.consumed| + Exits(s))
    && (forall k :: 0 <= k < |s.consumed| ==> s.consumed[k].1 == TurnOf(c.numWorkers, k))
    && (Exits(s) > 0 ==> s.buffer == [] && s.itemToProduce >= c.totalItems)
  }

  ghost predicate ExitBlock(c: Config, s: State) {
    forall w :: 0 <= w < |s.workers| ==>
      (s.workers[w].WReturned? <==> Behind(c.numWorkers, s.workerTurn, w) <= Exits(s))
  }

  /** No master sleeps unsignalled unless the buffer is full or another one has been signalled. */
  ghost predicate MastersJustified(c: Config, s: State) {
    && ((exists m :: 0 <= m < |s.masters| && s.masters[m] == MWait(false)) ==>
          || |s.buffer| == c.maxBufSize
          || exists m :: 0 <= m < |s.masters| && s.masters[m] == MWait(true))
    && (forall m :: 0 <= m < |s.masters| && s.masters[m].MReturned? ==> s.itemToProduce >= c.totalItems)
    && (c.maxBufSize == 0 ==> forall m :: 0 <= m < |s.masters| ==> s.masters[m].MEnter? || s.masters[m].MWait?)
  }

  /** No worker sleeps unsignalled in its turn, unless nothing is buffered and more is to come. */
  ghost predicate WorkersJustified(c: Config, s: State) {
    && (forall w :: 0 <= w < |s.workers| && s.workers[w] == WTurn(false) ==> s.workerTurn != w)
    && (forall w :: 0 <= w < |s.workers| && s.workers[w].WItem? ==> s.workerTurn == w)
    && (forall w :: 0 <= w < |s.workers| && s.workers[w] == WItem(false) ==>
          s.buffer == [] && s.itemToProduce < c.totalItems)
  }

  ghost predicate Inv(c: Config, s: State) {
    Shape(c, s) && Conserved(c, s) && TurnOrder(c, s) && MastersJustified(c, s) && WorkersJustified(c, s)
  }

  lemma InitInv(c: Config, s: State)
    requires c.numWorkers > 0 && Init(c, s)
    ensures Inv(c, s)
  {
    SumZero(Gone, s.workers);
    assert Items(s.consumed) == [];
    assert Range(0) == [];
  }

  // ---- one lemma for each part of the invariant

  lemma SignalKeeps(ms: seq<Master>, ms': seq<Master>)
    requires Signal(ms, ms')
    ensures |ms'| == |ms|
    ensures forall m :: 0 <= m < |ms| ==> ms'[m] == ms[m] || (ms[m] == MWait(false) && ms'[m] == MWait(true))
    ensures (exists m :: 0 <= m < |ms'| && ms'[m] == MWait(false)) ==>
              exists m :: 0 <= m < |ms'| && ms'[m] == MWait(true)
  {
    if i :| 0 <= i < |ms| && ms[i] == MWait(false) && ms' == ms[i := MWait(true)] {
      assert ms'[i] == MWait(true);
    }
  }

  lemma StepShape(c: Config, s: State, l: Label, s': State)
    requires Inv(c, s) && Step(c, s, l, s')
    ensures Shape(c, s')
    ensures s.itemToProduce <= s'.itemToProduce
  {
    match l
    case RunMaster(m) => if |s.buffer| != c.maxBufSize { SignalKeeps(s.masters[m := MTest], s'.masters); }
    case RunWorker(w) => if |s'.consumed| != |s.consumed| { SignalKeeps(s.masters, s'.masters); }
    case _ =>
  }

  lemma ProduceConserves(buffer: seq<int>, items: multiset<int>, p: nat)
    requires multiset(buffer) + items == multiset(Range(p))
    ensures multiset(buffer + [p]) + items == multiset(Range(p + 1))
  {
    assert Range(p + 1) == Range(p) + [p];
  }

  lemma ConsumeConserves(buffer: seq<int>, log: seq<(int, nat)>, w: nat)
    requires buffer != []
    ensures var last := |buffer| - 1;
      multiset(buffer[..last]) + multiset(Items(log + [(buffer[last], w)])) == multiset(buffer) + multiset(Items(log))
  {
    var last := |buffer| - 1;
    assert buffer == buffer[..last] + [buffer[last]];
    assert Items(log + [(buffer[last], w)]) == Items(log) + [buffer[last]];
  }

  predicate Produces(s: State, s': State, m: nat) {
    && m < |s.masters|
    && s'.buffer == s.buffer + [s.itemToProduce] && s'.itemToProduce == s.itemToProduce + 1
    && s'.produced == s.produced + [(s.itemToProduce, m)] && s'.consumed == s.consumed
  }

  predicate Consumes(s: State, s': State, w: nat) {
    && s.buffer != []
    && s'.buffer == s.buffer[..|s.buffer| - 1] && s'.itemToProduce == s.itemToProduce
    && s'.produced == s.produced && s'.consumed == s.consumed + [(s.buffer[|s.buffer| - 1], w)]
  }

  /** A step leaves the items alone, or produces the next one, or takes the newest buffered one. */
  ghost predicate DataStep(s: State, s': State) {
    || (s'.buffer == s.buffer && s'.itemToProduce == s.itemToProduce
        && s'.produced == s.produced && s'.consumed == s.consumed)
    || (exists m: nat :: Produces(s, s', m))
    || (exists w: nat :: Consumes(s, s', w))
  }

  lemma StepData(c: Config, s: State, l: Label, s': State)
    requires Step(c, s, l, s')
    ensures DataStep(s, s')
  {
    match l
    case RunWorker(w) => if WorkerOutcome(c, s, w).Take? { assert Consumes(s, s', w); }
    case RunMaster(m) => if s'.itemToProduce != s.itemToProduce { assert Produces(s, s', m); }
    case _ =>
  }

  lemma StepConserved(c: Config, s: State, s': State)
    requires Shape(c, s) && Conserved(c, s) && DataStep(s, s')
    ensures Conserved(c, s')
  {
    if s'.itemToProduce != s.itemToProduce {
      ProduceConserves(s.buffer, multiset(Items(s.consumed)), s.itemToProduce);
    } else if s'.consumed != s.consumed {
      var w: nat :| Consumes(s, s', w);
      ConsumeConserves(s.buffer, s.consumed, w);
    }
  }

  /** The next turn is what the program's remainder computes. */
  lemma NextTurnIs(n: nat, turn: nat)
    requires turn < n
    ensures NextTurn(n, turn) == (turn + 1) % n
  {
    assert turn == 0 * n + turn;
    ModUnique(turn, 0, turn, n);
    ModStep(turn, n);
  }

  /** The turns go round: after k moves it is worker k mod n. */
  lemma {:induction false} TurnOfIs(n: nat, k: nat)
    requires n > 0
    ensures TurnOf(n, k) == k % n
  {
    if k == 0 {
      ModUnique(0, 0, 0, n);
    } else {
      TurnOfIs(n, k - 1);
      NextTurnIs(n, (k - 1) % n);
      ModStep(k - 1, n);
    }
  }

  /** When the turn moves on, everybody else falls one further behind. */
  lemma BehindNext(n: nat, turn: nat, w: nat)
    requires turn < n && w < n
    ensures Behind(n, NextTurn(n, turn), w) == if w == turn then 1 else Behind(n, turn, w) + 1
  {
  }

  function StatusAfter(o: Outcome): Worker {
    match o
    case AwaitTurn => WTurn(false)
    case Take => WEnter
    case Leave => WReturned
    case AwaitItem => WItem(false)
  }

  predicate Leaves(c: Config, s: State, l: Label) {
    l.RunWorker? && l.w < |s.workers| && WorkerOutcome(c, s, l.w).Leave?
  }

  /** A worker step changes that worker's status; at most it also wakes the others. */
  lemma WorkerStatuses(c: Config, s: State, s': State, w: nat)
    requires WorkerStep(c, s, s', w)
    ensures var ws := s.workers[w := StatusAfter(WorkerOutcome(c, s, w))];
      s'.workers == ws || s'.workers == Broadcast(ws)
  {
  }

  /** The number of returned workers grows exactly when a worker leaves. */
  lemma StepExits(c: Config, s: State, l: Label, s': State)
    requires Step(c, s, l, s')
    ensures |s'.workers| == |s.workers|
    ensures Exits(s') == Exits(s) + if Leaves(c, s, l) then 1 else 0
    ensures forall w :: 0 <= w < |s.workers| ==>
              (s'.workers[w].WReturned? <==> s.workers[w].WReturned? || (Leaves(c, s, l) && l.w == w))
  {
    if l.RunWorker? {
      WorkerStatuses(c, s, s', l.w);
      var ws := s.workers[l.w := StatusAfter(WorkerOutcome(c, s, l.w))];
      SumUpdate(Gone, s.workers, l.w, ws[l.w]);
      SumSame(Gone, ws, s'.workers);
    } else {
      SumSame(Gone, s.workers, s'.workers);
    }
  }

  /** Only taking and leaving move the turn, and only taking adds to the log. */
  lemma StepTurn(c: Config, s: State, l: Label, s': State)
    requires Step(c, s, l, s')
    ensures s'.workerTurn ==
      if l.RunWorker? && (WorkerOutcome(c, s, l.w).Take? || WorkerOutcome(c, s, l.w).Leave?)
      then NextTurn(|s.workers|, s.workerTurn) else s.workerTurn
    ensures s'.consumed ==
      if l.RunWorker? && WorkerOutcome(c, s, l.w).Take?
      then s.consumed + [(s.buffer[|s.buffer| - 1], l.w)] else s.consumed
    ensures s.buffer == [] && s.itemToProduce >= c.totalItems ==> s'.buffer == [] && s'.itemToProduce >= c.totalItems
  {
  }

  lemma StepInTurn(c: Config, s: State, l: Label, s': State)
    requires Shape(c, s) && InTurn(c, s) && WorkersJustified(c, s) && Step(c, s, l, s')
    ensures InTurn(c, s')
  {
    StepExits(c, s, l, s');
    StepTurn(c, s, l, s');
  }

  lemma StepExitBlock(c: Config, s: State, l: Label, s': State)
    requires Shape(c, s) && TurnOrder(c, s) && WorkersJustified(c, s) && Step(c, s, l, s')
    ensures ExitBlock(c, s')
  {
    StepExits(c, s, l, s');
    StepTurn(c, s, l, s');
    forall w | 0 <= w < |s.workers|
      ensures s'.workers[w].WReturned? <==> Behind(c.numWorkers, s'.workerTurn, w) <= Exits(s')
    {
      assert s.workers[w].WReturned? <==> Behind(c.numWorkers, s.workerTurn, w) <= Exits(s);
      BehindNext(c.numWorkers, s.workerTurn, w);
    }
  }

  lemma StepTurnOrder(c: Config, s: State, l: Label, s': State)
    requires Shape(c, s) && TurnOrder(c, s) && WorkersJustified(c, s) && Step(c, s, l, s')
    ensures TurnOrder(c, s')
  {
    StepInTurn(c, s, l, s');
    StepExitBlock(c, s, l, s');
  }

  lemma StepMasters(c: Config, s: State, l: Label, s': State)
    requires Inv(c, s) && Step(c, s, l, s')
    ensures MastersJustified(c, s')
  {
    StepShape(c, s, l, s');
    match l
    case RunMaster(m) =>
      if |s.buffer| != c.maxBufSize { SignalKeeps(s.masters[m := MTest], s'.masters); }
    case RunWorker(w) =>
      if |s'.consumed| != |s.consumed| { SignalKeeps(s.masters, s'.masters); }
    case SpuriousMaster(m) =>
      assert s'.masters[m] == MWait(true);
    case TestMaster(m) =>
      if i :| 0 <= i < |s.masters| && s.masters[i] == MWait(true) { assert s'.masters[i] == MWait(true); }
    case SpuriousWorker(w) =>
  }

  lemma StepWorkers(c: Config, s: State, l: Label, s': State)
    requires Shape(c, s) && WorkersJustified(c, s) && Step(c, s, l, s')
    ensures WorkersJustified(c, s')
  {
    if l.RunWorker? {
      WorkerStatuses(c, s, s', l.w);
      StepTurn(c, s, l, s');
    }
  }

  /** Every step keeps the invariant. */
  lemma StepInv(c: Config, s: State, l: Label, s': State)
    requires Inv(c, s) && Step(c, s, l, s')
    ensures Inv(c, s')
  {
    StepShape(c, s, l, s');
    StepData(c, s, l, s');
    StepConserved(c, s, s');
    StepTurnOrder(c, s, l, s');
    StepMasters(c, s, l, s');
    StepWorkers(c, s, l, s');
  }

  lemma {:induction false} RunInv(c: Config, trace: seq<State>, labels: seq<Label>, i: nat)
    requires c.numWorkers > 0 && Run(c, trace, labels) && i < |trace|
    ensures Inv(c, trace[i])
  {
    if i == 0 {
      InitInv(c, trace[0]);
    } else {
      RunInv(c, trace, labels, i - 1);
      StepInv(c, trace[i - 1], labels[i - 1], trace[i]);
    }
  }
}
