/**
 The master-worker bounded buffer as a state machine. Every step is one stretch of code that a
 thread runs while it holds the mutex (from locking it, or from waking inside a wait, up to the
 next wait or unlock), except MasterTest, the unlocked test at the bottom of the master loop.
 */
module MasterWorkerModel {
  datatype Config = Config(totalItems: int, maxBufSize: nat, numWorkers: nat, numMasters: nat)

  /** Where a master is: about to lock, asleep on `master`, about to test for exit, or returned. */
  datatype Master = MEnter | MWait(signalled: bool) | MTest | MReturned

  /** Where a worker is; it can sleep on `worker` in the turn loop or in the empty-buffer loop. */
  datatype Worker = WEnter | WTurn(signalled: bool) | WItem(signalled: bool) | WReturned

  datatype State = State(
    buffer: seq<int>,            // buffer[..curr_buf_size]
    itemToProduce: int,
    workerTurn: nat,
    masters: seq<Master>,
    workers: seq<Worker>,
    produced: seq<(int, nat)>,   // every "Produced item by master" line, in order
    consumed: seq<(int, nat)>)   // every "Consumed item by worker" line, in order

  datatype Label =
    | RunMaster(m: nat) | TestMaster(m: nat) | RunWorker(w: nat)
    | SpuriousMaster(m: nat) | SpuriousWorker(w: nat)
  {
    predicate Spurious() { SpuriousMaster? || SpuriousWorker? }
  }

  ghost predicate Init(c: Config, s: State) {
    && s == State([], 0, 0, s.masters, s.workers, [], [])
    && |s.masters| == c.numMasters && (forall i :: 0 <= i < |s.masters| ==> s.masters[i] == MEnter)
    && |s.workers| == c.numWorkers && (forall i :: 0 <= i < |s.workers| ==> s.workers[i] == WEnter)
  }

  // ---- condition variables

  function Awake(w: Worker): Worker {
    match w
    case WTurn(_) => WTurn(true)
    case WItem(_) => WItem(true)
    case _ => w
  }

  function Broadcast(ws: seq<Worker>): (r: seq<Worker>)
    ensures |r| == |ws| && forall i :: 0 <= i < |ws| ==> r[i] == Awake(ws[i])
  {
    seq(|ws|, i requires 0 <= i < |ws| => Awake(ws[i]))
  }

  /** `signal` wakes one unsignalled waiter of the system's choice, and is lost if there is none. */
  ghost predicate Signal(ms: seq<Master>, ms': seq<Master>) {
    if exists i :: 0 <= i < |ms| && ms[i] == MWait(false)
    then exists i :: 0 <= i < |ms| && ms[i] == MWait(false) && ms' == ms[i := MWait(true)]
    else ms' == ms
  }

  // ---- steps

  predicate MasterReady(ms: seq<Master>, m: nat) {
    m < |ms| && (ms[m] == MEnter || ms[m] == MWait(true))
  }

  predicate WorkerReady(ws: seq<Worker>, w: nat) {
    w < |ws| && (ws[w] == WEnter || ws[w] == WTurn(true) || ws[w] == WItem(true))
  }

  function Produce(c: Config, s: State, m: nat): State {
    if s.itemToProduce < c.totalItems then
      s.(buffer := s.buffer + [s.itemToProduce],
         itemToProduce := s.itemToProduce + 1,
         produced := s.produced + [(s.itemToProduce, m)])
    else s
  }

  ghost predicate MasterStep(c: Config, s: State, s': State, m: nat) {
    && MasterReady(s.masters, m)
    && if |s.buffer| == c.maxBufSize
       then s' == s.(masters := s.masters[m := MWait(false)])
       else && Signal(s.masters[m := MTest], s'.masters)
            && s' == Produce(c, s, m).(workers := Broadcast(s.workers), masters := s'.masters)
  }

  ghost predicate MasterTestStep(c: Config, s: State, s': State, m: nat) {
    && m < |s.masters| && s.masters[m] == MTest
    && s' == s.(masters := s.masters[m := if s.itemToProduce >= c.totalItems then MReturned else MEnter])
  }

  /** The worker after this one on the ring. */
  function NextTurn(numWorkers: nat, turn: nat): nat {
    if turn + 1 == numWorkers then 0 else turn + 1
  }

  /** What worker w does on its next stretch: sleep for its turn, take an item, leave, or sleep for an item. */
  datatype Outcome = AwaitTurn | Take | Leave | AwaitItem

  function WorkerOutcome(c: Config, s: State, w: nat): Outcome
    requires w < |s.workers|
  {
    if !s.workers[w].WItem? && s.workerTurn != w then AwaitTurn
    else if s.buffer != [] then Take
    else if s.itemToProduce >= c.totalItems then Leave
    else AwaitItem
  }

  /** Taking removes the newest item, moves the turn on, signals a master and wakes every worker. */
  ghost predicate TakeStep(s: State, s': State, w: nat)
    requires w < |s.workers| && s.buffer != []
  {
    var last := |s.buffer| - 1;
    && Signal(s.masters, s'.masters)
    && s' == State(s.buffer[..last], s.itemToProduce, NextTurn(|s.workers|, s.workerTurn), s'.masters,
                   Broadcast(s.workers[w := WEnter]), s.produced, s.consumed + [(s.buffer[last], w)])
  }

  ghost predicate WorkerStep(c: Config, s: State, s': State, w: nat) {
    && WorkerReady(s.workers, w)
    && match WorkerOutcome(c, s, w)
       case AwaitTurn => s' == s.(workers := s.workers[w := WTurn(false)])
       case Take => TakeStep(s, s', w)
       case Leave => s' == s.(workerTurn := NextTurn(|s.workers|, s.workerTurn),
                              workers := Broadcast(s.workers[w := WReturned]))
       case AwaitItem => s' == s.(workers := s.workers[w := WItem(false)])
  }

  ghost predicate Step(c: Config, s: State, l: Label, s': State)
  {
    match l
    case RunMaster(m) => MasterStep(c, s, s', m)
    case TestMaster(m) => MasterTestStep(c, s, s', m)
    case RunWorker(w) => WorkerStep(c, s, s', w)
    case SpuriousMaster(m) => m < |s.masters| && s.masters[m] == MWait(false)
                              && s' == s.(masters := s.masters[m := MWait(true)])
    case SpuriousWorker(w) => w < |s.workers| && Awake(s.workers[w]) != s.workers[w]
                              && s' == s.(workers := s.workers[w := Awake(s.workers[w])])
  }

  predicate AllReturned(s: State) {
    && (forall i :: 0 <= i < |s.masters| ==> s.masters[i].MReturned?)
    && (forall i :: 0 <= i < |s.workers| ==> s.workers[i].WReturned?)
  }

  predicate MastersRunnable(ms: seq<Master>) {
    exists m :: 0 <= m < |ms| && (MasterReady(ms, m) || ms[m] == MTest)
  }

  predicate WorkersRunnable(ws: seq<Worker>) {
    exists w :: 0 <= w < |ws| && WorkerReady(ws, w)
  }

  /** Some thread is able to run: it is neither returned nor asleep without a signal. */
  predicate Runnable(s: State) {
    MastersRunnable(s.masters) || WorkersRunnable(s.workers)
  }

  /** A run: |trace| == |labels| + 1 states, from an initial one, each got by a step from the one before. */
  ghost predicate Run(c: Config, trace: seq<State>, labels: seq<Label>)
  {
    && |trace| == |labels| + 1
    && Init(c, trace[0])
    && forall i :: 0 <= i < |labels| ==> Step(c, trace[i], labels[i], trace[i + 1])
  }
}
