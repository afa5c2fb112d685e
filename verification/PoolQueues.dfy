/**
 The two worker pools that take connections from a shared queue: the web server's bounded queue
 and the key-value server's unbounded one. Each step is one stretch of code under the queue mutex.
 */
module PoolQueues {
  import opened Sums

  /** Web pools bound the queue; key-value workers also signal when they finish a client. */
  datatype Pool = Web(queueMax: nat) | KeyValue

  datatype Worker = Idle | Asleep(signalled: bool) | Busy(fd: int)

  /** Waiting in accept, holding an accepted descriptor, or asleep on queueCondFull with it. */
  datatype Producer = Accepting | Holding(fd: int) | Stalled(fd: int, signalled: bool)

  datatype State = State(
    queue: seq<int>, producer: Producer, workers: seq<Worker>,
    enqueued: seq<int>,          // every descriptor put on the queue, in order
    served: seq<(int, nat)>)     // every descriptor taken off it, with the worker that took it

  datatype Label =
    | Accept(fd: int) | Enqueue | Dequeue(w: nat) | Finish(w: nat)
    | SpuriousWorker(w: nat) | SpuriousProducer

  predicate Init(s: State) {
    s == State([], Accepting, s.workers, [], []) && forall w :: 0 <= w < |s.workers| ==> s.workers[w] == Idle
  }

  predicate Some(ws: seq<Worker>, w: Worker) { exists i :: 0 <= i < |ws| && ws[i] == w }

  /** Signalling the condition the workers sleep on. */
  ghost predicate SignalWorker(ws: seq<Worker>, ws': seq<Worker>) {
    if Some(ws, Asleep(false))
    then exists i :: 0 <= i < |ws| && ws[i] == Asleep(false) && ws' == ws[i := Asleep(true)]
    else ws' == ws
  }

  function WakeProducer(p: Producer): Producer {
    if p.Stalled? then p.(signalled := true) else p
  }

  predicate Full(pool: Pool, s: State) { pool.Web? && |s.queue| == pool.queueMax }

  ghost predicate EnqueueStep(pool: Pool, s: State, s': State) {
    && (s.producer.Holding? || (s.producer.Stalled? && s.producer.signalled))
    && if Full(pool, s)
       then s' == s.(producer := Stalled(s.producer.fd, false))
       else && SignalWorker(s.workers, s'.workers)
            && s' == State(s.queue + [s.producer.fd], Accepting, s'.workers, s.enqueued + [s.producer.fd], s.served)
  }

  ghost predicate DequeueStep(pool: Pool, s: State, s': State, w: nat) {
    && w < |s.workers| && (s.workers[w] == Idle || s.workers[w] == Asleep(true))
    && if s.queue == []
       then s' == s.(workers := s.workers[w := Asleep(false)])
       else s' == State(s.queue[1..], if pool.Web? then WakeProducer(s.producer) else s.producer,
                        s.workers[w := Busy(s.queue[0])], s.enqueued, s.served + [(s.queue[0], w)])
  }

  ghost predicate Step(pool: Pool, s: State, l: Label, s': State) {
    match l
    case Accept(fd) => s.producer.Accepting? && s' == s.(producer := Holding(fd))
    case Enqueue => EnqueueStep(pool, s, s')
    case Dequeue(w) => DequeueStep(pool, s, s', w)
    case Finish(w) =>
      && w < |s.workers| && s.workers[w].Busy?
      && s' == s.(workers := s'.workers)
      && if pool.Web? then s'.workers == s.workers[w := Idle] else SignalWorker(s.workers[w := Idle], s'.workers)
    case SpuriousWorker(w) =>
      w < |s.workers| && s.workers[w] == Asleep(false) && s' == s.(workers := s.workers[w := Asleep(true)])
    case SpuriousProducer =>
      s.producer.Stalled? && s' == s.(producer := s.producer.(signalled := true))
  }

  ghost predicate Run(pool: Pool, trace: seq<State>, labels: seq<Label>) {
    && |trace| == |labels| + 1 && Init(trace[0])
    && forall i :: 0 <= i < |labels| ==> Step(pool, trace[i], labels[i], trace[i + 1])
  }

  // ---- the invariant

  function Woken(w: Worker): nat { if w == Asleep(true) then 1 else 0 }

  function Fds(served: seq<(int, nat)>): (r: seq<int>)
    ensures |r| == |served|
  {
    seq(|served|, i requires 0 <= i < |served| => served[i].0)
  }

  /** If some worker sleeps unsignalled, there are at least as many signalled ones as queued descriptors. */
  ghost predicate Inv(pool: Pool, s: State) {
    && Fds(s.served) + s.queue == s.enqueued
    && (pool.Web? ==> |s.queue| <= pool.queueMax)
    && (Some(s.workers, Asleep(false)) ==> |s.queue| <= Sum(Woken, s.workers))
    && (s.producer.Stalled? && !s.producer.signalled ==> Full(pool, s))
    && (s.producer.Stalled? ==> pool.Web?)
    && (forall k :: 0 <= k < |s.served| ==> s.served[k].1 < |s.workers|)
  }

  lemma SignalAdds(ws: seq<Worker>, ws': seq<Worker>)
    requires SignalWorker(ws, ws')
    ensures |ws'| == |ws|
    ensures Sum(Woken, ws') == Sum(Woken, ws) + if Some(ws, Asleep(false)) then 1 else 0
    ensures forall i :: 0 <= i < |ws| ==> ws'[i] == ws[i] || (ws[i] == Asleep(false) && ws'[i] == Asleep(true))
  {
    if i :| 0 <= i < |ws| && ws[i] == Asleep(false) && ws' == ws[i := Asleep(true)] {
      SumUpdate(Woken, ws, i, Asleep(true));
    }
  }

  lemma StepInv(pool: Pool, s: State, l: Label, s': State)
    requires Inv(pool, s) && Step(pool, s, l, s')
    ensures Inv(pool, s') && |s'.workers| == |s.workers|
  {
    match l
    case Accept(fd) =>
    case Enqueue =>
      if !Full(pool, s) {
        SignalAdds(s.workers, s'.workers);
        assert Fds(s.served) + (s.queue + [s.producer.fd]) == s.enqueued + [s.producer.fd];
      }
    case Dequeue(w) =>
      SumUpdate(Woken, s.workers, w, s'.workers[w]);
      if s.queue != [] {
        assert Fds(s'.served) == Fds(s.served) + [s.queue[0]];
        assert Fds(s.served) + s.queue == Fds(s'.served) + s'.queue;
      }
    case Finish(w) =>
      SumUpdate(Woken, s.workers, w, Idle);
      if pool.KeyValue? { SignalAdds(s.workers[w := Idle], s'.workers); }
    case SpuriousWorker(w) => SumUpdate(Woken, s.workers, w, Asleep(true));
    case SpuriousProducer =>
  }

  lemma {:induction false} RunInv(pool: Pool, trace: seq<State>, labels: seq<Label>, i: nat)
    requires Run(pool, trace, labels) && i < |trace|
    ensures Inv(pool, trace[i]) && |trace[i].workers| == |trace[0].workers|
  {
    if i == 0 {
      assert Fds([]) == [];
    } else {
      RunInv(pool, trace, labels, i - 1);
      StepInv(pool, trace[i - 1], labels[i - 1], trace[i]);
    }
  }

  // ---- theorems

  /** First in, first out, nothing lost or served twice, and the web queue never over its bound. */
  lemma QueueIsFifo(pool: Pool, trace: seq<State>, labels: seq<Label>, i: nat)
    requires Run(pool, trace, labels) && i < |trace|
    ensures var s := trace[i];
      && Fds(s.served) + s.queue == s.enqueued
      && (pool.Web? ==> |s.queue| <= pool.queueMax)
  {
    RunInv(pool, trace, labels, i);
  }

  /** No lost wakeup: work is never left queued with every idle worker asleep and none signalled. */
  lemma NoIdleWithWork(pool: Pool, trace: seq<State>, labels: seq<Label>, i: nat)
    requires Run(pool, trace, labels) && i < |trace|
    requires trace[i].queue != [] && Some(trace[i].workers, Asleep(false))
    ensures |trace[i].queue| <= Sum(Woken, trace[i].workers)
    ensures Some(trace[i].workers, Asleep(true))
  {
    RunInv(pool, trace, labels, i);
    SumZero(Woken, trace[i].workers);
  }

  /** With room for at least one descriptor, producer and workers are never all blocked at once. */
  lemma NeverAllBlocked(pool: Pool, trace: seq<State>, labels: seq<Label>, i: nat)
    requires Run(pool, trace, labels) && i < |trace| && |trace[0].workers| > 0
    requires pool.Web? ==> pool.queueMax > 0
    requires trace[i].producer.Stalled? && !trace[i].producer.signalled
    ensures exists w :: 0 <= w < |trace[i].workers| && trace[i].workers[w] != Asleep(false)
  {
    RunInv(pool, trace, labels, i);
    var s := trace[i];
    if s.workers[0] == Asleep(false) {
      NoIdleWithWork(pool, trace, labels, i);
      var w :| 0 <= w < |s.workers| && s.workers[w] == Asleep(true);
      assert s.workers[w] != Asleep(false);
    }
  }
}
