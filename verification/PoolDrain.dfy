/**
 What becomes of a pool when no more connections are accepted: every connection that was accepted
 is served, in whatever order the accept loop and the workers run.
 */
module PoolDrain {
  import opened Sums
  import opened PoolQueues

  /** What a worker still costs: finishing a client may signal another worker. */
  function WorkerWeight(w: Worker): nat {
    match w
    case Idle => 1
    case Asleep(signalled) => if signalled then 1 else 0
    case Busy(_) => 3
  }

  function ProducerWeight(p: Producer): nat {
    match p
    case Accepting => 0
    case Holding(_) => 7
    case Stalled(_, signalled) => if signalled then 7 else 6
  }

  function Pending(s: State): nat {
    4 * |s.queue| + ProducerWeight(s.producer) + Sum(WorkerWeight, s.workers)
  }

  lemma SignalWeight(ws: seq<Worker>, ws': seq<Worker>)
    requires SignalWorker(ws, ws')
    ensures Sum(WorkerWeight, ws') <= Sum(WorkerWeight, ws) + 1
  {
    if i :| 0 <= i < |ws| && ws[i] == Asleep(false) && ws' == ws[i := Asleep(true)] {
      SumUpdate(WorkerWeight, ws, i, Asleep(true));
    }
  }

  predicate Spurious(l: Label) { l.SpuriousWorker? || l.SpuriousProducer? }

  /** With nothing accepted a step that is not a spurious wakeup brings the pool nearer to rest. */
  lemma DrainStep(pool: Pool, s: State, l: Label, s': State)
    requires Step(pool, s, l, s') && !l.Accept?
    ensures if Spurious(l) then Pending(s') <= Pending(s) + 1 else Pending(s') < Pending(s)
  {
    match l
    case Enqueue => if !Full(pool, s) { SignalWeight(s.workers, s'.workers); }
    case Dequeue(w) => SumUpdate(WorkerWeight, s.workers, w, s'.workers[w]);
    case Finish(w) =>
      SumUpdate(WorkerWeight, s.workers, w, Idle);
      if pool.KeyValue? { SignalWeight(s.workers[w := Idle], s'.workers); }
    case SpuriousWorker(w) => SumUpdate(WorkerWeight, s.workers, w, Asleep(true));
    case SpuriousProducer =>
  }

  ghost predicate QuietStep(pool: Pool, s: State, l: Label, s': State) {
    Step(pool, s, l, s') && !l.Accept?
  }

  /** A stretch of a run in which nothing is accepted. */
  ghost predicate Drains(pool: Pool, trace: seq<State>, labels: seq<Label>) {
    && |trace| == |labels| + 1 && Inv(pool, trace[0])
    && forall i :: 0 <= i < |labels| ==> QuietStep(pool, trace[i], labels[i], trace[i + 1])
  }

  lemma QuietStepKeeps(pool: Pool, s: State, l: Label, s': State)
    requires Inv(pool, s) && QuietStep(pool, s, l, s')
    ensures Inv(pool, s') && |s'.workers| == |s.workers|
    ensures if Spurious(l) then Pending(s') <= Pending(s) + 1 else Pending(s') < Pending(s)
  {
    DrainStep(pool, s, l, s');
    StepInv(pool, s, l, s');
  }

  function SpuriousCount(labels: seq<Label>): nat {
    if labels == [] then 0
    else SpuriousCount(labels[..|labels| - 1]) + if Spurious(labels[|labels| - 1]) then 1 else 0
  }

  lemma {:induction false} DrainBound(pool: Pool, trace: seq<State>, labels: seq<Label>)
    requires Drains(pool, trace, labels)
    ensures Inv(pool, trace[|labels|]) && |trace[|labels|].workers| == |trace[0].workers|
    ensures |labels| + Pending(trace[|labels|]) <= Pending(trace[0]) + 2 * SpuriousCount(labels)
  {
    if labels != [] {
      var n := |labels| - 1;
      DrainBound(pool, trace[..|labels|], labels[..n]);
      QuietStepKeeps(pool, trace[n], labels[n], trace[n + 1]);
    }
  }

  /** The accept loop or a worker can run, without a new connection. */
  ghost predicate CanGoOn(pool: Pool, s: State) {
    exists l: Label, s' :: !Spurious(l) && !l.Accept? && Step(pool, s, l, s')
  }

  /** Nothing queued or held, every worker asleep, and everything that was queued served in order. */
  predicate AtRest(s: State) {
    && s.queue == [] && s.producer == Accepting && Fds(s.served) == s.enqueued
    && forall w :: 0 <= w < |s.workers| ==> s.workers[w] == Asleep(false)
  }

  lemma SomeSignal(ws: seq<Worker>) returns (ws': seq<Worker>)
    ensures SignalWorker(ws, ws')
  {
    ws' := ws;
    if i :| 0 <= i < |ws| && ws[i] == Asleep(false) { ws' := ws[i := Asleep(true)]; }
  }

  lemma WorkerCanRun(pool: Pool, s: State, w: nat)
    requires w < |s.workers|
    ensures s.workers[w].Busy? ==> exists s' :: Step(pool, s, Finish(w), s')
    ensures s.workers[w] == Idle || s.workers[w] == Asleep(true) ==> exists s' :: Step(pool, s, Dequeue(w), s')
  {
    if s.workers[w].Busy? {
      var ws := SomeSignal(s.workers[w := Idle]);
      assert Step(pool, s, Finish(w), s.(workers := if pool.Web? then s.workers[w := Idle] else ws));
    } else if s.workers[w] == Asleep(false) {
    } else if s.queue == [] {
      assert Step(pool, s, Dequeue(w), s.(workers := s.workers[w := Asleep(false)]));
    } else {
      assert Step(pool, s, Dequeue(w),
        State(s.queue[1..], if pool.Web? then WakeProducer(s.producer) else s.producer,
              s.workers[w := Busy(s.queue[0])], s.enqueued, s.served + [(s.queue[0], w)]));
    }
  }

  lemma WorkerGoesOn(pool: Pool, s: State, w: nat)
    requires w < |s.workers| && s.workers[w] != Asleep(false)
    ensures CanGoOn(pool, s)
  {
    WorkerCanRun(pool, s, w);
    var l := if s.workers[w].Busy? then Finish(w) else Dequeue(w);
    var s' :| Step(pool, s, l, s');
    assert !Spurious(l) && !l.Accept?;
  }

  lemma ProducerCanRun(pool: Pool, s: State)
    requires s.producer.Holding? || (s.producer.Stalled? && s.producer.signalled)
    ensures exists s' :: Step(pool, s, Enqueue, s')
  {
    var ws := SomeSignal(s.workers);
    if Full(pool, s) {
      assert Step(pool, s, Enqueue, s.(producer := Stalled(s.producer.fd, false)));
    } else {
      assert Step(pool, s, Enqueue,
        State(s.queue + [s.producer.fd], Accepting, ws, s.enqueued + [s.producer.fd], s.served));
    }
  }

  /** A pool with a worker, and room in its queue, stops only at rest. */
  lemma GoesOnUnlessAtRest(pool: Pool, s: State)
    requires Inv(pool, s) && |s.workers| > 0 && (pool.Web? ==> pool.queueMax > 0)
    ensures CanGoOn(pool, s) <==> !AtRest(s)
  {
    if w :| 0 <= w < |s.workers| && s.workers[w] != Asleep(false) {
      WorkerGoesOn(pool, s, w);
    } else {
      assert s.workers[0] == Asleep(false);
      SumZero(Woken, s.workers);
      assert Fds(s.served) + [] == Fds(s.served);
      if s.producer != Accepting {
        ProducerCanRun(pool, s);
        var s' :| Step(pool, s, Enqueue, s');
        assert !Spurious(Enqueue) && !Enqueue.Accept?;
      }
    }
  }

  /**
   Both pools drain: from any reachable state, when nothing more is accepted, the threads take a
   bounded number of steps and can stop only with every accepted connection served.
   */
  lemma PoolDrains(pool: Pool, trace: seq<State>, labels: seq<Label>)
    requires Drains(pool, trace, labels)
    requires |trace[0].workers| > 0 && (pool.Web? ==> pool.queueMax > 0)
    ensures |labels| <= 4 * |trace[0].queue| + 7 + Times(|trace[0].workers|, 3) + 2 * SpuriousCount(labels)
    ensures CanGoOn(pool, trace[|labels|]) || AtRest(trace[|labels|])
  {
    DrainBound(pool, trace, labels);
    PendingBound(trace[0]);
    GoesOnUnlessAtRest(pool, trace[|labels|]);
  }

  lemma PendingBound(s: State)
    ensures Pending(s) <= 4 * |s.queue| + 7 + Times(|s.workers|, 3)
  {
    var none: Worker -> nat := w => 0;
    SumGrowth(none, s.workers, WorkerWeight, s.workers, 3);
    SumZero(none, s.workers);
  }
}
