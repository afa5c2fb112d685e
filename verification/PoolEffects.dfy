/**
 Which connection a worker serves, and what each critical section of the two pools does, told from the
 queue and from who runs. Nothing here goes through the predicates that make up a step.
 */
module PoolEffects {
  import opened Sums
  import opened PoolQueues
  import opened PoolDrain

  // ---- who serves what

  /** Worker w's own last entry in the log is this one. */
  ghost predicate LastEntry(served: seq<(int, nat)>, w: nat, fd: int) {
    exists k :: 0 <= k < |served| && served[k] == (fd, w) && NoneAfter(served, w, k)
  }

  predicate NoneAfter(served: seq<(int, nat)>, w: nat, k: nat) {
    forall j :: k < j < |served| ==> served[j].1 != w
  }

  /** A busy worker works on what it took off the queue last. */
  ghost predicate Serving(s: State) {
    forall w: nat :: w < |s.workers| && s.workers[w].Busy? ==> LastEntry(s.served, w, s.workers[w].fd)
  }

  /** Taking the front of the queue: the worker serves it, it is logged under that worker, and it is gone. */
  lemma DequeueExactly(pool: Pool, s: State, w: nat, s': State)
    requires Step(pool, s, Dequeue(w), s')
    ensures w < |s.workers| == |s'.workers| && (s.workers[w] == Idle || s.workers[w] == Asleep(true))
    ensures forall u :: 0 <= u < |s.workers| && u != w ==> s'.workers[u] == s.workers[u]
    ensures if s.queue == []
      then && s'.workers[w] == Asleep(false) && s'.queue == [] && s'.served == s.served
           && s'.producer == s.producer
      else && s'.workers[w].Busy? && [s'.workers[w].fd] + s'.queue == s.queue
           && s'.served == s.served + [(s'.workers[w].fd, w)]
           && s'.producer == if pool.Web? && s.producer.Stalled? then Stalled(s.producer.fd, true) else s.producer
    ensures s'.enqueued == s.enqueued
  {
  }

  lemma EntryStays(served: seq<(int, nat)>, w: nat, fd: int, e: (int, nat))
    requires LastEntry(served, w, fd) && e.1 != w
    ensures LastEntry(served + [e], w, fd)
  {
    var k :| 0 <= k < |served| && served[k] == (fd, w) && NoneAfter(served, w, k);
    assert (served + [e])[k] == (fd, w) && NoneAfter(served + [e], w, k);
  }

  lemma EntryMade(served: seq<(int, nat)>, w: nat, fd: int)
    ensures LastEntry(served + [(fd, w)], w, fd)
  {
    assert (served + [(fd, w)])[|served|] == (fd, w) && NoneAfter(served + [(fd, w)], w, |served|);
  }

  lemma StepServing(pool: Pool, s: State, l: Label, s': State)
    requires Serving(s) && Step(pool, s, l, s')
    ensures Serving(s')
  {
    forall w: nat | w < |s'.workers| && s'.workers[w].Busy? ensures LastEntry(s'.served, w, s'.workers[w].fd) {
      if l.Dequeue? && s.queue != [] {
        DequeueExactly(pool, s, l.w, s');
        if w == l.w { EntryMade(s.served, w, s'.workers[w].fd); }
        else { EntryStays(s.served, w, s.workers[w].fd, (s'.workers[l.w].fd, l.w)); }
      } else {
        StepBusy(pool, s, l, s', w);
      }
    }
  }

  /** Workers stay busy with what they are busy with, and become busy only by taking something off the queue. */
  lemma StepBusy(pool: Pool, s: State, l: Label, s': State, w: nat)
    requires Step(pool, s, l, s') && w < |s'.workers| && s'.workers[w].Busy?
    ensures |s'.workers| == |s.workers|
    ensures s'.workers[w] == s.workers[w] || (l == Dequeue(w) && s.queue != [])
    ensures s'.served == s.served || (l.Dequeue? && s.queue != [])
  {
    if l.Enqueue? && !Full(pool, s) { SignalAdds(s.workers, s'.workers); }
    if l.Finish? && pool.KeyValue? { SignalAdds(s.workers[l.w := Idle], s'.workers); }
  }

  /** In every state of every run a worker that is busy with a connection is the one that took it, last of its own. */
  lemma {:induction false} ServesWhatItTook(pool: Pool, trace: seq<State>, labels: seq<Label>, i: nat)
    requires Run(pool, trace, labels) && i < |trace|
    ensures Serving(trace[i])
  {
    if i > 0 {
      ServesWhatItTook(pool, trace, labels, i - 1);
      StepServing(pool, trace[i - 1], labels[i - 1], trace[i]);
    }
  }

  /** In every run the oldest queued connection is the one that is served next, by the worker that takes it. */
  lemma OldestServedNext(pool: Pool, trace: seq<State>, labels: seq<Label>, k: nat, w: nat)
    requires Run(pool, trace, labels) && k < |labels| && labels[k] == Dequeue(w) && trace[k].queue != []
    ensures w < |trace[k + 1].workers| && trace[k + 1].workers[w] == Busy(trace[k].queue[0])
    ensures [trace[k].queue[0]] + trace[k + 1].queue == trace[k].queue
    ensures LastEntry(trace[k + 1].served, w, trace[k].queue[0])
  {
    assert Step(pool, trace[k], labels[k], trace[k + 1]);
    DequeueExactly(pool, trace[k], w, trace[k + 1]);
    ServesWhatItTook(pool, trace, labels, k + 1);
  }

  // ---- the other critical sections

  predicate WokenUp(ws: seq<Worker>, ws': seq<Worker>, u: nat) {
    u < |ws| && u < |ws'| && ws[u] == Asleep(false) && ws'[u] == Asleep(true)
  }

  /** One sleeping worker is woken, if there is one, and nobody else but w changes. */
  ghost predicate WakesOne(ws: seq<Worker>, ws': seq<Worker>, w: int) {
    && |ws'| == |ws|
    && (forall u: nat :: u < |ws| && u != w ==> ws'[u] == ws[u] || WokenUp(ws, ws', u))
    && (forall a: nat, b: nat :: WokenUp(ws, ws', a) && WokenUp(ws, ws', b) ==> a == b)
    && ((exists u: nat :: WokenUp(ws, ws', u)) <==> exists u: nat :: u < |ws| && ws[u] == Asleep(false))
  }

  lemma SignalWakesOne(ws: seq<Worker>, ws0: seq<Worker>, ws': seq<Worker>, w: int)
    requires |ws0| == |ws| && (forall u :: 0 <= u < |ws| && u != w ==> ws0[u] == ws[u])
    requires 0 <= w < |ws| ==> ws[w] != Asleep(false) && ws0[w] != Asleep(false)
    requires SignalWorker(ws0, ws')
    ensures WakesOne(ws, ws', w)
    ensures 0 <= w < |ws| ==> ws'[w] == ws0[w]
  {
    if u: nat :| u < |ws| && ws[u] == Asleep(false) {
      assert ws0[u] == Asleep(false);
    }
    if k :| 0 <= k < |ws0| && ws0[k] == Asleep(false) && ws' == ws0[k := Asleep(true)] {
      assert k != w && WokenUp(ws, ws', k);
    }
  }

  /** The accept loop sleeps exactly on a full queue; else it appends its connection and wakes one worker. */
  lemma EnqueueExactly(pool: Pool, s: State, s': State)
    requires Step(pool, s, Enqueue, s')
    ensures s.producer.Holding? || (s.producer.Stalled? && s.producer.signalled)
    ensures if pool.Web? && |s.queue| == pool.queueMax
      then s'.producer == Stalled(s.producer.fd, false) && s'.queue == s.queue && s'.workers == s.workers
      else && s'.producer == Accepting && s'.queue == s.queue + [s.producer.fd]
           && WakesOne(s.workers, s'.workers, -1)
    ensures s'.enqueued == s.enqueued + if s'.producer == Accepting then [s.producer.fd] else []
    ensures s'.served == s.served
  {
    if !Full(pool, s) { SignalWakesOne(s.workers, s.workers, s'.workers, -1); }
  }

  /** A finished worker is idle again; in the key-value server it wakes another one. */
  lemma FinishExactly(pool: Pool, s: State, w: nat, s': State)
    requires Step(pool, s, Finish(w), s')
    ensures w < |s.workers| == |s'.workers| && s.workers[w].Busy? && s'.workers[w] == Idle
    ensures if pool.KeyValue? then WakesOne(s.workers, s'.workers, w)
      else forall u :: 0 <= u < |s.workers| && u != w ==> s'.workers[u] == s.workers[u]
    ensures s' == s.(workers := s'.workers)
  {
    if pool.KeyValue? { SignalWakesOne(s.workers, s.workers[w := Idle], s'.workers, w); }
  }

  /** What can happen in a state: any thread that is not asleep unsignalled can run, and any sleeper can wake. */
  lemma EnabledExactlyWhen(pool: Pool, s: State, w: nat, fd: int)
    ensures (exists s' :: Step(pool, s, Dequeue(w), s'))
       <==> w < |s.workers| && (s.workers[w] == Idle || s.workers[w] == Asleep(true))
    ensures (exists s' :: Step(pool, s, Finish(w), s')) <==> w < |s.workers| && s.workers[w].Busy?
    ensures (exists s' :: Step(pool, s, Enqueue, s'))
       <==> s.producer.Holding? || (s.producer.Stalled? && s.producer.signalled)
    ensures (exists s' :: Step(pool, s, SpuriousWorker(w), s')) <==> w < |s.workers| && s.workers[w] == Asleep(false)
    ensures (exists s' :: Step(pool, s, SpuriousProducer, s')) <==> s.producer.Stalled?
    ensures (exists s' :: Step(pool, s, Accept(fd), s')) <==> s.producer.Accepting?
    ensures forall s' :: Step(pool, s, Accept(fd), s') ==> s' == s.(producer := Holding(fd))
  {
    if s.producer.Stalled? {
      assert Step(pool, s, SpuriousProducer, s.(producer := s.producer.(signalled := true)));
    }
    if s.producer.Accepting? { assert Step(pool, s, Accept(fd), s.(producer := Holding(fd))); }
    if w < |s.workers| { WorkerCanRun(pool, s, w); }
    if s.producer.Holding? || (s.producer.Stalled? && s.producer.signalled) { ProducerCanRun(pool, s); }
    if w < |s.workers| && s.workers[w] == Asleep(false) {
      assert Step(pool, s, SpuriousWorker(w), s.(workers := s.workers[w := Asleep(true)]));
    }
  }
}
