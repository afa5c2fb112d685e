/** The program's globals and thread bodies; each method is one stretch of code under the mutex. */
module MasterWorkerProgram {
  import opened MasterWorkerModel
  import opened MasterWorkerProofs
  import opened MasterWorkerTheorems

  class Program {
    const totalItems: int
    const maxBufSize: nat
    const numWorkers: nat
    const numMasters: nat
    const buffer: array<int>
    var currBufSize: nat
    var itemToProduce: int
    var workerTurn: nat
    var masters: seq<Master>
    var workers: seq<Worker>
    ghost var produced: seq<(int, nat)>
    ghost var consumed: seq<(int, nat)>

    ghost function Cfg(): Config { Config(totalItems, maxBufSize, numWorkers, numMasters) }

    ghost function View(): State
      reads this, buffer
      requires currBufSize <= buffer.Length
    {
      State(buffer[..currBufSize], itemToProduce, workerTurn, masters, workers, produced, consumed)
    }

    ghost predicate Valid()
      reads this, buffer
    {
      buffer.Length == maxBufSize && currBufSize <= maxBufSize && Inv(Cfg(), View())
    }

    constructor (totalItems: int, maxBufSize: nat, numWorkers: nat, numMasters: nat)
      requires numWorkers > 0
      ensures Valid() && Init(Cfg(), View()) && fresh(buffer)
      ensures Cfg() == Config(totalItems, maxBufSize, numWorkers, numMasters)
    {
      this.totalItems, this.maxBufSize := totalItems, maxBufSize;
      this.numWorkers, this.numMasters := numWorkers, numMasters;
      buffer := new int[maxBufSize];
      currBufSize, itemToProduce, workerTurn := 0, 0, 0;
      masters := seq(numMasters, i => MEnter);
      workers := seq(numWorkers, i => WEnter);
      produced, consumed := [], [];
      new;
      InitInv(Cfg(), View());
    }

    /** pthread_cond_signal(&master): the system picks the waiter. */
    method SignalMaster()
      modifies this`masters
      ensures Signal(old(masters), masters)
    {
      if i :| 0 <= i < |masters| && masters[i] == MWait(false) {
        masters := masters[i := MWait(true)];
      }
    }

    /** The lines of generate_requests_loop that put the next item in the buffer. */
    method AppendItem(m: nat)
      requires currBufSize < buffer.Length && itemToProduce < totalItems
      modifies this, buffer
      ensures currBufSize <= buffer.Length && View() == Produce(Cfg(), old(View()), m)
    {
      ghost var before := View();
      buffer[currBufSize] := itemToProduce;
      currBufSize := currBufSize + 1;
      produced := produced + [(itemToProduce, m)];
      itemToProduce := itemToProduce + 1;
      assert buffer[..currBufSize] == before.buffer + [before.itemToProduce];
    }

    /** The code of generate_requests_loop from the lock (or the wakeup) to the next wait or unlock. */
    method MasterSection(m: nat)
      requires currBufSize <= buffer.Length == maxBufSize && MasterReady(masters, m)
      modifies this, buffer
      ensures currBufSize <= buffer.Length && MasterStep(Cfg(), old(View()), View(), m)
    {
      if currBufSize == maxBufSize {
        masters := masters[m := MWait(false)];
      } else {
        if itemToProduce < totalItems {
          AppendItem(m);
        }
        workers := Broadcast(workers);
        masters := masters[m := MTest];
        SignalMaster();
      }
    }

    /** That stretch keeps the invariant and brings the program nearer its end. */
    method GenerateRequests(m: nat)
      requires Valid() && MasterReady(masters, m)
      modifies this, buffer
      ensures Valid() && Step(Cfg(), old(View()), RunMaster(m), View())
      ensures Measure(Cfg(), View()) < old(Measure(Cfg(), View()))
    {
      ghost var before := View();
      MasterSection(m);
      StepKeeps(Cfg(), before, RunMaster(m), View());
    }

    /** The unlocked test that ends the master's loop. */
    method TestForExit(m: nat)
      requires Valid() && m < |masters| && masters[m] == MTest
      modifies this
      ensures Valid() && Step(Cfg(), old(View()), TestMaster(m), View())
      ensures Measure(Cfg(), View()) < old(Measure(Cfg(), View()))
    {
      ghost var before := View();
      masters := masters[m := if itemToProduce >= totalItems then MReturned else MEnter];
      StepKeeps(Cfg(), before, TestMaster(m), View());
    }

    /** worker_turn = (worker_turn + 1) % num_workers */
    method PassTurn()
      requires workerTurn < numWorkers
      modifies this`workerTurn
      ensures workerTurn == NextTurn(numWorkers, old(workerTurn))
    {
      NextTurnIs(numWorkers, workerTurn);
      workerTurn := (workerTurn + 1) % numWorkers;
    }

    /** The lines of consume_item that take the newest item and pass the turn on. */
    method TakeItem(w: nat)
      requires 0 < currBufSize <= buffer.Length && w < |workers| == numWorkers && workerTurn < numWorkers
      modifies this
      ensures currBufSize <= buffer.Length && TakeStep(old(View()), View(), w)
    {
      ghost var before := View();
      currBufSize := currBufSize - 1;
      var item := buffer[currBufSize];
      consumed := consumed + [(item, w)];
      PassTurn();
      SignalMaster();
      workers := Broadcast(workers[w := WEnter]);
      assert buffer[..currBufSize] == before.buffer[..currBufSize];
    }

    /** The code of consume_item from the lock (or the wakeup) to the next wait, unlock or return. */
    method WorkerSection(w: nat)
      requires currBufSize <= buffer.Length && workerTurn < numWorkers == |workers| && WorkerReady(workers, w)
      modifies this
      ensures currBufSize <= buffer.Length && WorkerStep(Cfg(), old(View()), View(), w)
    {
      if !workers[w].WItem? && workerTurn != w {
        workers := workers[w := WTurn(false)];
      } else if currBufSize == 0 {
        if itemToProduce >= totalItems {
          PassTurn();
          workers := Broadcast(workers[w := WReturned]);
        } else {
          workers := workers[w := WItem(false)];
        }
      } else {
        TakeItem(w);
      }
    }

    /** That stretch keeps the invariant and brings the program nearer its end. */
    method ConsumeItem(w: nat)
      requires Valid() && WorkerReady(workers, w)
      modifies this
      ensures Valid() && Step(Cfg(), old(View()), RunWorker(w), View())
      ensures Measure(Cfg(), View()) < old(Measure(Cfg(), View()))
    {
      ghost var before := View();
      WorkerSection(w);
      StepKeeps(Cfg(), before, RunWorker(w), View());
    }

    /** The system wakes a sleeping thread that nobody signalled, if there is one. */
    method WakeSpuriously() returns (woke: bool)
      requires Valid()
      modifies this
      ensures Valid()
      ensures if woke then Measure(Cfg(), View()) <= old(Measure(Cfg(), View())) + 1 else View() == old(View())
    {
      ghost var before := View();
      woke := true;
      if m: nat :| m < |masters| && masters[m] == MWait(false) {
        masters := masters[m := MWait(true)];
        StepKeeps(Cfg(), before, SpuriousMaster(m), View());
      } else if w: nat :| w < |workers| && Awake(workers[w]) != workers[w] {
        workers := workers[w := Awake(workers[w])];
        StepKeeps(Cfg(), before, SpuriousWorker(w), View());
      } else {
        woke := false;
      }
    }

    /** The system runs one thread that can run, if there is one. */
    method RunOne() returns (ran: bool)
      requires Valid()
      modifies this, buffer
      ensures Valid()
      ensures ran ==> Measure(Cfg(), View()) < old(Measure(Cfg(), View()))
      ensures !ran ==> View() == old(View()) && !Runnable(View())
    {
      ran := true;
      if {
        case m: nat :| m < |masters| && masters[m] == MTest => TestForExit(m);
        case m: nat :| m < |masters| && MasterReady(masters, m) => GenerateRequests(m);
        case w: nat :| w < |workers| && WorkerReady(workers, w) => ConsumeItem(w);
        case !MastersRunnable(masters) && !WorkersRunnable(workers) => ran := false;
      }
    }

    /**
     Joining all threads, whatever order the system runs them in and wherever it puts its spurious
     wakeups, if only finitely many: it returns, with every item delivered.
     */
    method JoinAll(spuriousWakeups: nat)
      requires Valid() && Healthy(Cfg())
      modifies this, buffer
      ensures Valid() && AllReturned(View()) && DeliveredExactly(Cfg(), View())
    {
      var running, left := true, spuriousWakeups;
      while running
        invariant Valid()
        invariant !running ==> !Runnable(View())
        decreases running, Measure(Cfg(), View()) + 2 * left
      {
        var wakeUp: bool := *;
        if wakeUp && left > 0 {
          var woke := WakeSpuriously();
          left := left - 1;
        } else {
          running := RunOne();
        }
      }
      if !AllReturned(View()) { NoDeadlock(Cfg(), View()); }
      DoneMeansDelivered(Cfg(), View());
    }
  }
}
