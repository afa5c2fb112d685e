/** The lock operations themselves; each method is one stretch of code under the lock's mutex. */
module RwLockPrograms {
  import opened RwLockModel
  import opened RwLockProofs

  /** struct read_write_lock, with the threads that use it and the state of its condition variables. */
  class LockState {
    var readerCount: int
    var writerCount: int
    var writerWriting: bool
    var threads: seq<Thread>

    ghost function View(): State
      reads this
    {
      State(readerCount, writerCount, writerWriting, threads)
    }

    /** InitalizeReadWriteLock, before any of n threads has used the lock. */
    constructor (n: nat)
      ensures Init(View()) && |threads| == n
    {
      readerCount, writerCount, writerWriting := 0, 0, false;
      threads := seq(n, i => Idle);
    }

    /** pthread_cond_signal(&can_write): the system picks the waiter. */
    method SignalCanWrite()
      modifies this`threads
      ensures SignalWriter(old(threads), threads)
    {
      if t :| 0 <= t < |threads| && threads[t] == WWait(false) {
        threads := threads[t := WWait(true)];
      }
    }
  }

  class WriterPreferenceLock {
    const rw: LockState

    ghost predicate Valid() reads this, rw { Inv(WriterPref, rw.View()) }

    constructor (n: nat)
      ensures Valid() && fresh(rw) && Init(rw.View()) && |rw.threads| == n
    {
      rw := new LockState(n);
      new;
      InitInv(WriterPref, rw.View());
    }

    method ReaderLock(t: nat)
      requires Valid() && (At(rw.threads, t, Idle) || At(rw.threads, t, RWait(true)))
      modifies rw
      ensures Valid() && Step(WriterPref, old(rw.View()), Label.ReaderLock(t), rw.View())
    {
      ghost var before := rw.View();
      if rw.writerCount > 0 || rw.writerWriting {
        rw.threads := rw.threads[t := RWait(false)];
      } else {
        rw.readerCount := rw.readerCount + 1;
        rw.threads := rw.threads[t := Reading];
      }
      StepInv(WriterPref, before, Label.ReaderLock(t), rw.View());
    }

    method ReaderUnlock(t: nat)
      requires Valid() && At(rw.threads, t, Reading)
      modifies rw
      ensures Valid() && Step(WriterPref, old(rw.View()), Label.ReaderUnlock(t), rw.View())
    {
      ghost var before := rw.View();
      rw.threads := rw.threads[t := Idle];
      rw.readerCount := rw.readerCount - 1;
      if rw.readerCount == 0 {
        rw.SignalCanWrite();
      }
      StepInv(WriterPref, before, Label.ReaderUnlock(t), rw.View());
    }

    method WriterLock(t: nat)
      requires Valid() && At(rw.threads, t, Idle)
      modifies rw
      ensures Valid() && Step(WriterPref, old(rw.View()), Label.WriterLock(t), rw.View())
    {
      ghost var before := rw.View();
      rw.writerCount := rw.writerCount + 1;
      WaitOrWrite(t);
      StepInv(WriterPref, before, Label.WriterLock(t), rw.View());
    }

    /** The loop of WriterLock, once: on entry and after every wakeup. */
    method WaitOrWrite(t: nat)
      requires t < |rw.threads|
      modifies rw
      ensures rw.View() == TryWrite(old(rw.View()), t)
    {
      if rw.readerCount > 0 || rw.writerWriting {
        rw.threads := rw.threads[t := WWait(false)];
      } else {
        rw.writerWriting := true;
        rw.threads := rw.threads[t := Writing];
      }
    }

    method WriterWake(t: nat)
      requires Valid() && At(rw.threads, t, WWait(true))
      modifies rw
      ensures Valid() && Step(WriterPref, old(rw.View()), WriterRetry(t), rw.View())
    {
      ghost var before := rw.View();
      WaitOrWrite(t);
      StepInv(WriterPref, before, WriterRetry(t), rw.View());
    }

    method WriterUnlock(t: nat)
      requires Valid() && At(rw.threads, t, Writing)
      modifies rw
      ensures Valid() && Step(WriterPref, old(rw.View()), Label.WriterUnlock(t), rw.View())
    {
      ghost var before := rw.View();
      rw.threads := rw.threads[t := Idle];
      rw.writerWriting := false;
      rw.writerCount := rw.writerCount - 1;
      if rw.writerCount == 0 {
        rw.threads := WakeReaders(rw.threads);
      } else {
        rw.SignalCanWrite();
      }
      StepInv(WriterPref, before, Label.WriterUnlock(t), rw.View());
    }
  }

  class ReaderPreferenceLock {
    const rw: LockState

    ghost predicate Valid() reads this, rw { Inv(ReaderPref, rw.View()) }

    constructor (n: nat)
      ensures Valid() && fresh(rw) && Init(rw.View()) && |rw.threads| == n
    {
      rw := new LockState(n);
      new;
      InitInv(ReaderPref, rw.View());
    }

    method ReaderLock(t: nat)
      requires Valid() && (At(rw.threads, t, Idle) || At(rw.threads, t, RWait(true)))
      modifies rw
      ensures Valid() && Step(ReaderPref, old(rw.View()), Label.ReaderLock(t), rw.View())
    {
      ghost var before := rw.View();
      if rw.writerWriting {
        rw.threads := rw.threads[t := RWait(false)];
      } else {
        rw.readerCount := rw.readerCount + 1;
        rw.threads := rw.threads[t := Reading];
      }
      StepInv(ReaderPref, before, Label.ReaderLock(t), rw.View());
    }

    method ReaderUnlock(t: nat)
      requires Valid() && At(rw.threads, t, Reading)
      modifies rw
      ensures Valid() && Step(ReaderPref, old(rw.View()), Label.ReaderUnlock(t), rw.View())
    {
      ghost var before := rw.View();
      rw.threads := rw.threads[t := Idle];
      rw.readerCount := rw.readerCount - 1;
      if rw.readerCount == 0 {
        rw.SignalCanWrite();
      }
      StepInv(ReaderPref, before, Label.ReaderUnlock(t), rw.View());
    }

    /** One pass of WriterLock's loop; a fresh call and a wakeup run the same lines here. */
    method WriterLock(t: nat)
      requires Valid() && (At(rw.threads, t, Idle) || At(rw.threads, t, WWait(true)))
      modifies rw
      ensures Valid()
      ensures Step(ReaderPref, old(rw.View()),
                   if old(rw.threads[t].Idle?) then Label.WriterLock(t) else WriterRetry(t), rw.View())
    {
      ghost var before := rw.View();
      ghost var l := if rw.threads[t].Idle? then Label.WriterLock(t) else WriterRetry(t);
      if rw.readerCount > 0 || rw.writerWriting {
        rw.threads := rw.threads[t := WWait(false)];
      } else {
        rw.writerWriting := true;
        rw.threads := rw.threads[t := Writing];
      }
      StepInv(ReaderPref, before, l, rw.View());
    }

    method WriterUnlock(t: nat)
      requires Valid() && At(rw.threads, t, Writing)
      modifies rw
      ensures Valid() && Step(ReaderPref, old(rw.View()), Label.WriterUnlock(t), rw.View())
    {
      ghost var before := rw.View();
      rw.threads := rw.threads[t := Idle];
      rw.writerWriting := false;
      rw.threads := WakeReaders(rw.threads);
      if rw.readerCount == 0 {
        rw.SignalCanWrite();
      }
      StepInv(ReaderPref, before, Label.WriterUnlock(t), rw.View());
    }
  }
}
