/**
 The two reader-writer locks as one state machine. A step is one stretch of code under the
 lock's mutex: from locking it, or from waking inside a wait, to the next wait or unlock.
 The variants differ in what blocks a reader and in whom a leaving writer wakes.
 */
module RwLockModel {
  datatype Variant = ReaderPref | WriterPref

  /** Where a thread is: outside the lock, asleep on can_read or can_write, or holding the lock. */
  datatype Thread = Idle | RWait(signalled: bool) | Reading | WWait(signalled: bool) | Writing

  datatype State = State(readerCount: int, writerCount: int, writing: bool, threads: seq<Thread>)

  datatype Label =
    | ReaderLock(t: nat) | ReaderUnlock(t: nat)
    | WriterLock(t: nat) | WriterRetry(t: nat) | WriterUnlock(t: nat)
    | Spurious(t: nat)

  predicate Init(s: State) {
    s == State(0, 0, false, s.threads) && forall t :: 0 <= t < |s.threads| ==> s.threads[t] == Idle
  }

  predicate At(ts: seq<Thread>, t: nat, st: Thread) { t < |ts| && ts[t] == st }

  predicate Some(ts: seq<Thread>, st: Thread) { exists t :: 0 <= t < |ts| && ts[t] == st }

  /** pthread_cond_broadcast(&can_read). */
  function WakeReaders(ts: seq<Thread>): (r: seq<Thread>)
    ensures |r| == |ts|
    ensures forall t :: 0 <= t < |ts| ==> r[t] == if ts[t].RWait? then RWait(true) else ts[t]
  {
    seq(|ts|, t requires 0 <= t < |ts| => if ts[t].RWait? then RWait(true) else ts[t])
  }

  /** pthread_cond_signal(&can_write): some unsignalled waiting writer, if there is one. */
  ghost predicate SignalWriter(ts: seq<Thread>, ts': seq<Thread>) {
    if Some(ts, WWait(false))
    then exists t :: 0 <= t < |ts| && ts[t] == WWait(false) && ts' == ts[t := WWait(true)]
    else ts' == ts
  }

  predicate ReaderBlocked(v: Variant, s: State) {
    s.writing || (v.WriterPref? && s.writerCount > 0)
  }

  predicate WriterBlocked(s: State) { s.readerCount > 0 || s.writing }

  function TryRead(v: Variant, s: State, t: nat): State
    requires t < |s.threads|
  {
    if ReaderBlocked(v, s) then s.(threads := s.threads[t := RWait(false)])
    else s.(readerCount := s.readerCount + 1, threads := s.threads[t := Reading])
  }

  function TryWrite(s: State, t: nat): State
    requires t < |s.threads|
  {
    if WriterBlocked(s) then s.(threads := s.threads[t := WWait(false)])
    else s.(writing := true, threads := s.threads[t := Writing])
  }

  /** Only the writer-preference lock counts the writers that ask. */
  function Announce(v: Variant, s: State): State {
    if v.WriterPref? then s.(writerCount := s.writerCount + 1) else s
  }

  ghost predicate ReaderUnlockStep(s: State, s': State, t: nat)
    requires t < |s.threads|
  {
    var ts := s.threads[t := Idle];
    && s' == State(s.readerCount - 1, s.writerCount, s.writing, s'.threads)
    && if s.readerCount - 1 == 0 then SignalWriter(ts, s'.threads) else s'.threads == ts
  }

  ghost predicate WriterUnlockStep(v: Variant, s: State, s': State, t: nat)
    requires t < |s.threads|
  {
    var ts := s.threads[t := Idle];
    match v
    case WriterPref =>
      && s' == State(s.readerCount, s.writerCount - 1, false, s'.threads)
      && if s.writerCount - 1 == 0 then s'.threads == WakeReaders(ts) else SignalWriter(ts, s'.threads)
    case ReaderPref =>
      && s' == State(s.readerCount, s.writerCount, false, s'.threads)
      && if s.readerCount == 0 then SignalWriter(WakeReaders(ts), s'.threads) else s'.threads == WakeReaders(ts)
  }

  ghost predicate Step(v: Variant, s: State, l: Label, s': State) {
    match l
    case ReaderLock(t) => (At(s.threads, t, Idle) || At(s.threads, t, RWait(true))) && s' == TryRead(v, s, t)
    case ReaderUnlock(t) => At(s.threads, t, Reading) && ReaderUnlockStep(s, s', t)
    case WriterLock(t) => At(s.threads, t, Idle) && s' == TryWrite(Announce(v, s), t)
    case WriterRetry(t) => At(s.threads, t, WWait(true)) && s' == TryWrite(s, t)
    case WriterUnlock(t) => At(s.threads, t, Writing) && WriterUnlockStep(v, s, s', t)
    case Spurious(t) =>
      || (At(s.threads, t, RWait(false)) && s' == s.(threads := s.threads[t := RWait(true)]))
      || (At(s.threads, t, WWait(false)) && s' == s.(threads := s.threads[t := WWait(true)]))
  }

  ghost predicate Run(v: Variant, trace: seq<State>, labels: seq<Label>) {
    && |trace| == |labels| + 1
    && Init(trace[0])
    && forall i :: 0 <= i < |labels| ==> Step(v, trace[i], labels[i], trace[i + 1])
  }
}
