/** Mutual exclusion, exact counters, no lost wakeup and writer preference for the reader-writer locks. */
module RwLockProofs {
  import opened Sums
  import opened RwLockModel

  function Reads(t: Thread): nat { if t.Reading? then 1 else 0 }
  function Writes(t: Thread): nat { if t.Writing? then 1 else 0 }
  function WantsWrite(t: Thread): nat { if t.Writing? || t.WWait? then 1 else 0 }

  /** The three fields of the lock say exactly how many threads hold it and ask for it. */
  ghost predicate Counters(v: Variant, s: State) {
    && s.readerCount == Sum(Reads, s.threads)
    && (if s.writing then 1 else 0) == Sum(Writes, s.threads)
    && s.writerCount == (if v.WriterPref? then Sum(WantsWrite, s.threads) else 0)
    && (s.writing ==> s.readerCount == 0)
  }

  /** Nobody sleeps unsignalled without a reason that will end in a wakeup. */
  ghost predicate SleepersJustified(v: Variant, s: State) {
    && (Some(s.threads, RWait(false)) ==> ReaderBlocked(v, s))
    && (Some(s.threads, WWait(false)) ==> WriterBlocked(s) || Some(s.threads, WWait(true)))
  }

  ghost predicate Inv(v: Variant, s: State) { Counters(v, s) && SleepersJustified(v, s) }

  lemma InitInv(v: Variant, s: State)
    requires Init(s)
    ensures Inv(v, s)
  {
    SumZero(Reads, s.threads);
    SumZero(Writes, s.threads);
    SumZero(WantsWrite, s.threads);
  }

  lemma SumsAfter(ts: seq<Thread>, t: nat, st: Thread)
    requires t < |ts|
    ensures Sum(Reads, ts[t := st]) == Sum(Reads, ts) - Reads(ts[t]) + Reads(st)
    ensures Sum(Writes, ts[t := st]) == Sum(Writes, ts) - Writes(ts[t]) + Writes(st)
    ensures Sum(WantsWrite, ts[t := st]) == Sum(WantsWrite, ts) - WantsWrite(ts[t]) + WantsWrite(st)
    ensures Reads(ts[t]) <= Sum(Reads, ts) && Writes(ts[t]) <= Sum(Writes, ts)
    ensures WantsWrite(ts[t]) <= Sum(WantsWrite, ts)
  {
    SumUpdate(Reads, ts, t, st);
    SumUpdate(Writes, ts, t, st);
    SumUpdate(WantsWrite, ts, t, st);
  }

  /** Waking threads changes nobody's claim on the lock. */
  lemma SumsWoken(ts: seq<Thread>, ts': seq<Thread>)
    requires |ts'| == |ts|
    requires forall t :: 0 <= t < |ts| ==>
      ts'[t] == ts[t] || (ts[t].RWait? && ts'[t].RWait?) || (ts[t].WWait? && ts'[t].WWait?)
    ensures Sum(Reads, ts') == Sum(Reads, ts)
    ensures Sum(Writes, ts') == Sum(Writes, ts)
    ensures Sum(WantsWrite, ts') == Sum(WantsWrite, ts)
  {
    SumSame(Reads, ts, ts');
    SumSame(Writes, ts, ts');
    SumSame(WantsWrite, ts, ts');
  }

  /** After a signal there is either nobody left asleep on can_write or somebody signalled. */
  lemma SignalWakes(ts: seq<Thread>, ts': seq<Thread>)
    requires SignalWriter(ts, ts')
    ensures |ts'| == |ts|
    ensures forall t :: 0 <= t < |ts| ==> ts'[t] == ts[t] || (ts[t].WWait? && ts'[t] == WWait(true))
    ensures Some(ts', WWait(false)) ==> Some(ts', WWait(true))
  {
    if t :| 0 <= t < |ts| && ts[t] == WWait(false) && ts' == ts[t := WWait(true)] {
      assert ts'[t] == WWait(true);
    }
  }

  /** The statuses a step leaves behind: thread l.t moves, others are at most woken. */
  lemma StepThreads(v: Variant, s: State, l: Label, s': State)
    requires Step(v, s, l, s')
    ensures |s'.threads| == |s.threads| && l.t < |s.threads|
    ensures forall t :: 0 <= t < |s.threads| && t != l.t ==>
      || s'.threads[t] == s.threads[t]
      || (s.threads[t].RWait? && s'.threads[t] == RWait(true))
      || (s.threads[t].WWait? && s'.threads[t] == WWait(true))
    ensures l.ReaderUnlock? || l.WriterUnlock? ==> s'.threads[l.t] == Idle
  {
    if l.ReaderUnlock? || l.WriterUnlock? {
      var ts := s.threads[l.t := Idle];
      if SignalWriter(ts, s'.threads) { SignalWakes(ts, s'.threads); }
      if SignalWriter(WakeReaders(ts), s'.threads) { SignalWakes(WakeReaders(ts), s'.threads); }
    }
  }

  lemma StepCounters(v: Variant, s: State, l: Label, s': State)
    requires Counters(v, s) && Step(v, s, l, s')
    ensures Counters(v, s')
  {
    StepThreads(v, s, l, s');
    var ts := s.threads[l.t := s'.threads[l.t]];
    SumsAfter(s.threads, l.t, ts[l.t]);
    SumsWoken(ts, s'.threads);
  }

  lemma LockSleepers(v: Variant, s: State, l: Label, s': State)
    requires Counters(v, s) && SleepersJustified(v, s) && Step(v, s, l, s') && !l.ReaderUnlock? && !l.WriterUnlock?
    ensures SleepersJustified(v, s')
  {
    if t :| 0 <= t < |s.threads| && s.threads[t] == WWait(true) && t != l.t {
      assert s'.threads[t] == WWait(true);
    }
    if l.Spurious? { assert s'.threads[l.t] == RWait(true) || s'.threads[l.t] == WWait(true); }
  }

  lemma UnlockSleepers(v: Variant, s: State, l: Label, s': State)
    requires Counters(v, s) && SleepersJustified(v, s) && Counters(v, s')
    requires Step(v, s, l, s') && (l.ReaderUnlock? || l.WriterUnlock?)
    ensures SleepersJustified(v, s')
  {
    StepThreads(v, s, l, s');
    var ts := s.threads[l.t := Idle];
    if l.ReaderUnlock? {
      if s.readerCount == 1 { SignalWakes(ts, s'.threads); }
    } else if v.ReaderPref? {
      SumsAfter(s.threads, l.t, Idle);
      SignalWakes(WakeReaders(ts), s'.threads);
    } else if s.writerCount == 1 {
      SumZero(WantsWrite, s'.threads);
    } else {
      SignalWakes(ts, s'.threads);
    }
  }

  /** Every step of every thread, spurious wakeups included, keeps the invariant. */
  lemma StepInv(v: Variant, s: State, l: Label, s': State)
    requires Inv(v, s) && Step(v, s, l, s')
    ensures Inv(v, s') && |s'.threads| == |s.threads|
  {
    StepThreads(v, s, l, s');
    StepCounters(v, s, l, s');
    if l.ReaderUnlock? || l.WriterUnlock? { UnlockSleepers(v, s, l, s'); } else { LockSleepers(v, s, l, s'); }
  }

  lemma {:induction false} RunInv(v: Variant, trace: seq<State>, labels: seq<Label>, i: nat)
    requires Run(v, trace, labels) && i < |trace|
    ensures Inv(v, trace[i]) && |trace[i].threads| == |trace[0].threads|
  {
    if i == 0 {
      InitInv(v, trace[0]);
    } else {
      RunInv(v, trace, labels, i - 1);
      StepInv(v, trace[i - 1], labels[i - 1], trace[i]);
    }
  }

  // ---- theorems

  /** In every state of every run: one writer and no reader, or no writer. */
  lemma MutualExclusion(v: Variant, trace: seq<State>, labels: seq<Label>, i: nat, t: nat, u: nat)
    requires Run(v, trace, labels) && i < |trace|
    requires At(trace[i].threads, t, Writing) && t != u
    ensures !At(trace[i].threads, u, Writing) && !At(trace[i].threads, u, Reading)
  {
    RunInv(v, trace, labels, i);
    var ts := trace[i].threads;
    if u < |ts| {
      SumPair(Writes, ts, t, u);
      SumsAfter(ts, u, Idle);
      SumsAfter(ts, t, Idle);
    }
  }

  /**
   Whenever some thread sleeps unsignalled, a thread holds the lock or a signalled writer will
   get it on its next step; so the lock never stands free with everybody asleep.
   */
  lemma NoLostWakeup(v: Variant, trace: seq<State>, labels: seq<Label>, i: nat, t: nat)
    requires Run(v, trace, labels) && i < |trace|
    requires At(trace[i].threads, t, RWait(false)) || At(trace[i].threads, t, WWait(false))
    ensures Covered(trace[i])
    ensures v.ReaderPref? && At(trace[i].threads, t, RWait(false)) ==> Some(trace[i].threads, Writing)
  {
    RunInv(v, trace, labels, i);
    SleeperHasCause(v, trace[i], t);
  }

  /** Somebody holds the lock, or a signalled writer finds it free. */
  predicate Covered(s: State) {
    || Some(s.threads, Reading) || Some(s.threads, Writing)
    || (Some(s.threads, WWait(true)) && !WriterBlocked(s))
  }

  lemma SleeperHasCause(v: Variant, s: State, t: nat)
    requires Inv(v, s) && (At(s.threads, t, RWait(false)) || At(s.threads, t, WWait(false)))
    ensures Covered(s)
    ensures v.ReaderPref? && At(s.threads, t, RWait(false)) ==> Some(s.threads, Writing)
  {
    if s.writing {
      HolderExists(Writes, s.threads, Writing);
    } else if s.readerCount > 0 {
      HolderExists(Reads, s.threads, Reading);
    } else if v.WriterPref? && s.writerCount > 0 {
      SumZero(WantsWrite, s.threads);
      var u :| 0 <= u < |s.threads| && WantsWrite(s.threads[u]) != 0;
      SumsAfter(s.threads, u, Idle);
      assert s.threads[u] == WWait(true) || s.threads[u] == WWait(false);
    }
  }

  lemma HolderExists(f: Thread -> nat, ts: seq<Thread>, st: Thread)
    requires Sum(f, ts) > 0 && forall x: Thread :: f(x) != 0 ==> x == st
    ensures Some(ts, st)
  {
    SumZero(f, ts);
    var u :| 0 <= u < |ts| && f(ts[u]) != 0;
    assert ts[u] == st;
  }

  /**
   Writer preference over runs: on a stretch of a run where writer_count stays positive no reader
   gets in, so whoever reads at its end was reading at its start, and reader_count never rises.
   */
  lemma {:induction false} WriterPreference(trace: seq<State>, labels: seq<Label>, i: nat, j: nat, t: nat)
    requires Run(WriterPref, trace, labels) && i <= j < |trace|
    requires forall k :: i <= k < j ==> trace[k].writerCount > 0
    requires At(trace[j].threads, t, Reading)
    ensures At(trace[i].threads, t, Reading)
    ensures trace[j].readerCount <= trace[i].readerCount
    decreases j
  {
    if i < j {
      NoReaderEnters(trace, labels, j - 1);
      WriterPreference(trace, labels, i, j - 1, t);
    }
  }

  lemma NoReaderEnters(trace: seq<State>, labels: seq<Label>, k: nat)
    requires Run(WriterPref, trace, labels) && k < |labels| && trace[k].writerCount > 0
    ensures trace[k + 1].readerCount <= trace[k].readerCount
    ensures forall t: nat :: At(trace[k + 1].threads, t, Reading) ==> At(trace[k].threads, t, Reading)
  {
    StepThreads(WriterPref, trace[k], labels[k], trace[k + 1]);
  }

  /** While a writer waits, or holds the lock, it counts; so no later reader overtakes it. */
  lemma WaitingWriterNotOvertaken(trace: seq<State>, labels: seq<Label>, i: nat, j: nat, w: nat, t: nat)
    requires Run(WriterPref, trace, labels) && i <= j < |trace|
    requires forall k :: i <= k < j ==>
      w < |trace[k].threads| && (trace[k].threads[w].WWait? || trace[k].threads[w].Writing?)
    requires At(trace[j].threads, t, Reading)
    ensures At(trace[i].threads, t, Reading)
  {
    forall k | i <= k < j ensures trace[k].writerCount > 0 {
      RunInv(WriterPref, trace, labels, k);
      SumsAfter(trace[k].threads, w, Idle);
    }
    WriterPreference(trace, labels, i, j, t);
  }

  // ---- the other lock: readers may overtake a waiting writer for ever

  /** Readers 0 and 1 relieve each other, so that writer 2 is never signalled. */
  function RelayState(k: nat): State {
    if k == 0 then State(0, 0, false, [Idle, Idle, Idle])
    else if k == 1 then State(1, 0, false, [Reading, Idle, Idle])
    else if k % 4 == 2 then State(1, 0, false, [Reading, Idle, WWait(false)])
    else if k % 4 == 0 then State(1, 0, false, [Idle, Reading, WWait(false)])
    else State(2, 0, false, [Reading, Reading, WWait(false)])
  }

  function RelayLabel(k: nat): Label {
    if k == 0 then ReaderLock(0)
    else if k == 1 then WriterLock(2)
    else if k % 4 == 2 then ReaderLock(1)
    else if k % 4 == 3 then ReaderUnlock(0)
    else if k % 4 == 0 then ReaderLock(0)
    else ReaderUnlock(1)
  }

  lemma RelaySteps(k: nat)
    ensures Step(ReaderPref, RelayState(k), RelayLabel(k), RelayState(k + 1))
    ensures k >= 2 ==> At(RelayState(k).threads, 2, WWait(false))
    ensures k >= 2 && k % 2 == 0 ==> ReaderEnters(RelayState(k), RelayLabel(k), RelayState(k + 1))
  {
  }

  predicate ReaderEnters(s: State, l: Label, s': State) {
    l.ReaderLock? && s'.readerCount == s.readerCount + 1
  }

  /** For any n the reader-preference lock has a run in which a waiting writer sees n readers enter. */
  lemma ReadersCanStarveWriter(n: nat) returns (trace: seq<State>, labels: seq<Label>)
    ensures Run(ReaderPref, trace, labels) && |labels| == 2 + 2 * n
    ensures forall k :: 2 <= k < |trace| ==> At(trace[k].threads, 2, WWait(false))
    ensures forall k :: 2 <= k < |labels| && k % 2 == 0 ==> ReaderEnters(trace[k], labels[k], trace[k + 1])
  {
    trace := seq(3 + 2 * n, k requires 0 <= k => RelayState(k));
    labels := seq(2 + 2 * n, k requires 0 <= k => RelayLabel(k));
    assert Init(trace[0]);
    forall k | 0 <= k < |trace|
      ensures k < |labels| ==> Step(ReaderPref, trace[k], labels[k], trace[k + 1])
      ensures k >= 2 ==> At(trace[k].threads, 2, WWait(false))
      ensures k < |labels| && k >= 2 && k % 2 == 0 ==> ReaderEnters(trace[k], labels[k], trace[k + 1])
    {
      RelaySteps(k);
    }
  }
}
