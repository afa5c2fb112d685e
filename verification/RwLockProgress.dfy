/**
 When a waiting writer gets its signal, and what becomes of a lock that nobody asks for any more:
 both locks drain, whatever order their threads run in.
 */
module RwLockProgress {
  import opened Sums
  import opened RwLockModel
  import opened RwLockProofs

  // ---- when a sleeping writer is signalled

  /** The unlocks that signal can_write while a writer sleeps on it: the last reader's, and every writer's. */
  predicate SignalsWriter(s: State, l: Label) {
    (l.ReaderUnlock? && s.readerCount == 1) || l.WriterUnlock?
  }

  /** Some unsignalled writer is signalled by this step. */
  predicate WriterSignalled(ts: seq<Thread>, ts': seq<Thread>) {
    exists u: nat :: u < |ts| && At(ts, u, WWait(false)) && At(ts', u, WWait(true))
  }

  lemma SignalFindsWriter(ts: seq<Thread>, ts': seq<Thread>, t: nat)
    requires SignalWriter(ts, ts') && At(ts, t, WWait(false))
    ensures WriterSignalled(ts, ts')
  {
    var u: nat :| u < |ts| && ts[u] == WWait(false) && ts' == ts[u := WWait(true)];
    assert At(ts, u, WWait(false)) && At(ts', u, WWait(true));
  }

  /** Holding the lock shows in its fields. */
  lemma HolderCounts(v: Variant, s: State, t: nat)
    requires Counters(v, s) && t < |s.threads|
    ensures s.threads[t] == Reading ==> s.readerCount >= 1
    ensures s.threads[t] == Writing ==> s.writing && s.readerCount == 0
    ensures v.WriterPref? && WantsWrite(s.threads[t]) == 1 ==> s.writerCount >= 1
  {
    SumsAfter(s.threads, t, Idle);
  }

  lemma TwoWriters(s: State, t: nat, w: nat)
    requires Counters(WriterPref, s) && At(s.threads, t, Writing) && At(s.threads, w, WWait(false))
    ensures s.writerCount >= 2
  {
    SumPair(WantsWrite, s.threads, t, w);
  }

  lemma UnlockSignals(v: Variant, s: State, l: Label, s': State, w: nat)
    requires Counters(v, s) && Step(v, s, l, s') && At(s.threads, w, WWait(false)) && SignalsWriter(s, l)
    ensures WriterSignalled(s.threads, s'.threads)
  {
    HolderCounts(v, s, l.t);
    var ts := s.threads[l.t := Idle];
    if l.ReaderUnlock? {
      SignalFindsWriter(ts, s'.threads, w);
    } else if v.WriterPref? {
      TwoWriters(s, l.t, w);
      SignalFindsWriter(ts, s'.threads, w);
    } else {
      SignalFindsWriter(WakeReaders(ts), s'.threads, w);
      assert |WakeReaders(ts)| == |ts|;
    }
    var via := if v.ReaderPref? && l.WriterUnlock? then WakeReaders(ts) else ts;
    var u: nat :| u < |via| && At(via, u, WWait(false)) && At(s'.threads, u, WWait(true));
    assert At(s.threads, u, WWait(false));
  }

  /**
   While writers sleep unsignalled, a step signals one of them exactly if it is the last reader's
   unlock, a writer's unlock, or a spurious wakeup of one. This holds of both locks.
   */
  lemma SignalledExactlyWhen(v: Variant, s: State, l: Label, s': State, w: nat)
    requires Inv(v, s) && Step(v, s, l, s') && At(s.threads, w, WWait(false))
    ensures WriterSignalled(s.threads, s'.threads)
       <==> SignalsWriter(s, l) || (l.Spurious? && At(s.threads, l.t, WWait(false)))
  {
    if SignalsWriter(s, l) {
      UnlockSignals(v, s, l, s', w);
    } else if l.Spurious? && At(s.threads, l.t, WWait(false)) {
      assert At(s'.threads, l.t, WWait(true));
    }
  }

  /** w sleeps on can_write unsignalled, and no other writer does. */
  ghost predicate SoleSleeper(s: State, w: nat) {
    At(s.threads, w, WWait(false)) && forall u: nat :: At(s.threads, u, WWait(false)) ==> u == w
  }

  predicate Wakes(s: State, l: Label, w: nat) { SignalsWriter(s, l) || l == Spurious(w) }

  lemma SoleSleeperWakes(v: Variant, s: State, l: Label, s': State, w: nat)
    requires Inv(v, s) && Step(v, s, l, s') && SoleSleeper(s, w)
    ensures At(s'.threads, w, if Wakes(s, l, w) then WWait(true) else WWait(false))
  {
    SignalledExactlyWhen(v, s, l, s', w);
    StepThreads(v, s, l, s');
    if Wakes(s, l, w) {
      var u: nat :| u < |s.threads| && At(s.threads, u, WWait(false)) && At(s'.threads, u, WWait(true));
      assert u == w;
    }
  }

  /** In no state from i up to j does another writer sleep unsignalled. */
  ghost predicate NoOther(trace: seq<State>, i: nat, j: nat, w: nat)
    requires j <= |trace|
  {
    forall k, u: nat :: i <= k < j && At(trace[k].threads, u, WWait(false)) ==> u == w
  }

  predicate SleepsOn(trace: seq<State>, i: nat, j: nat, w: nat)
    requires j < |trace|
  {
    forall k :: i <= k <= j ==> At(trace[k].threads, w, WWait(false))
  }

  predicate NoWake(trace: seq<State>, labels: seq<Label>, i: nat, j: nat, w: nat)
    requires j <= |labels| < |trace|
  {
    forall k :: i <= k < j ==> !Wakes(trace[k], labels[k], w)
  }

  /**
   On a stretch of a run where w is at no time asleep beside another unsignalled writer, w sleeps on
   exactly as long as no last reader unlocks, no writer unlocks and w is not woken spuriously.
   */
  lemma {:induction false} SleepsExactlyWhile(
      v: Variant, trace: seq<State>, labels: seq<Label>, i: nat, j: nat, w: nat)
    requires Run(v, trace, labels) && i <= j < |trace| && At(trace[i].threads, w, WWait(false))
    requires NoOther(trace, i, j, w)
    ensures SleepsOn(trace, i, j, w) <==> NoWake(trace, labels, i, j, w)
    decreases j
  {
    if i < j {
      SleepsExactlyWhile(v, trace, labels, i, j - 1, w);
      if SleepsOn(trace, i, j - 1, w) {
        RunInv(v, trace, labels, j - 1);
        SoleSleeperWakes(v, trace[j - 1], labels[j - 1], trace[j], w);
        assert SleepsOn(trace, i, j, w) <==> !Wakes(trace[j - 1], labels[j - 1], w);
      }
    }
  }

  // ---- draining

  /** A thread that is outside the lock asks for it. */
  predicate NewCall(s: State, l: Label) {
    (l.ReaderLock? || l.WriterLock?) && At(s.threads, l.t, Idle)
  }

  /** What a thread still costs: an unlock may wake up to all n threads. */
  function Weight(n: nat): Thread -> nat {
    (t: Thread) =>
      match t
      case Idle => 0
      case Reading => n + 1
      case Writing => n + 1
      case RWait(signalled) => if signalled then n + 3 else n + 2
      case WWait(signalled) => if signalled then n + 3 else n + 2
  }

  function Pending(s: State): nat { Sum(Weight(|s.threads|), s.threads) }

  lemma WokenWeight(ts: seq<Thread>, ts': seq<Thread>)
    requires |ts'| == |ts|
    requires forall t :: 0 <= t < |ts| ==>
      ts'[t] == ts[t] || (ts[t].RWait? && ts'[t].RWait?) || (ts[t].WWait? && ts'[t].WWait?)
    ensures Sum(Weight(|ts|), ts') <= Sum(Weight(|ts|), ts) + |ts|
  {
    SumGrowth(Weight(|ts|), ts, Weight(|ts|), ts', 1);
    TimesOne(|ts|);
  }

  /** With no new call a step that is not a spurious wakeup brings the threads nearer to being through. */
  lemma DrainStep(v: Variant, s: State, l: Label, s': State)
    requires Inv(v, s) && Step(v, s, l, s') && !NewCall(s, l)
    ensures if l.Spurious? then Pending(s') <= Pending(s) + 1 else Pending(s') < Pending(s)
  {
    StepThreads(v, s, l, s');
    var ts := s.threads[l.t := s'.threads[l.t]];
    SumUpdate(Weight(|s.threads|), s.threads, l.t, s'.threads[l.t]);
    if l.ReaderUnlock? || l.WriterUnlock? {
      WokenWeight(ts, s'.threads);
    } else {
      assert ts == s'.threads;
    }
  }

  /** A stretch of a run without new calls. */
  ghost predicate Drains(v: Variant, trace: seq<State>, labels: seq<Label>) {
    && |trace| == |labels| + 1 && Inv(v, trace[0])
    && forall i :: 0 <= i < |labels| ==> QuietStep(v, trace[i], labels[i], trace[i + 1])
  }

  ghost predicate QuietStep(v: Variant, s: State, l: Label, s': State) {
    Step(v, s, l, s') && !NewCall(s, l)
  }

  lemma QuietStepKeeps(v: Variant, s: State, l: Label, s': State)
    requires Inv(v, s) && QuietStep(v, s, l, s')
    ensures Inv(v, s')
    ensures if l.Spurious? then Pending(s') <= Pending(s) + 1 else Pending(s') < Pending(s)
  {
    DrainStep(v, s, l, s');
    StepInv(v, s, l, s');
  }

  function SpuriousCount(labels: seq<Label>): nat {
    if labels == [] then 0
    else SpuriousCount(labels[..|labels| - 1]) + if labels[|labels| - 1].Spurious? then 1 else 0
  }

  lemma {:induction false} DrainBound(v: Variant, trace: seq<State>, labels: seq<Label>)
    requires Drains(v, trace, labels)
    ensures Inv(v, trace[|labels|])
    ensures |labels| + Pending(trace[|labels|]) <= Pending(trace[0]) + 2 * SpuriousCount(labels)
  {
    if labels != [] {
      var n := |labels| - 1;
      DrainBound(v, trace[..|labels|], labels[..n]);
      QuietStepKeeps(v, trace[n], labels[n], trace[n + 1]);
    }
  }

  /** Some thread that is in the lock or in its queues can run. */
  ghost predicate CanGoOn(v: Variant, s: State) {
    exists l: Label, s' :: !l.Spurious? && !NewCall(s, l) && Step(v, s, l, s')
  }

  lemma SomeSignal(ts: seq<Thread>) returns (ts': seq<Thread>)
    ensures SignalWriter(ts, ts')
  {
    ts' := ts;
    if t :| 0 <= t < |ts| && ts[t] == WWait(false) { ts' := ts[t := WWait(true)]; }
  }

  lemma HolderCanUnlock(v: Variant, s: State, t: nat)
    requires At(s.threads, t, Reading) || At(s.threads, t, Writing)
    ensures s.threads[t] == Reading ==> exists s' :: Step(v, s, ReaderUnlock(t), s')
    ensures s.threads[t] == Writing ==> exists s' :: Step(v, s, WriterUnlock(t), s')
  {
    var ts := s.threads[t := Idle];
    if s.threads[t] == Reading {
      var woken := SomeSignal(ts);
      var s' := State(s.readerCount - 1, s.writerCount, s.writing, if s.readerCount - 1 == 0 then woken else ts);
      assert Step(v, s, ReaderUnlock(t), s');
    } else if v.WriterPref? {
      var woken := SomeSignal(ts);
      var ts' := if s.writerCount - 1 == 0 then WakeReaders(ts) else woken;
      var s' := State(s.readerCount, s.writerCount - 1, false, ts');
      assert Step(v, s, WriterUnlock(t), s');
    } else {
      var woken := SomeSignal(WakeReaders(ts));
      var s' := State(s.readerCount, s.writerCount, false, if s.readerCount == 0 then woken else WakeReaders(ts));
      assert Step(v, s, WriterUnlock(t), s');
    }
  }

  lemma HolderGoesOn(v: Variant, s: State, t: nat)
    requires At(s.threads, t, Reading) || At(s.threads, t, Writing)
    ensures CanGoOn(v, s)
  {
    HolderCanUnlock(v, s, t);
    var l := if s.threads[t] == Reading then ReaderUnlock(t) else WriterUnlock(t);
    var s' :| Step(v, s, l, s');
    assert !l.Spurious? && !NewCall(s, l);
  }

  lemma SignalledGoesOn(v: Variant, s: State, t: nat)
    requires At(s.threads, t, RWait(true)) || At(s.threads, t, WWait(true))
    ensures CanGoOn(v, s)
  {
    if s.threads[t] == RWait(true) {
      assert Step(v, s, ReaderLock(t), TryRead(v, s, t));
    } else {
      assert Step(v, s, WriterRetry(t), TryWrite(s, t));
    }
  }

  lemma SleeperGoesOn(v: Variant, s: State, t: nat)
    requires Inv(v, s) && (At(s.threads, t, RWait(false)) || At(s.threads, t, WWait(false)))
    ensures CanGoOn(v, s)
  {
    SleeperHasCause(v, s, t);
    var u :| 0 <= u < |s.threads| &&
      (s.threads[u] == Reading || s.threads[u] == Writing || s.threads[u] == WWait(true));
    if s.threads[u] == WWait(true) { SignalledGoesOn(v, s, u); } else { HolderGoesOn(v, s, u); }
  }

  /** The threads of a state can go on, without a new call, exactly if some thread is not idle. */
  lemma GoesOnExactlyWhen(v: Variant, s: State)
    requires Inv(v, s)
    ensures CanGoOn(v, s) <==> exists t :: 0 <= t < |s.threads| && s.threads[t] != Idle
  {
    if t :| 0 <= t < |s.threads| && s.threads[t] != Idle {
      match s.threads[t]
      case Reading => HolderGoesOn(v, s, t);
      case Writing => HolderGoesOn(v, s, t);
      case RWait(signalled) => if signalled { SignalledGoesOn(v, s, t); } else { SleeperGoesOn(v, s, t); }
      case WWait(signalled) => if signalled { SignalledGoesOn(v, s, t); } else { SleeperGoesOn(v, s, t); }
    }
  }

  /**
   Both locks drain: from any reachable state, when nobody calls ReaderLock or WriterLock any more,
   the threads take a bounded number of steps, whoever is woken when, and can stop only with every
   thread out of the lock, and the lock as it was initialized.
   */
  lemma LockDrains(v: Variant, trace: seq<State>, labels: seq<Label>)
    requires Drains(v, trace, labels)
    ensures |labels| <= Times(|trace[0].threads|, |trace[0].threads| + 3) + 2 * SpuriousCount(labels)
    ensures CanGoOn(v, trace[|labels|]) || Init(trace[|labels|])
  {
    DrainBound(v, trace, labels);
    DrainEnd(v, trace[0], trace[|labels|], |labels|, SpuriousCount(labels));
  }

  lemma DrainEnd(v: Variant, first: State, last: State, steps: nat, spurious: nat)
    requires Inv(v, last) && steps + Pending(last) <= Pending(first) + 2 * spurious
    ensures steps <= Times(|first.threads|, |first.threads| + 3) + 2 * spurious
    ensures CanGoOn(v, last) || Init(last)
  {
    PendingBound(first);
    Drained(v, last);
  }

  lemma Drained(v: Variant, s: State)
    requires Inv(v, s)
    ensures CanGoOn(v, s) || Init(s)
  {
    GoesOnExactlyWhen(v, s);
    SumZero(Reads, s.threads);
    SumZero(Writes, s.threads);
    SumZero(WantsWrite, s.threads);
  }

  lemma PendingBound(s: State)
    ensures Pending(s) <= Times(|s.threads|, |s.threads| + 3)
  {
    var none: Thread -> nat := t => 0;
    SumGrowth(none, s.threads, Weight(|s.threads|), s.threads, |s.threads| + 3);
    SumZero(none, s.threads);
  }
}
