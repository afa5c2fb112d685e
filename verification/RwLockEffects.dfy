/**
 What each call of the two locks does, told from the thread that runs it and the fields it finds:
 who gets in, who falls asleep, who is woken. Nothing here goes through the functions of a step.
 */
module RwLockEffects {
  import opened Sums
  import opened RwLockModel
  import opened RwLockProofs
  import opened RwLockProgress

  predicate OthersStay(ts: seq<Thread>, ts': seq<Thread>, t: nat) {
    |ts'| == |ts| && forall u :: 0 <= u < |ts| && u != t ==> ts'[u] == ts[u]
  }

  /** A reader gets in exactly if no writer writes and, under writer preference, none waits; else it sleeps. */
  lemma ReaderEntersExactlyWhen(v: Variant, s: State, t: nat, s': State)
    requires Step(v, s, ReaderLock(t), s')
    ensures t < |s.threads| && (s.threads[t] == Idle || s.threads[t] == RWait(true))
    ensures OthersStay(s.threads, s'.threads, t)
    ensures s'.threads[t] ==
      if !s.writing && (v.ReaderPref? || s.writerCount <= 0) then Reading else RWait(false)
    ensures s'.readerCount == s.readerCount + if s'.threads[t] == Reading then 1 else 0
    ensures s'.writerCount == s.writerCount && s'.writing == s.writing
  {
  }

  /** A writer gets in exactly if nobody reads or writes, whoever else waits; else it sleeps. */
  lemma WriterEntersExactlyWhen(v: Variant, s: State, l: Label, s': State)
    requires Inv(v, s) && Step(v, s, l, s') && (l.WriterLock? || l.WriterRetry?)
    ensures l.t < |s.threads| && s.threads[l.t] == if l.WriterLock? then Idle else WWait(true)
    ensures OthersStay(s.threads, s'.threads, l.t)
    ensures s'.threads[l.t] == if s.readerCount == 0 && !s.writing then Writing else WWait(false)
    ensures s'.writing == (s.writing || s'.threads[l.t] == Writing) && s'.readerCount == s.readerCount
    ensures s'.writerCount == s.writerCount + if v.WriterPref? && l.WriterLock? then 1 else 0
  {
  }

  /** A sleeping reader is woken by an unlock exactly if a writer leaves with no other writer counted. */
  lemma UnlockWakesReadersExactlyWhen(v: Variant, s: State, l: Label, s': State, u: nat)
    requires Step(v, s, l, s') && (l.ReaderUnlock? || l.WriterUnlock?) && At(s.threads, u, RWait(false))
    ensures At(s'.threads, u, RWait(l.WriterUnlock? && (v.ReaderPref? || s.writerCount == 1)))
  {
    StepThreads(v, s, l, s');
    var ts := s.threads[l.t := Idle];
    if l.ReaderUnlock? {
      if s.readerCount == 1 { SignalWakes(ts, s'.threads); }
    } else if v.ReaderPref? {
      if s.readerCount == 0 { SignalWakes(WakeReaders(ts), s'.threads); }
    } else if s.writerCount != 1 {
      SignalWakes(ts, s'.threads);
    }
  }

  lemma SignalChangesOne(ts: seq<Thread>, ts': seq<Thread>, a: nat, b: nat)
    requires SignalWriter(ts, ts') && a < |ts| && b < |ts| && |ts'| == |ts|
    requires ts'[a] != ts[a] && ts'[b] != ts[b]
    ensures a == b
  {
  }

  /** No unlock wakes two writers. */
  lemma UnlockWakesOneWriter(v: Variant, s: State, l: Label, s': State, a: nat, b: nat)
    requires Step(v, s, l, s') && (l.ReaderUnlock? || l.WriterUnlock?)
    requires At(s.threads, a, WWait(false)) && At(s'.threads, a, WWait(true))
    requires At(s.threads, b, WWait(false)) && At(s'.threads, b, WWait(true))
    ensures a == b
  {
    StepThreads(v, s, l, s');
    var ts := s.threads[l.t := Idle];
    if v.ReaderPref? && l.WriterUnlock? && s.readerCount == 0 {
      SignalChangesOne(WakeReaders(ts), s'.threads, a, b);
    } else if SignalWriter(ts, s'.threads) {
      SignalChangesOne(ts, s'.threads, a, b);
    }
  }

  /** An unlock takes its thread out, and one reader or writer off the books. */
  lemma UnlockLeaves(v: Variant, s: State, l: Label, s': State)
    requires Inv(v, s) && Step(v, s, l, s') && (l.ReaderUnlock? || l.WriterUnlock?)
    ensures At(s.threads, l.t, if l.ReaderUnlock? then Reading else Writing) && At(s'.threads, l.t, Idle)
    ensures s'.readerCount == s.readerCount - if l.ReaderUnlock? then 1 else 0
    ensures s'.writerCount == s.writerCount - if l.WriterUnlock? && v.WriterPref? then 1 else 0
    ensures !s'.writing
  {
    StepThreads(v, s, l, s');
    HolderCounts(v, s, l.t);
  }

  /** The calls that threads can make, and the wakeups that can come, in any state. */
  lemma EnabledExactlyWhen(v: Variant, s: State, t: nat)
    ensures (exists s' :: Step(v, s, ReaderLock(t), s'))
       <==> At(s.threads, t, Idle) || At(s.threads, t, RWait(true))
    ensures (exists s' :: Step(v, s, WriterLock(t), s')) <==> At(s.threads, t, Idle)
    ensures (exists s' :: Step(v, s, WriterRetry(t), s')) <==> At(s.threads, t, WWait(true))
    ensures (exists s' :: Step(v, s, ReaderUnlock(t), s')) <==> At(s.threads, t, Reading)
    ensures (exists s' :: Step(v, s, WriterUnlock(t), s')) <==> At(s.threads, t, Writing)
    ensures (exists s' :: Step(v, s, Spurious(t), s'))
       <==> At(s.threads, t, RWait(false)) || At(s.threads, t, WWait(false))
  {
    if At(s.threads, t, Idle) || At(s.threads, t, RWait(true)) {
      assert Step(v, s, ReaderLock(t), TryRead(v, s, t));
    }
    if At(s.threads, t, Idle) { assert Step(v, s, WriterLock(t), TryWrite(Announce(v, s), t)); }
    if At(s.threads, t, WWait(true)) { assert Step(v, s, WriterRetry(t), TryWrite(s, t)); }
    if At(s.threads, t, Reading) || At(s.threads, t, Writing) { HolderCanUnlock(v, s, t); }
    if At(s.threads, t, RWait(false)) { assert Step(v, s, Spurious(t), s.(threads := s.threads[t := RWait(true)])); }
    if At(s.threads, t, WWait(false)) { assert Step(v, s, Spurious(t), s.(threads := s.threads[t := WWait(true)])); }
  }
}
