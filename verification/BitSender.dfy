/**
 bitstring-send.c as two processes and the signals between them: SIGUSR1 and SIGUSR2 carry a bit to
 the child, SIGUSR2 carries its acknowledgement back. A signal is at most pending (a second one is
 lost in the first) and may arrive between any two statements of the process it is sent to.
 */
module BitSender {
  /** Where the parent is: its two waits are split into the test, the entry to pause, and the pause. */
  datatype Parent =
    | AwaitReady | Test(i: nat) | Pausing(i: nat) | Asleep(i: nat)
    | Send(i: nat) | Clear(i: nat) | Reaping | Exited

  datatype Child = Starting | Checking | Entering | Dozing | Finished

  datatype State = State(
    parent: Parent, canSend: bool, canReceive: bool,
    readyPending: bool, ackPending: bool,       // SIGUSR1 and SIGUSR2 sent to the parent
    child: Child,
    onePending: bool, zeroPending: bool,        // SIGUSR1 and SIGUSR2 sent to the child
    handlers: seq<char>,                        // handlers that stored their bit and still owe the kill
    received: string)

  datatype Action = ChildRuns | ParentRuns | ReadyArrives | BitArrives(bit: char) | HandlerAcks | AckArrives

  predicate Bitstring(bits: string) { forall k :: 0 <= k < |bits| ==> bits[k] == '0' || bits[k] == '1' }

  predicate Init(s: State) {
    && s.parent == AwaitReady && !s.canSend && s.canReceive && !s.readyPending && !s.ackPending
    && s.child == Starting && !s.onePending && !s.zeroPending && s.handlers == [] && s.received == []
  }

  /** A handler runs when its signal is pending, installed, and not the one it interrupts. */
  predicate BitCanArrive(s: State, bit: char) {
    && (bit == '1' || bit == '0') && (if bit == '1' then s.onePending else s.zeroPending)
    && s.child != Starting && s.child != Finished && bit !in s.handlers
  }

  predicate Enabled(s: State, a: Action) {
    match a
    case ChildRuns => s.handlers == [] && s.child != Dozing && s.child != Finished
    case ParentRuns =>
      (s.parent.AwaitReady? && s.canSend) || s.parent.Test? || s.parent.Pausing? || s.parent.Send? || s.parent.Clear?
      || (s.parent.Reaping? && s.child == Finished)
    case ReadyArrives => s.readyPending
    case BitArrives(bit) => BitCanArrive(s, bit)
    case HandlerAcks => s.handlers != []
    case AckArrives => s.ackPending && s.parent != Exited
  }

  /** The for loop's head. */
  function LoopHead(bits: string, i: nat): Parent { if i < |bits| then Test(i) else Reaping }

  function ParentNext(bits: string, s: State): State {
    match s.parent
    case AwaitReady => s.(parent := LoopHead(bits, 0))
    case Test(i) => s.(parent := if s.canReceive then Send(i) else Pausing(i))
    case Pausing(i) => s.(parent := Asleep(i))
    case Send(i) =>
      if i < |bits| && bits[i] == '1' then s.(parent := Clear(i), onePending := true)
      else s.(parent := Clear(i), zeroPending := true)
    case Clear(i) => s.(parent := LoopHead(bits, i + 1), canReceive := false)
    case Reaping => s.(parent := Exited)
    case _ => s
  }

  function ChildNext(bits: string, s: State): State {
    match s.child
    case Starting => s.(child := Checking, readyPending := true)
    case Checking => s.(child := if |s.received| == |bits| then Finished else Entering)
    case Entering => s.(child := Dozing)
    case _ => s
  }

  /** sigHandle1 and sigHandle0 up to the kill. The handler wakes a paused child. */
  function Store(bits: string, s: State, bit: char): State {
    State(s.parent, s.canSend, s.canReceive, s.readyPending, s.ackPending,
          if s.child == Dozing then Checking else s.child,
          s.onePending && bit != '1', s.zeroPending && bit == '1', s.handlers + [bit],
          if |s.received| < |bits| then s.received + [bit] else s.received)
  }

  function Next(bits: string, s: State, a: Action): State
    requires Enabled(s, a)
  {
    match a
    case ChildRuns => ChildNext(bits, s)
    case ParentRuns => ParentNext(bits, s)
    case ReadyArrives => s.(readyPending := false, canSend := true)
    case BitArrives(bit) => Store(bits, s, bit)
    case HandlerAcks => s.(handlers := s.handlers[..|s.handlers| - 1], ackPending := true)
    case AckArrives =>
      s.(ackPending := false, canReceive := true, parent := if s.parent.Asleep? then Test(s.parent.i) else s.parent)
  }

  // ---- The invariant ----

  function One(b: bool): nat { if b then 1 else 0 }

  function Sent(bits: string, s: State): nat {
    match s.parent
    case AwaitReady => 0
    case Test(i) => i
    case Pausing(i) => i
    case Asleep(i) => i
    case Send(i) => i
    case Clear(i) => i + 1
    case Reaping => |bits|
    case Exited => |bits|
  }

  function Undelivered(s: State): nat { One(s.onePending) + One(s.zeroPending) }

  /** Bits sent and acknowledgements not yet seen by the parent. */
  function InFlight(s: State): nat { Undelivered(s) + |s.handlers| + One(s.ackPending) }

  predicate InLoop(p: Parent) { p.Test? || p.Pausing? || p.Asleep? || p.Send? || p.Clear? }

  predicate Inv(bits: string, s: State) {
    && (InLoop(s.parent) ==> s.parent.i < |bits|)
    && |s.received| + Undelivered(s) == Sent(bits, s) <= |bits|
    && s.received == bits[..|s.received|]
    && (s.onePending ==> |s.received| < |bits| && bits[|s.received|] == '1')
    && (s.zeroPending ==> |s.received| < |bits| && bits[|s.received|] == '0')
    && InFlight(s) <= 1
    && (s.canReceive && !s.parent.Clear? ==> InFlight(s) == 0)
    && (s.parent.Send? ==> s.canReceive)
    && (s.parent.Exited? ==> s.child == Finished)
    && (s.child == Finished ==> |s.received| == |bits| && s.handlers == [])
    && (s.child == Starting ==> s.parent.AwaitReady? && !s.readyPending && !s.canSend)
    && (s.child != Starting ==> s.readyPending || s.canSend)
    && (s.parent.AwaitReady? ==> s.canReceive)
  }

  lemma StoreInv(bits: string, s: State, bit: char)
    requires Bitstring(bits) && Inv(bits, s) && BitCanArrive(s, bit)
    ensures Inv(bits, Store(bits, s, bit))
  {
    assert |s.received| < |bits| && bits[|s.received|] == bit;
    assert Store(bits, s, bit).received == bits[..|s.received| + 1];
  }

  lemma ParentInv(bits: string, s: State)
    requires Bitstring(bits) && Inv(bits, s) && Enabled(s, ParentRuns)
    ensures Inv(bits, ParentNext(bits, s))
  {}

  lemma AckInv(bits: string, s: State)
    requires Inv(bits, s) && Enabled(s, AckArrives)
    ensures Inv(bits, Next(bits, s, AckArrives))
  {}

  lemma HandlerInv(bits: string, s: State)
    requires Inv(bits, s) && Enabled(s, HandlerAcks)
    ensures Inv(bits, Next(bits, s, HandlerAcks))
  {}

  lemma ChildInv(bits: string, s: State)
    requires Inv(bits, s) && Enabled(s, ChildRuns)
    ensures Inv(bits, ChildNext(bits, s))
  {}

  lemma ReadyInv(bits: string, s: State)
    requires Inv(bits, s) && Enabled(s, ReadyArrives)
    ensures Inv(bits, Next(bits, s, ReadyArrives))
  {}

  lemma StepInv(bits: string, s: State, a: Action)
    requires Bitstring(bits) && Inv(bits, s) && Enabled(s, a)
    ensures Inv(bits, Next(bits, s, a))
  {
    match a
    case ChildRuns => ChildInv(bits, s);
    case ParentRuns => ParentInv(bits, s);
    case ReadyArrives => ReadyInv(bits, s);
    case BitArrives(bit) => StoreInv(bits, s, bit);
    case HandlerAcks => HandlerInv(bits, s);
    case AckArrives => AckInv(bits, s);
  }

  // ---- Runs ----

  ghost predicate Run(bits: string, states: seq<State>, actions: seq<Action>) {
    && |states| == |actions| + 1 && Init(states[0])
    && forall k :: 0 <= k < |actions| ==>
         Enabled(states[k], actions[k]) && states[k + 1] == Next(bits, states[k], actions[k])
  }

  lemma {:induction false} RunInv(bits: string, states: seq<State>, actions: seq<Action>, k: nat)
    requires Bitstring(bits) && Run(bits, states, actions) && k < |states|
    ensures Inv(bits, states[k])
  {
    if k > 0 {
      RunInv(bits, states, actions, k - 1);
      StepInv(bits, states[k - 1], actions[k - 1]);
    }
  }

  /** At every moment of every run: the child's string is what was sent, less at most one bit. */
  lemma PrefixAlways(bits: string, states: seq<State>, actions: seq<Action>, k: nat)
    requires Bitstring(bits) && Run(bits, states, actions) && k < |states|
    ensures InFlight(states[k]) <= 1 && Sent(bits, states[k]) <= |states[k].received| + 1
    ensures Sent(bits, states[k]) <= |bits| && states[k].received <= bits[..Sent(bits, states[k])]
    ensures states[k].child == Finished ==> states[k].received == bits
    ensures states[k].parent.Exited? ==> states[k].child == Finished
  {
    RunInv(bits, states, actions, k);
  }

  /**
   In no run does a kill meet a pending signal of its kind or a process without the handler for it,
   and no bit interrupts a handler or finds the buffer full.
   */
  lemma NoSignalLost(bits: string, states: seq<State>, actions: seq<Action>, k: nat)
    requires Bitstring(bits) && Run(bits, states, actions) && k < |actions|
    ensures actions[k].ParentRuns? && states[k].parent.Send? ==>
      Undelivered(states[k]) == 0 && states[k].child != Starting && states[k].child != Finished
    ensures actions[k].HandlerAcks? ==>
      !states[k].ackPending && !states[k].parent.AwaitReady? && |states[k].handlers| == 1
    ensures actions[k].BitArrives? ==> states[k].handlers == [] && |states[k].received| < |bits|
  {
    RunInv(bits, states, actions, k);
  }

  // ---- Every run ends ----

  /** The bits the parent still has to send or to clear, with its rank between two of them. */
  function BitsLeft(bits: string, p: Parent): int {
    match p
    case AwaitReady => |bits|
    case Reaping => 0
    case Exited => 0
    case _ => |bits| - p.i
  }

  function Rank(p: Parent): int {
    match p
    case AwaitReady => 5
    case Test(_) => 4
    case Pausing(_) => 3
    case Asleep(_) => 2
    case Send(_) => 1
    case Clear(_) => -7
    case Reaping => 1
    case Exited => 0
  }

  function ParentLeft(bits: string, p: Parent): int { 16 * BitsLeft(bits, p) + Rank(p) }

  function ChildLeft(c: Child): nat {
    match c
    case Starting => 4
    case Checking => 2
    case Entering => 1
    case Dozing => 0
    case Finished => 0
  }

  function Measure(bits: string, s: State): int {
    ParentLeft(bits, s.parent) + ChildLeft(s.child)
    + 7 * Undelivered(s) + 4 * |s.handlers| + 3 * One(s.ackPending) + One(s.readyPending)
  }

  lemma MeasureNonNegative(bits: string, s: State)
    requires Inv(bits, s)
    ensures 0 <= Measure(bits, s)
  {}

  lemma SendMeasure(bits: string, s: State)
    requires s.parent.Send? && Undelivered(s) == 0
    ensures Measure(bits, ParentNext(bits, s)) < Measure(bits, s)
  {}

  lemma WaitMeasure(bits: string, s: State)
    requires s.parent.Test? || s.parent.Pausing?
    ensures Measure(bits, ParentNext(bits, s)) < Measure(bits, s)
  {}

  lemma TurnMeasure(bits: string, s: State)
    requires (s.parent.Clear? && s.parent.i < |bits|) || s.parent.AwaitReady? || s.parent.Reaping?
    ensures Measure(bits, ParentNext(bits, s)) < Measure(bits, s)
  {}

  lemma ParentMeasure(bits: string, s: State)
    requires InLoop(s.parent) ==> s.parent.i < |bits|
    requires s.parent.Send? ==> Undelivered(s) == 0
    requires Enabled(s, ParentRuns)
    ensures Measure(bits, ParentNext(bits, s)) < Measure(bits, s)
  {
    if s.parent.Send? {
      SendMeasure(bits, s);
    } else if s.parent.Test? || s.parent.Pausing? {
      WaitMeasure(bits, s);
    } else {
      TurnMeasure(bits, s);
    }
  }

  lemma StoreMeasure(bits: string, s: State, bit: char)
    requires BitCanArrive(s, bit)
    ensures Measure(bits, Store(bits, s, bit)) < Measure(bits, s)
  {}

  lemma AckMeasure(bits: string, s: State)
    requires Enabled(s, AckArrives)
    ensures Measure(bits, Next(bits, s, AckArrives)) < Measure(bits, s)
  {}

  lemma AnnounceMeasure(bits: string, s: State)
    requires s.child == Starting
    ensures Measure(bits, ChildNext(bits, s)) < Measure(bits, s)
  {}

  lemma PauseMeasure(bits: string, s: State)
    requires s.child == Checking || s.child == Entering
    ensures Measure(bits, ChildNext(bits, s)) < Measure(bits, s)
  {}

  lemma ChildMeasure(bits: string, s: State)
    requires Enabled(s, ChildRuns)
    ensures Measure(bits, ChildNext(bits, s)) < Measure(bits, s)
  {
    if s.child == Starting { AnnounceMeasure(bits, s); } else { PauseMeasure(bits, s); }
  }

  lemma HandlerMeasure(bits: string, s: State)
    requires Enabled(s, HandlerAcks)
    ensures Measure(bits, Next(bits, s, HandlerAcks)) < Measure(bits, s)
  {}

  /** Every step of either process and every arrival uses up some of the measure. */
  lemma StepMeasure(bits: string, s: State, a: Action)
    requires Bitstring(bits) && Inv(bits, s) && Enabled(s, a)
    ensures 0 <= Measure(bits, Next(bits, s, a)) < Measure(bits, s)
  {
    StepInv(bits, s, a);
    MeasureNonNegative(bits, Next(bits, s, a));
    match a
    case ChildRuns => ChildMeasure(bits, s);
    case ParentRuns => ParentMeasure(bits, s);
    case ReadyArrives =>
    case BitArrives(bit) => StoreMeasure(bits, s, bit);
    case HandlerAcks => HandlerMeasure(bits, s);
    case AckArrives => AckMeasure(bits, s);
  }

  lemma {:induction false} RunBounded(bits: string, states: seq<State>, actions: seq<Action>)
    requires Bitstring(bits) && Run(bits, states, actions)
    ensures |actions| <= 16 * |bits| + 9
    ensures 0 <= Measure(bits, states[|actions|]) <= 16 * |bits| + 9 - |actions|
    decreases |actions|
  {
    var n := |actions|;
    if n > 0 {
      RunBounded(bits, states[..n], actions[..n - 1]);
      RunInv(bits, states, actions, n - 1);
      StepMeasure(bits, states[n - 1], actions[n - 1]);
    }
  }

  // ---- When the bits get through ----

  predicate Complete(bits: string, s: State) { s.parent.Exited? && s.child == Finished && s.received == bits }

  ghost predicate Stuck(s: State) { forall a :: !Enabled(s, a) }

  /**
   The three moments at which a signal comes too early: an acknowledgement between the parent's kill
   and canReceive = false (with bits still to send), an acknowledgement between the parent's test and
   its pause, and the last bit between the child's test and its pause.
   */
  predicate TooEarly(bits: string, s: State, a: Action) {
    || (a.AckArrives? && (s.parent.Pausing? || (s.parent.Clear? && s.parent.i + 1 < |bits|)))
    || (a.BitArrives? && s.child == Entering && |s.received| + 1 == |bits|)
  }

  /** The parent waits for an acknowledgement that has been and gone. */
  predicate ParentDoomed(bits: string, s: State) {
    || (InFlight(s) == 0 && s.parent.Clear? && s.parent.i + 1 < |bits|)
    || (InFlight(s) == 0 && !s.canReceive && (s.parent.Test? || s.parent.Pausing? || s.parent.Asleep?))
    || (s.canReceive && (s.parent.Pausing? || s.parent.Asleep?))
  }

  predicate Doomed(bits: string, s: State) {
    ParentDoomed(bits, s) || ((s.child == Entering || s.child == Dozing) && |s.received| == |bits|)
  }

  /** A step dooms a healthy state exactly when it is one of the three early arrivals. */
  lemma DoomedWhenTooEarly(bits: string, s: State, a: Action)
    requires Bitstring(bits) && Inv(bits, s) && Enabled(s, a) && !Doomed(bits, s)
    ensures Doomed(bits, Next(bits, s, a)) <==> TooEarly(bits, s, a)
  {
    StepInv(bits, s, a);
  }

  lemma DoomedForever(bits: string, s: State, a: Action)
    requires Bitstring(bits) && Inv(bits, s) && Enabled(s, a) && Doomed(bits, s)
    ensures Doomed(bits, Next(bits, s, a))
  {
    StepInv(bits, s, a);
  }

  lemma StuckExactly(bits: string, s: State)
    requires Bitstring(bits) && Inv(bits, s) && Stuck(s)
    ensures Complete(bits, s) <==> !Doomed(bits, s)
  {
    assert !Enabled(s, ChildRuns) && !Enabled(s, ParentRuns) && !Enabled(s, ReadyArrives);
    assert !Enabled(s, HandlerAcks) && !Enabled(s, AckArrives);
    assert !Enabled(s, BitArrives('1')) && !Enabled(s, BitArrives('0'));
  }

  lemma DoomedStep(bits: string, s: State, a: Action)
    requires Bitstring(bits) && Inv(bits, s) && Enabled(s, a)
    ensures Doomed(bits, Next(bits, s, a)) <==> Doomed(bits, s) || TooEarly(bits, s, a)
  {
    if Doomed(bits, s) {
      DoomedForever(bits, s, a);
    } else {
      DoomedWhenTooEarly(bits, s, a);
    }
  }

  /** Some signal came too early before moment n. */
  ghost predicate SomeTooEarly(bits: string, states: seq<State>, actions: seq<Action>, n: nat)
    requires n <= |actions| && n <= |states|
  {
    exists k :: 0 <= k < n && TooEarly(bits, states[k], actions[k])
  }

  lemma {:induction false} DoomedBy(bits: string, states: seq<State>, actions: seq<Action>, n: nat)
    requires Bitstring(bits) && Run(bits, states, actions) && n < |states|
    ensures Doomed(bits, states[n]) <==> SomeTooEarly(bits, states, actions, n)
  {
    if n > 0 {
      DoomedBy(bits, states, actions, n - 1);
      RunInv(bits, states, actions, n - 1);
      DoomedStep(bits, states[n - 1], actions[n - 1]);
      assert SomeTooEarly(bits, states, actions, n) <==>
        SomeTooEarly(bits, states, actions, n - 1) || TooEarly(bits, states[n - 1], actions[n - 1]);
    }
  }

  /** A run that can go no further got the whole string through exactly when no signal came too early. */
  lemma DeliveredExactlyWhen(bits: string, states: seq<State>, actions: seq<Action>)
    requires Bitstring(bits) && Run(bits, states, actions) && Stuck(states[|actions|])
    ensures Complete(bits, states[|actions|]) <==> !SomeTooEarly(bits, states, actions, |actions|)
  {
    RunInv(bits, states, actions, |actions|);
    StuckExactly(bits, states[|actions|]);
    DoomedBy(bits, states, actions, |actions|);
  }

  // ---- each of the three does happen

  /** One more step of a run. */
  lemma Extend(bits: string, states: seq<State>, actions: seq<Action>, a: Action)
    returns (states': seq<State>, actions': seq<Action>)
    requires Run(bits, states, actions) && Enabled(states[|actions|], a)
    ensures Run(bits, states', actions') && |actions'| == |actions| + 1
    ensures states'[|actions'|] == Next(bits, states[|actions|], a)
  {
    states' := states + [Next(bits, states[|actions|], a)];
    actions' := actions + [a];
  }

  /** The handshake is over and the first bit has been sent, in a run that tests the child early or not. */
  lemma FirstBitSent(bits: string, childFirst: bool) returns (states: seq<State>, actions: seq<Action>)
    requires Bitstring(bits) && bits != ""
    ensures Run(bits, states, actions)
    ensures states[|actions|] == State(Clear(0), true, true, false, false, if childFirst then Entering else Checking,
                                       bits[0] == '1', bits[0] == '0', [], [])
  {
    states, actions := [State(AwaitReady, false, true, false, false, Starting, false, false, [], [])], [];
    states, actions := Extend(bits, states, actions, ChildRuns);
    if childFirst {
      states, actions := Extend(bits, states, actions, ChildRuns);
    }
    states, actions := Extend(bits, states, actions, ReadyArrives);
    states, actions := Extend(bits, states, actions, ParentRuns);
    states, actions := Extend(bits, states, actions, ParentRuns);
    states, actions := Extend(bits, states, actions, ParentRuns);
  }

  /** The acknowledgement can come before canReceive = false, for every string of two bits or more. */
  lemma AckCanComeTooEarly(bits: string) returns (states: seq<State>, actions: seq<Action>)
    requires Bitstring(bits) && |bits| >= 2
    ensures Run(bits, states, actions) && Doomed(bits, states[|actions|])
    ensures states[|actions|].parent == Clear(0) && states[|actions|].received == bits[..1]
  {
    states, actions := FirstBitSent(bits, false);
    states, actions := Extend(bits, states, actions, BitArrives(bits[0]));
    states, actions := Extend(bits, states, actions, HandlerAcks);
    states, actions := Extend(bits, states, actions, AckArrives);
  }

  /** Or between the parent's test and its pause. */
  lemma AckCanMissPause(bits: string) returns (states: seq<State>, actions: seq<Action>)
    requires Bitstring(bits) && |bits| >= 2
    ensures Run(bits, states, actions) && Doomed(bits, states[|actions|])
    ensures states[|actions|].parent == Pausing(1) && states[|actions|].received == bits[..1]
  {
    states, actions := FirstBitSent(bits, false);
    states, actions := Extend(bits, states, actions, ParentRuns);
    states, actions := Extend(bits, states, actions, ParentRuns);
    states, actions := Extend(bits, states, actions, BitArrives(bits[0]));
    states, actions := Extend(bits, states, actions, HandlerAcks);
    states, actions := Extend(bits, states, actions, AckArrives);
  }

  /** And the last bit can come between the child's test and its pause. */
  lemma LastBitCanMissPause(bits: string) returns (states: seq<State>, actions: seq<Action>)
    requires Bitstring(bits) && |bits| == 1
    ensures Run(bits, states, actions) && Doomed(bits, states[|actions|])
    ensures states[|actions|].child == Entering && states[|actions|].received == bits
  {
    states, actions := FirstBitSent(bits, true);
    states, actions := Extend(bits, states, actions, BitArrives(bits[0]));
  }

  /** A signal that is pending can arrive at any moment of the process it was sent to. */
  lemma SignalsArriveAnyTime(bits: string, states: seq<State>, actions: seq<Action>, k: nat)
    requires Bitstring(bits) && Run(bits, states, actions) && k < |states|
    ensures states[k].onePending ==> Enabled(states[k], BitArrives('1'))
    ensures states[k].zeroPending ==> Enabled(states[k], BitArrives('0'))
    ensures states[k].readyPending ==> Enabled(states[k], ReadyArrives)
    ensures states[k].ackPending && states[k].parent != Exited ==> Enabled(states[k], AckArrives)
  {
    RunInv(bits, states, actions, k);
  }
}
