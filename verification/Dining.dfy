/**
 The dining philosophers on a ring of n. HUNGRY is also the state of a philosopher that is only
 thinking, so put_forks may grant forks to a neighbour that has not asked for them.
 */
module Dining {
  import opened ModArith

  /** Where a philosopher thread is: outside, asleep on its own condition variable, or past take_forks. */
  datatype Philosopher = Thinking | Waiting(signalled: bool) | Holding

  /** eating[i] is state[i] == EATING. */
  datatype State = State(eating: seq<bool>, at: seq<Philosopher>)

  datatype Label = TakeForks(i: nat) | Wake(i: nat) | PutForks(i: nat) | Spurious(i: nat)

  /** The neighbours on a ring of n. */
  function Left(n: nat, i: nat): nat
    requires i < n
  {
    if i == 0 then n - 1 else i - 1
  }

  function Right(n: nat, i: nat): nat
    requires i < n
  {
    if i == n - 1 then 0 else i + 1
  }

  /** They are what the program's two macros compute. */
  lemma RingMacros(n: nat, i: nat)
    requires i < n
    ensures Left(n, i) == (i + n - 1) % n && Right(n, i) == (i + 1) % n
  {
    Wraps(n, i + n - 1);
    Wraps(n, i + 1);
  }

  lemma Wraps(n: nat, x: nat)
    requires n > 0 && x < 2 * n
    ensures x % n == if x < n then x else x - n
  {
    if x < n { ModUnique(x, 0, x, n); } else { ModUnique(x, 1, x - n, n); }
  }

  predicate Shape(s: State) { |s.eating| == |s.at| >= 2 }

  predicate Init(s: State) {
    Shape(s) && forall i :: 0 <= i < |s.at| ==> !s.eating[i] && s.at[i] == Thinking
  }

  // ---- the three functions of the program

  predicate MayTake(s: State, i: nat)
    requires Shape(s) && i < |s.at|
  {
    var n := |s.at|;
    !s.eating[i] && !s.eating[Left(n, i)] && !s.eating[Right(n, i)]
  }

  function Grant(s: State, i: nat): (r: State)
    requires Shape(s) && i < |s.at|
    ensures Shape(r) && |r.at| == |s.at|
  {
    if MayTake(s, i)
    then State(s.eating[i := true], if s.at[i].Waiting? then s.at[i := Waiting(true)] else s.at)
    else s
  }

  /** The test of the wait loop. */
  function Settle(s: State, i: nat): (r: State)
    requires Shape(s) && i < |s.at|
    ensures Shape(r) && |r.at| == |s.at|
  {
    s.(at := s.at[i := if s.eating[i] then Holding else Waiting(false)])
  }

  function Take(s: State, i: nat): (r: State)
    requires Shape(s) && i < |s.at|
    ensures Shape(r) && |r.at| == |s.at|
  {
    Settle(Grant(s.(eating := s.eating[i := false]), i), i)
  }

  function Put(s: State, i: nat): (r: State)
    requires Shape(s) && i < |s.at|
    ensures Shape(r) && |r.at| == |s.at|
  {
    var n := |s.at|;
    Grant(Grant(State(s.eating[i := false], s.at[i := Thinking]), Left(n, i)), Right(n, i))
  }

  predicate Step(s: State, l: Label, s': State) {
    && Shape(s) && l.i < |s.at|
    && match l
       case TakeForks(i) => s.at[i] == Thinking && s' == Take(s, i)
       case Wake(i) => s.at[i] == Waiting(true) && s' == Settle(s, i)
       case PutForks(i) => s.at[i] == Holding && s' == Put(s, i)
       case Spurious(i) => s.at[i] == Waiting(false) && s' == s.(at := s.at[i := Waiting(true)])
  }

  ghost predicate Run(trace: seq<State>, labels: seq<Label>) {
    && |trace| == |labels| + 1
    && Init(trace[0])
    && forall k :: 0 <= k < |labels| ==> Step(trace[k], labels[k], trace[k + 1])
  }

  // ---- the invariant

  /** No two neighbours EATING. */
  predicate Exclusive(s: State)
    requires Shape(s)
  {
    forall i :: 0 <= i < |s.at| && s.eating[i] ==> !s.eating[Left(|s.at|, i)] && !s.eating[Right(|s.at|, i)]
  }

  /** A philosopher past take_forks is EATING, and an unsignalled sleeper is not but has an EATING neighbour. */
  predicate Justified(s: State, i: nat)
    requires Shape(s) && i < |s.at|
  {
    var n := |s.at|;
    && (s.at[i] == Holding ==> s.eating[i])
    && (s.at[i].Waiting? ==> s.eating[i] || s.eating[Left(n, i)] || s.eating[Right(n, i)])
    && (s.at[i] == Waiting(false) ==> !s.eating[i])
  }

  predicate Inv(s: State) {
    && Shape(s) && Exclusive(s)
    && forall i :: 0 <= i < |s.at| ==> Justified(s, i)
  }

  /** Justified everywhere but possibly at one neighbour of the philosopher that just put its forks down. */
  predicate JustifiedExcept(s: State, a: nat, b: nat)
    requires Shape(s)
  {
    forall i :: 0 <= i < |s.at| && i != a && i != b ==> Justified(s, i)
  }

  /** Trying to grant forks to i repairs i's justification and breaks nobody else's. */
  lemma GrantKeeps(s: State, i: nat, other: nat)
    requires Shape(s) && i < |s.at| && Exclusive(s) && JustifiedExcept(s, i, other)
    requires s.at[i] != Holding && (s.at[i] == Waiting(false) ==> !s.eating[i])
    ensures var r := Grant(s, i);
      && Exclusive(r)
      && Justified(r, i)
      && (forall j :: 0 <= j < |s.at| && j != other ==> Justified(r, j))
      && (forall j :: 0 <= j < |s.at| && j != i ==> r.at[j] == s.at[j] && r.eating[j] == s.eating[j])
  {
    var r := Grant(s, i);
    forall j | 0 <= j < |s.at| && r.eating[j]
      ensures !r.eating[Left(|s.at|, j)] && !r.eating[Right(|s.at|, j)]
    {
      assert j != i ==> s.eating[j];
    }
    forall j | 0 <= j < |s.at| && j != i && j != other ensures Justified(r, j) {
      assert Justified(s, j);
    }
  }

  lemma PutInv(s: State, i: nat)
    requires Inv(s) && i < |s.at| && s.at[i] == Holding
    ensures Inv(Put(s, i))
  {
    var n := |s.at|;
    var down := State(s.eating[i := false], s.at[i := Thinking]);
    var l, r := Left(n, i), Right(n, i);
    assert Justified(s, i) && Justified(s, l) && Justified(s, r);
    forall j | 0 <= j < n && down.eating[j] ensures !down.eating[Left(n, j)] && !down.eating[Right(n, j)] {
      assert s.eating[j];
    }
    forall j | 0 <= j < n && j != l && j != r ensures Justified(down, j) {
      assert Justified(s, j);
    }
    GrantKeeps(down, l, r);
    GrantKeeps(Grant(down, l), r, r);
  }

  /** A philosopher that asks while already granted keeps the grant: its neighbours are not EATING. */
  lemma TakeInv(s: State, i: nat)
    requires Inv(s) && i < |s.at| && s.at[i] == Thinking
    ensures Inv(Take(s, i))
    ensures s.eating[i] ==> Take(s, i) == s.(at := s.at[i := Holding])
  {
    var n := |s.at|;
    if s.eating[i] {
      assert s.eating[i := false][i := true] == s.eating;
    } else {
      assert s.eating[i := false] == s.eating;
      GrantKeeps(s, i, i);
    }
    var r := Take(s, i);
    forall j | 0 <= j < n && j != i ensures Justified(r, j) {
      assert Justified(s, j);
    }
  }

  /** Every step of every philosopher, spurious wakeups included, keeps the invariant. */
  lemma StepInv(s: State, l: Label, s': State)
    requires Inv(s) && Step(s, l, s')
    ensures Inv(s') && |s'.at| == |s.at|
  {
    match l
    case TakeForks(i) => TakeInv(s, i);
    case PutForks(i) => PutInv(s, i);
    case Wake(i) => SleeperInv(s, s', i);
    case Spurious(i) => SleeperInv(s, s', i);
  }

  lemma SleeperInv(s: State, s': State, i: nat)
    requires Inv(s) && i < |s.at| && s.at[i].Waiting?
    requires s' == s.(at := s.at[i := Waiting(true)]) || (s' == Settle(s, i) && s.at[i] == Waiting(true))
    ensures Inv(s')
  {
    forall j | 0 <= j < |s.at| ensures Justified(s', j) {
      assert Justified(s, j);
    }
  }

  lemma {:induction false} RunInv(trace: seq<State>, labels: seq<Label>, k: nat)
    requires Run(trace, labels) && k < |trace|
    ensures Inv(trace[k]) && |trace[k].at| == |trace[0].at|
  {
    if k > 0 {
      RunInv(trace, labels, k - 1);
      StepInv(trace[k - 1], labels[k - 1], trace[k]);
    }
  }

  // ---- theorems

  predicate Adjacent(n: nat, i: nat, j: nat) { i < n && j < n && (j == Left(n, i) || j == Right(n, i)) }

  /** Blocked: asleep with no signal on the way. */
  predicate Blocked(s: State, i: nat) { i < |s.at| && s.at[i] == Waiting(false) }

  /** No two neighbours are ever EATING, hence none both past take_forks. */
  lemma NeighboursExclude(trace: seq<State>, labels: seq<Label>, k: nat, i: nat, j: nat)
    requires Run(trace, labels) && k < |trace| && Adjacent(|trace[0].at|, i, j)
    ensures |trace[k].at| == |trace[k].eating| == |trace[0].at|
    ensures !(trace[k].eating[i] && trace[k].eating[j])
    ensures !(trace[k].at[i] == Holding && trace[k].at[j] == Holding)
  {
    RunInv(trace, labels, k);
    assert Justified(trace[k], i) && Justified(trace[k], j);
  }

  /** A blocked philosopher has an EATING neighbour, and an EATING philosopher is never blocked. */
  lemma BlockedHasCause(trace: seq<State>, labels: seq<Label>, k: nat, i: nat) returns (j: nat)
    requires Run(trace, labels) && k < |trace| && Blocked(trace[k], i)
    ensures Adjacent(|trace[k].at|, i, j) && j < |trace[k].eating| && trace[k].eating[j]
    ensures !Blocked(trace[k], j)
  {
    RunInv(trace, labels, k);
    var s := trace[k];
    var n := |s.at|;
    assert Justified(s, i);
    j := if s.eating[Left(n, i)] then Left(n, i) else Right(n, i);
    assert Justified(s, j);
  }

  /** In every reachable state some philosopher is not blocked. */
  lemma NotAllBlocked(trace: seq<State>, labels: seq<Label>, k: nat) returns (j: nat)
    requires Run(trace, labels) && k < |trace|
    ensures j < |trace[k].at| && !Blocked(trace[k], j)
  {
    RunInv(trace, labels, k);
    if Blocked(trace[k], 0) { j := BlockedHasCause(trace, labels, k, 0); } else { j := 0; }
  }

  /** Forks once granted stay granted until their holder puts them down, whoever steps. */
  lemma GrantsPersist(s: State, l: Label, s': State, i: nat)
    requires Inv(s) && Step(s, l, s') && i < |s.at| && s.eating[i] && l != PutForks(i)
    ensures i < |s'.eating| && s'.eating[i]
  {
    if l == TakeForks(i) { TakeInv(s, i); }
  }

  /**
   Putting forks down feeds and wakes a blocked neighbour whose other neighbour is not EATING; only
   on a ring of three can the left neighbour, served first, take the forks from the right one.
   */
  lemma PutFeedsNeighbour(s: State, j: nat, i: nat)
    requires Inv(s) && |s.at| >= 3 && j < |s.at| && s.at[j] == Holding && Adjacent(|s.at|, j, i) && Blocked(s, i)
    requires !s.eating[OtherNeighbour(|s.at|, i, j)]
    ensures var s' := Put(s, j);
      || (s'.at[i] == Waiting(true) && s'.eating[i])
      || (|s.at| == 3 && i == Right(3, j) && s'.eating[Left(3, j)])
  {
    var n := |s.at|;
    var down := State(s.eating[j := false], s.at[j := Thinking]);
    var l, r := Left(n, j), Right(n, j);
    var first := Grant(down, l);
    assert Justified(s, i) && !down.eating[i];
    assert OtherNeighbour(n, i, j) != i && OtherNeighbour(n, i, j) != j;
    if i == l {
      assert MayTake(down, i);
      assert Put(s, j).at[i] == first.at[i] && Put(s, j).eating[i] == first.eating[i];
    } else {
      assert first.at[i] == down.at[i] && !first.eating[i] && !first.eating[j];
      assert n > 3 ==> l != OtherNeighbour(n, i, j);
    }
  }

  function OtherNeighbour(n: nat, i: nat, j: nat): nat
    requires i < n
  {
    if Left(n, i) == j then Right(n, i) else Left(n, i)
  }

  /** The five philosophers of the program, by hand: 0 eats once, then 1 is EATING without having asked. */
  function Granted(): seq<bool> { [false, true, false, false, true] }

  /**
   HUNGRY stands for thinking too: a run of the five philosophers in which 2 is blocked although
   nobody is past take_forks, because put_forks fed the thinking 1.
   */
  lemma BlockedByAThinker() returns (trace: seq<State>, labels: seq<Label>)
    ensures Run(trace, labels) && |trace| == 4 && |trace[3].eating| == |trace[3].at| == 5
    ensures Blocked(trace[3], 2) && trace[3].eating[1] && trace[3].at[1] == Thinking
    ensures forall i :: 0 <= i < 5 ==> trace[3].at[i] != Holding
  {
    var idle := [Thinking, Thinking, Thinking, Thinking, Thinking];
    var nobody := [false, false, false, false, false];
    var s0 := State(nobody, idle);
    var s1 := State([true, false, false, false, false], [Holding, Thinking, Thinking, Thinking, Thinking]);
    var s2 := State(Granted(), idle);
    var s3 := State(Granted(), [Thinking, Thinking, Waiting(false), Thinking, Thinking]);
    assert Step(s0, TakeForks(0), s1);
    assert Step(s1, PutForks(0), s2);
    assert Step(s2, TakeForks(2), s3);
    trace, labels := [s0, s1, s2, s3], [TakeForks(0), PutForks(0), TakeForks(2)];
  }
}
