/** The program's state array and its three functions, each one critical section. */
module DiningProgram {
  import opened Dining

  const EATING: int := 1
  const HUNGRY: int := 0

  class Table {
    const state: array<int>
    var at: seq<Philosopher>

    ghost function View(): State
      reads this, state
    {
      State(seq(state.Length, i requires 0 <= i < state.Length reads this, state => state[i] == EATING), at)
    }

    ghost predicate Valid()
      reads this, state
    {
      Shape(View()) && forall i :: 0 <= i < state.Length ==> state[i] == EATING || state[i] == HUNGRY
    }

    constructor (n: nat)
      requires n >= 2
      ensures Valid() && Init(View()) && |at| == n && fresh(state)
    {
      state := new int[n](i => HUNGRY);
      at := seq(n, i => Thinking);
    }

    method CanTakeForks(i: nat)
      requires Valid() && i < |at|
      modifies this, state
      ensures Valid() && View() == Grant(old(View()), i)
    {
      var n := state.Length;
      RingMacros(n, i);
      if state[i] == HUNGRY && state[(i + n - 1) % n] != EATING && state[(i + 1) % n] != EATING {
        state[i] := EATING;
        if at[i].Waiting? { at := at[i := Waiting(true)]; }
      }
    }

    /** take_forks from its call to the first wait or to the unlock. */
    method TakeForks(i: nat)
      requires Valid() && Inv(View()) && i < |at| && at[i] == Thinking
      modifies this, state
      ensures Valid() && Inv(View()) && Step(old(View()), Label.TakeForks(i), View())
    {
      ghost var before := View();
      state[i] := HUNGRY;
      assert View() == before.(eating := before.eating[i := false]);
      CanTakeForks(i);
      TestWait(i);
      StepInv(before, Label.TakeForks(i), View());
    }

    /** One test of the loop of take_forks. */
    method TestWait(i: nat)
      requires Valid() && i < |at|
      modifies this
      ensures Valid() && View() == Settle(old(View()), i)
    {
      at := at[i := if state[i] != EATING then Waiting(false) else Holding];
    }

    method Resume(i: nat)
      requires Valid() && Inv(View()) && i < |at| && at[i] == Waiting(true)
      modifies this
      ensures Valid() && Inv(View()) && Step(old(View()), Wake(i), View())
    {
      ghost var before := View();
      TestWait(i);
      StepInv(before, Wake(i), View());
    }

    method PutForks(i: nat)
      requires Valid() && Inv(View()) && i < |at| && at[i] == Holding
      modifies this, state
      ensures Valid() && Inv(View()) && Step(old(View()), Label.PutForks(i), View())
    {
      ghost var before := View();
      Release(i);
      RingMacros(state.Length, i);
      var left, right := (i + state.Length - 1) % state.Length, (i + 1) % state.Length;
      assert left == Left(state.Length, i) && right == Right(state.Length, i);
      CanTakeForks(left);
      CanTakeForks(right);
      StepInv(before, Label.PutForks(i), View());
    }

    /** The first assignment of put_forks. */
    method Release(i: nat)
      requires Valid() && i < |at|
      modifies this, state
      ensures Valid() && View() == State(old(View()).eating[i := false], old(at)[i := Thinking])
    {
      state[i] := HUNGRY;
      at := at[i := Thinking];
    }
  }
}
