/**
 Forks granted to philosophers that have not asked: exactly when put_forks grants them, how long
 they stay granted, and which blocked philosophers wait for nobody else. On rings of any size from 2.
 */
module DiningGrants {
  import opened Dining

  /** EATING by the state array, but only thinking. */
  predicate Unasked(s: State, j: nat) {
    j < |s.at| && j < |s.eating| && s.eating[j] && s.at[j] == Thinking
  }

  /** j is not EATING and has no EATING neighbour other than i. */
  predicate FreeBut(s: State, j: nat, i: nat)
    requires Shape(s) && j < |s.at|
  {
    var n := |s.at|;
    && !s.eating[j]
    && (Left(n, j) != i ==> !s.eating[Left(n, j)])
    && (Right(n, j) != i ==> !s.eating[Right(n, j)])
  }

  /** put_forks of i serves its left neighbour, then its right; on a ring of three those two are neighbours. */
  predicate Serves(s: State, i: nat, j: nat)
    requires Shape(s) && i < |s.at| && j < |s.at|
  {
    var n := |s.at|;
    || (j == Left(n, i) && FreeBut(s, j, i))
    || (j == Right(n, i) && FreeBut(s, j, i) && !(n == 3 && FreeBut(s, Left(n, i), i)))
  }

  lemma ServesExactly(s: State, i: nat, j: nat)
    requires Inv(s) && i < |s.at| && s.at[i] == Holding && j < |s.at|
    ensures Put(s, i).eating[j] <==> (s.eating[j] && j != i) || Serves(s, i, j)
    ensures Put(s, i).at[j] == Thinking <==> s.at[j] == Thinking || j == i
  {
    var n := |s.at|;
    var down := State(s.eating[i := false], s.at[i := Thinking]);
    var l, r := Left(n, i), Right(n, i);
    var first := Grant(down, l);
    assert s.eating[i] by { assert Justified(s, i); }
    assert MayTake(down, l) <==> FreeBut(s, l, i);
    assert l != r ==> (MayTake(first, r) <==> FreeBut(s, r, i) && !(n == 3 && FreeBut(s, l, i)));
    assert l == r ==> n == 2;
  }

  /**
   One step, one philosopher: j is EATING without having asked after the step exactly if it was
   before and did not ask now, or was thinking while a neighbour's put_forks served it.
   */
  lemma UnaskedExactlyWhen(s: State, l: Label, s': State, j: nat)
    requires Inv(s) && Step(s, l, s') && j < |s.at|
    ensures Unasked(s', j) <==> (Unasked(s, j) && l != TakeForks(j)) || Grants(s, l, j)
  {
    match l
    case PutForks(i) => ServesExactly(s, i, j);
    case TakeForks(i) => TakeInv(s, i);
    case _ =>
  }

  /** The guard of the unasked grant. */
  predicate Grants(s: State, l: Label, j: nat) {
    && l.PutForks? && Shape(s) && l.i < |s.at| && j < |s.at|
    && s.at[j] == Thinking && Serves(s, l.i, j)
  }

  predicate SomeUnasked(s: State) { exists j: nat :: j < |s.at| && Unasked(s, j) }

  /** From a state without such grants a step makes one exactly if it is a put_forks with a free thinking neighbour. */
  lemma FirstUnasked(s: State, l: Label, s': State)
    requires Inv(s) && Step(s, l, s') && !SomeUnasked(s)
    ensures SomeUnasked(s') <==> exists j: nat :: j < |s.at| && Grants(s, l, j)
  {
    StepInv(s, l, s');
    if j: nat :| j < |s'.at| && Unasked(s', j) { UnaskedExactlyWhen(s, l, s', j); }
    if j: nat :| j < |s.at| && Grants(s, l, j) { UnaskedExactlyWhen(s, l, s', j); }
  }

  // ---- runs

  /** From step m on up to state k philosopher j has not asked for forks. */
  predicate NotAsked(labels: seq<Label>, m: nat, k: nat, j: nat) {
    k <= |labels| && forall h :: m < h < k ==> labels[h] != TakeForks(j)
  }

  /** Step m granted j forks it had not asked for, and j has not asked up to state k. */
  ghost predicate GrantedSince(trace: seq<State>, labels: seq<Label>, m: nat, k: nat, j: nat) {
    m < k <= |labels| < |trace| && Grants(trace[m], labels[m], j) && NotAsked(labels, m, k, j)
  }

  ghost predicate Since(trace: seq<State>, labels: seq<Label>, k: nat, j: nat) {
    exists m :: 0 <= m < k && GrantedSince(trace, labels, m, k, j)
  }

  /** In any run j is EATING without having asked exactly since some put_forks served it while it thought. */
  lemma {:induction false} UnaskedSince(trace: seq<State>, labels: seq<Label>, k: nat, j: nat)
    requires Run(trace, labels) && k < |trace| && j < |trace[0].at|
    ensures Unasked(trace[k], j) <==> Since(trace, labels, k, j)
  {
    if k > 0 {
      var s, l := trace[k - 1], labels[k - 1];
      UnaskedSince(trace, labels, k - 1, j);
      RunInv(trace, labels, k - 1);
      UnaskedExactlyWhen(s, l, trace[k], j);
      SinceStep(trace, labels, k - 1, j);
    }
  }

  lemma SinceStep(trace: seq<State>, labels: seq<Label>, k: nat, j: nat)
    requires |trace| == |labels| + 1 && k < |labels|
    ensures Since(trace, labels, k + 1, j)
      <==> Grants(trace[k], labels[k], j)
           || (labels[k] != TakeForks(j) && Since(trace, labels, k, j))
  {
    if Grants(trace[k], labels[k], j) { assert GrantedSince(trace, labels, k, k + 1, j); }
    if m :| 0 <= m < k && GrantedSince(trace, labels, m, k, j) {
      if labels[k] != TakeForks(j) { assert GrantedSince(trace, labels, m, k + 1, j); }
    }
    var next := k + 1;
    if m :| 0 <= m < next && GrantedSince(trace, labels, m, next, j) {
      if m < k { assert GrantedSince(trace, labels, m, k, j); }
    }
  }

  /** A neighbour of i that eats, or will as soon as it runs. */
  predicate AtTable(s: State, j: nat) {
    && j < |s.at| && j < |s.eating| && s.eating[j]
    && (s.at[j] == Holding || s.at[j] == Waiting(true))
  }

  /**
   A blocked philosopher has nobody past take_forks or signalled into it beside it exactly when
   every EATING neighbour was fed by a put_forks while thinking and has not asked since.
   */
  lemma BlockedByThinkersExactlyWhen(trace: seq<State>, labels: seq<Label>, k: nat, i: nat)
    requires Run(trace, labels) && k < |trace| && Blocked(trace[k], i)
    ensures |trace[k].eating| == |trace[k].at| == |trace[0].at|
    ensures (forall j: nat :: Adjacent(|trace[0].at|, i, j) ==> !AtTable(trace[k], j))
      <==> forall j: nat :: Adjacent(|trace[0].at|, i, j) && trace[k].eating[j] ==>
             Since(trace, labels, k, j)
  {
    RunInv(trace, labels, k);
    forall j: nat | Adjacent(|trace[0].at|, i, j) && trace[k].eating[j]
      ensures !AtTable(trace[k], j) <==> Since(trace, labels, k, j)
    {
      assert Justified(trace[k], j);
      UnaskedSince(trace, labels, k, j);
    }
  }

  // ---- each critical section in full

  predicate SameExcept(s: State, s': State, i: nat) {
    && |s'.eating| == |s.eating| && |s'.at| == |s.at|
    && forall j :: 0 <= j < |s.at| && j < |s.eating| && j != i ==> s'.at[j] == s.at[j] && s'.eating[j] == s.eating[j]
  }

  /** take_forks goes through exactly if neither neighbour is EATING; else the philosopher sleeps. */
  lemma TakesExactlyWhen(s: State, i: nat, s': State)
    requires Inv(s) && Step(s, TakeForks(i), s')
    ensures var n := |s.at|;
      && i < n && s.at[i] == Thinking && SameExcept(s, s', i)
      && s'.eating[i] == (!s.eating[(i + n - 1) % n] && !s.eating[(i + 1) % n])
      && s'.at[i] == if s'.eating[i] then Holding else Waiting(false)
  {
    RingMacros(|s.at|, i);
    TakeInv(s, i);
  }

  /** A woken philosopher goes through exactly if it has been made EATING; else it sleeps again. */
  lemma WakesExactlyWhen(s: State, i: nat, s': State)
    requires Inv(s) && Step(s, Wake(i), s')
    ensures i < |s.at| && s.at[i] == Waiting(true) && s'.eating == s.eating && SameExcept(s, s', i)
    ensures s'.at[i] == if s.eating[i] then Holding else Waiting(false)
  {
  }

  /** put_forks leaves i thinking without forks, and wakes exactly the sleeping neighbours it serves. */
  lemma PutsExactly(s: State, i: nat, s': State, j: nat)
    requires Inv(s) && Step(s, PutForks(i), s') && j < |s.at|
    ensures s.at[i] == Holding && |s'.at| == |s'.eating| == |s.at|
    ensures s'.eating[j] == ((s.eating[j] && j != i) || Serves(s, i, j))
    ensures s'.at[j] ==
      if j == i then Thinking else if Serves(s, i, j) && s.at[j].Waiting? then Waiting(true) else s.at[j]
  {
    ServesExactly(s, i, j);
    if j != i { PutStatus(s, i, j); }
  }

  lemma PutStatus(s: State, i: nat, j: nat)
    requires Inv(s) && i < |s.at| && s.at[i] == Holding && j < |s.at| && j != i
    ensures Put(s, i).at[j] == if Serves(s, i, j) && s.at[j].Waiting? then Waiting(true) else s.at[j]
  {
    ServesExactly(s, i, j);
    var n := |s.at|;
    var down := State(s.eating[i := false], s.at[i := Thinking]);
    var l, r := Left(n, i), Right(n, i);
    var first := Grant(down, l);
    assert first.at[j] == if first.eating[j] != s.eating[j] && s.at[j].Waiting? then Waiting(true) else s.at[j];
  }

  /** Which steps there are in a state: every philosopher can do exactly one thing, whatever the others do. */
  lemma EnabledExactlyWhen(s: State, i: nat)
    requires Shape(s) && i < |s.at|
    ensures (exists s' :: Step(s, TakeForks(i), s')) <==> s.at[i] == Thinking
    ensures (exists s' :: Step(s, PutForks(i), s')) <==> s.at[i] == Holding
    ensures (exists s' :: Step(s, Wake(i), s')) <==> s.at[i] == Waiting(true)
    ensures (exists s' :: Step(s, Spurious(i), s')) <==> s.at[i] == Waiting(false)
  {
    if s.at[i] == Thinking { assert Step(s, TakeForks(i), Take(s, i)); }
    if s.at[i] == Holding { assert Step(s, PutForks(i), Put(s, i)); }
    if s.at[i] == Waiting(true) { assert Step(s, Wake(i), Settle(s, i)); }
    if s.at[i] == Waiting(false) { assert Step(s, Spurious(i), s.(at := s.at[i := Waiting(true)])); }
  }
}
