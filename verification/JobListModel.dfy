/** The shell's background jobs as a sequence, and what it is after any run of launches and reaps. */
module JobListModel {

  datatype Job = Job(jobID: int, pid: int, tokens: seq<string>)

  predicate Present(js: seq<Job>, pid: int) { exists k :: 0 <= k < |js| && js[k].pid == pid }

  /** Removing the first job with this pid. */
  function RemovePid(js: seq<Job>, pid: int): seq<Job> {
    if js == [] then [] else if js[0].pid == pid then js[1..] else [js[0]] + RemovePid(js[1..], pid)
  }

  function Drop(js: seq<Job>, k: nat): seq<Job>
    requires k < |js|
  {
    js[..k] + js[k + 1..]
  }

  lemma {:induction false} RemoveAt(js: seq<Job>, pid: int, k: nat)
    requires k < |js| && js[k].pid == pid && forall i :: 0 <= i < k ==> js[i].pid != pid
    ensures RemovePid(js, pid) == Drop(js, k)
  {
    if k > 0 {
      RemoveAt(js[1..], pid, k - 1);
      assert js[..k] == [js[0]] + js[1..][..k - 1];
      assert js[1..][k..] == js[k + 1..];
    }
  }

  /** A walk that stopped at k found the pid, or there is none and nothing to remove. */
  lemma {:induction false} PresentAt(js: seq<Job>, pid: int, k: nat)
    requires k <= |js| && (forall i :: 0 <= i < k ==> js[i].pid != pid) && (k < |js| ==> js[k].pid == pid)
    ensures Present(js, pid) <==> k < |js|
    ensures k == |js| ==> RemovePid(js, pid) == js
  {
    if k == |js| && js != [] { PresentAt(js[1..], pid, k - 1); }
  }

  // ---- runs

  /** A background command is launched, or waitpid reports a finished child. */
  datatype Op = Launch(pid: int, tokens: seq<string>) | Reap(pid: int)

  datatype State = State(
    jobs: seq<Job>, nextID: int, currentID: int, previousID: int,
    launched: seq<Job>,    // every job ever added
    reaped: set<int>)      // the ids of those removed

  const START: State := State([], 1, 0, 0, [], {})

  /** The system never reuses the pid of an unreaped child, and only reports children that exist. */
  predicate Possible(s: State, op: Op) {
    if op.Launch? then !Present(s.jobs, op.pid) else Present(s.jobs, op.pid)
  }

  function FirstWith(js: seq<Job>, pid: int): Job
    requires Present(js, pid)
  {
    if js[0].pid == pid then js[0] else FirstWith(js[1..], pid)
  }

  function Next(s: State, op: Op): State
    requires Possible(s, op)
  {
    match op
    case Launch(pid, tokens) =>
      var j := Job(s.nextID, pid, tokens);
      State(s.jobs + [j], s.nextID + 1, s.nextID, s.currentID, s.launched + [j], s.reaped)
    case Reap(pid) =>
      s.(jobs := RemovePid(s.jobs, pid), reaped := s.reaped + {FirstWith(s.jobs, pid).jobID})
  }

  ghost predicate Run(trace: seq<State>, ops: seq<Op>) {
    && |trace| == |ops| + 1 && trace[0] == START
    && forall i :: 0 <= i < |ops| ==> Possible(trace[i], ops[i]) && trace[i + 1] == Next(trace[i], ops[i])
  }

  /** The jobs of a log whose ids are not in a set, in the log's order. */
  function Without(js: seq<Job>, ids: set<int>): seq<Job> {
    if js == [] then []
    else Without(js[..|js| - 1], ids) + if js[|js| - 1].jobID in ids then [] else [js[|js| - 1]]
  }

  predicate Increasing(js: seq<Job>) {
    forall i, k :: 0 <= i < k < |js| ==> js[i].jobID < js[k].jobID
  }

  predicate DistinctPids(js: seq<Job>) {
    forall i, k :: 0 <= i < k < |js| ==> js[i].pid != js[k].pid
  }

  /** The list is the log without the reaped ids; ids are handed out 1, 2, 3, ... */
  ghost predicate LogInv(s: State) {
    && s.jobs == Without(s.launched, s.reaped)
    && |s.launched| == s.nextID - 1
    && (forall i :: 0 <= i < |s.launched| ==> s.launched[i].jobID == i + 1)
    && (forall id :: id in s.reaped ==> id < s.nextID)
    && s.currentID == s.nextID - 1 && s.previousID == if s.nextID == 1 then 0 else s.nextID - 2
  }

  predicate OrderInv(s: State) {
    && Increasing(s.jobs) && DistinctPids(s.jobs)
    && forall i :: 0 <= i < |s.jobs| ==> 1 <= s.jobs[i].jobID < s.nextID
  }

  ghost predicate Inv(s: State) { LogInv(s) && OrderInv(s) }

  lemma DropAppend(js: seq<Job>, j: Job, k: nat)
    requires k <= |js|
    ensures Drop(js + [j], k) == if k == |js| then js else Drop(js, k) + [j]
  {
  }

  ghost predicate DistinctIDs(js: seq<Job>) {
    forall i, l :: 0 <= i < l < |js| ==> js[i].jobID != js[l].jobID
  }

  /** Dropping one more id from the log is dropping the one job that has it. */
  lemma {:induction false} WithoutOneMore(js: seq<Job>, ids: set<int>, k: nat)
    requires DistinctIDs(js) && k < |Without(js, ids)|
    ensures Without(js, ids + {Without(js, ids)[k].jobID}) == Drop(Without(js, ids), k)
  {
    var n := |js| - 1;
    var front := Without(js[..n], ids);
    if js[n].jobID in ids {
      WithoutOneMore(js[..n], ids, k);
    } else {
      DropAppend(front, js[n], k);
      if k == |front| {
        WithoutSame(js[..n], ids, js[n].jobID);
      } else {
        WithoutMembers(js[..n], ids);
        WithoutOneMore(js[..n], ids, k);
      }
    }
  }

  lemma {:induction false} WithoutMembers(js: seq<Job>, ids: set<int>)
    ensures forall i :: 0 <= i < |Without(js, ids)| ==> Without(js, ids)[i] in js
  {
    if js != [] { WithoutMembers(js[..|js| - 1], ids); }
  }

  lemma {:induction false} WithoutSame(js: seq<Job>, ids: set<int>, id: int)
    requires forall i :: 0 <= i < |js| ==> js[i].jobID != id
    ensures Without(js, ids + {id}) == Without(js, ids)
  {
    if js != [] { WithoutSame(js[..|js| - 1], ids, id); }
  }

  lemma {:induction false} FirstIndex(js: seq<Job>, pid: int) returns (k: nat)
    requires Present(js, pid)
    ensures k < |js| && js[k] == FirstWith(js, pid) && js[k].pid == pid
    ensures forall i :: 0 <= i < k ==> js[i].pid != pid
  {
    if js[0].pid == pid {
      k := 0;
    } else {
      var i :| 0 <= i < |js| && js[i].pid == pid;
      assert js[1..][i - 1].pid == pid;
      k := FirstIndex(js[1..], pid);
      k := k + 1;
    }
  }

  lemma {:induction false} FirstAt(js: seq<Job>, pid: int, k: nat)
    requires k < |js| && js[k].pid == pid && forall i :: 0 <= i < k ==> js[i].pid != pid
    ensures Present(js, pid) && FirstWith(js, pid) == js[k]
  {
    if k > 0 { FirstAt(js[1..], pid, k - 1); }
  }

  lemma LaunchInv(s: State, op: Op)
    requires Inv(s) && op.Launch? && Possible(s, op)
    ensures Inv(Next(s, op))
  {
    var s' := Next(s, op);
    assert s'.launched[..|s'.launched| - 1] == s.launched;
  }

  lemma ReapLog(s: State, s': State, k: nat)
    requires LogInv(s) && k < |s.jobs| && s.jobs[k].jobID < s.nextID
    requires s' == s.(jobs := Drop(s.jobs, k), reaped := s.reaped + {s.jobs[k].jobID})
    ensures LogInv(s')
  {
    assert DistinctIDs(s.launched);
    WithoutOneMore(s.launched, s.reaped, k);
  }

  lemma ReapOrder(s: State, s': State, k: nat)
    requires OrderInv(s) && k < |s.jobs| && s'.jobs == Drop(s.jobs, k) && s'.nextID == s.nextID
    ensures OrderInv(s')
  {
    assert forall i :: 0 <= i < |s'.jobs| ==> s'.jobs[i] == s.jobs[if i < k then i else i + 1];
  }

  /** Reaping takes out one job and leaves the order of the others. */
  lemma StepInv(s: State, op: Op)
    requires Inv(s) && Possible(s, op)
    ensures Inv(Next(s, op))
  {
    if op.Launch? {
      LaunchInv(s, op);
    } else {
      var k := FirstIndex(s.jobs, op.pid);
      RemoveAt(s.jobs, op.pid, k);
      ReapLog(s, Next(s, op), k);
      ReapOrder(s, Next(s, op), k);
    }
  }

  lemma {:induction false} RunInv(trace: seq<State>, ops: seq<Op>, i: nat)
    requires Run(trace, ops) && i < |trace|
    ensures Inv(trace[i])
  {
    if i > 0 {
      RunInv(trace, ops, i - 1);
      StepInv(trace[i - 1], ops[i - 1]);
    }
  }

  /** Removing this pid takes out job k, which is the only one that has it. */
  ghost predicate RemovesExactly(js: seq<Job>, pid: int, k: nat) {
    && k < |js| && js[k].pid == pid && RemovePid(js, pid) == Drop(js, k)
    && forall l :: 0 <= l < |js| && l != k ==> js[l].pid != pid
  }

  /**
   After any run the list is the jobs launched and not reaped, in launch order, with ids rising from
   head to tail; and a reap would remove exactly the one job that has the pid.
   */
  lemma ListIsLiveJobs(trace: seq<State>, ops: seq<Op>, i: nat)
    requires Run(trace, ops) && i < |trace|
    ensures var s := trace[i];
      && s.jobs == Without(s.launched, s.reaped) && Increasing(s.jobs)
      && forall pid :: Present(s.jobs, pid) ==> exists k: nat :: RemovesExactly(s.jobs, pid, k)
  {
    RunInv(trace, ops, i);
    var s := trace[i];
    forall pid | Present(s.jobs, pid) ensures exists k: nat :: RemovesExactly(s.jobs, pid, k) {
      var k := FirstIndex(s.jobs, pid);
      RemoveAt(s.jobs, pid, k);
      assert RemovesExactly(s.jobs, pid, k);
    }
  }

  /** The job marked "+" by `jobs` is the one launched last, as long as it has not been reaped; "-" the one before. */
  lemma CurrentIsNewest(trace: seq<State>, ops: seq<Op>, i: nat, k: nat)
    requires Run(trace, ops) && i < |trace| && k < |trace[i].jobs|
    ensures var s := trace[i];
      && s.launched != []
      && (s.jobs[k].jobID == s.currentID <==> s.jobs[k] == s.launched[|s.launched| - 1])
      && (s.jobs[k].jobID == s.currentID ==> k == |s.jobs| - 1)
      && (s.jobs[k].jobID == s.previousID ==> k >= |s.jobs| - 2)
  {
    RunInv(trace, ops, i);
    var s := trace[i];
    WithoutMembers(s.launched, s.reaped);
    if k < |s.jobs| - 1 { assert s.jobs[k].jobID < s.jobs[|s.jobs| - 1].jobID; }
    if k < |s.jobs| - 2 { assert s.jobs[k].jobID < s.jobs[k + 1].jobID < s.jobs[k + 2].jobID; }
  }
}
