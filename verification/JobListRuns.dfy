/** The job list told from the shell's history of launches and reaps, not from the list before. */
module JobListRuns {
  import opened JobListModel

  /** The background commands among the first i operations, numbered from 1, with their pids and words. */
  function Launched(ops: seq<Op>, i: nat): seq<Job>
    requires i <= |ops|
  {
    if i == 0 then []
    else
      var before := Launched(ops, i - 1);
      match ops[i - 1]
      case Launch(pid, tokens) => before + [Job(|before| + 1, pid, tokens)]
      case Reap(_) => before
  }

  /** The log of jobs is exactly the launches so far, in order, each with its own command. */
  lemma {:induction false} LogIsLaunches(trace: seq<State>, ops: seq<Op>, i: nat)
    requires Run(trace, ops) && i < |trace|
    ensures trace[i].launched == Launched(ops, i) && trace[i].nextID == |Launched(ops, i)| + 1
  {
    if i > 0 { LogIsLaunches(trace, ops, i - 1); }
  }

  /** The k-th launch puts job k with its pid and its words at the end of the list, and leaves the rest. */
  lemma LaunchAppends(trace: seq<State>, ops: seq<Op>, i: nat)
    requires Run(trace, ops) && i < |ops| && ops[i].Launch?
    ensures trace[i + 1].jobs == trace[i].jobs + [Job(|Launched(ops, i)| + 1, ops[i].pid, ops[i].tokens)]
    ensures trace[i + 1].currentID == |Launched(ops, i)| + 1 && trace[i + 1].previousID == |Launched(ops, i)|
  {
    LogIsLaunches(trace, ops, i);
    RunInv(trace, ops, i);
  }

  /** A run goes on with any launch under a pid that no listed job has, and with any reap of one that has it. */
  lemma GoesOnExactlyWith(trace: seq<State>, ops: seq<Op>, op: Op)
    requires Run(trace, ops)
    ensures (exists next :: Run(trace + [next], ops + [op]))
       <==> (op.Launch? <==> forall k :: 0 <= k < |trace[|ops|].jobs| ==> trace[|ops|].jobs[k].pid != op.pid)
  {
    var s := trace[|ops|];
    if Possible(s, op) {
      assert Run(trace + [Next(s, op)], ops + [op]);
    }
    forall next | Run(trace + [next], ops + [op]) ensures Possible(s, op) {
      assert (trace + [next])[|ops|] == s && (ops + [op])[|ops|] == op;
    }
  }

  /** Operation m launched job j, and up to operation i its pid has not been reaped. */
  predicate LiveSince(ops: seq<Op>, i: nat, m: nat, j: Job) {
    && m < i <= |ops|
    && ops[m] == Launch(j.pid, j.tokens) && j.jobID == |Launched(ops, m)| + 1
    && NotReaped(ops, m, i, j.pid)
  }

  predicate NotReaped(ops: seq<Op>, m: nat, i: nat, pid: int)
    requires i <= |ops|
  {
    forall h :: m < h < i ==> ops[h] != Reap(pid)
  }

  ghost predicate Live(ops: seq<Op>, i: nat, j: Job) { exists m :: 0 <= m < i && LiveSince(ops, i, m, j) }

  lemma LiveNext(ops: seq<Op>, i: nat, j: Job)
    requires i < |ops|
    ensures Live(ops, i + 1, j) <==>
      || (Live(ops, i, j) && ops[i] != Reap(j.pid))
      || (ops[i] == Launch(j.pid, j.tokens) && j.jobID == |Launched(ops, i)| + 1)
  {
    if m :| 0 <= m < i && LiveSince(ops, i, m, j) {
      if ops[i] != Reap(j.pid) { assert LiveSince(ops, i + 1, m, j); }
    }
    if ops[i] == Launch(j.pid, j.tokens) && j.jobID == |Launched(ops, i)| + 1 {
      assert LiveSince(ops, i + 1, i, j);
    }
    var next := i + 1;
    if m :| 0 <= m < next && LiveSince(ops, next, m, j) {
      if m < i { assert LiveSince(ops, i, m, j); }
    }
  }

  lemma {:induction false} RemovedMembers(js: seq<Job>, pid: int, j: Job)
    requires DistinctPids(js) && Present(js, pid)
    ensures j in RemovePid(js, pid) <==> j in js && j.pid != pid
  {
    if js[0].pid == pid {
      assert js == [js[0]] + js[1..];
    } else {
      var k :| 0 <= k < |js| && js[k].pid == pid;
      assert js[1..][k - 1].pid == pid;
      RemovedMembers(js[1..], pid, j);
      assert js == [js[0]] + js[1..];
    }
  }

  /**
   After any run a job is in the list if and only if some operation launched it, with these words, as
   that launch's number, and its pid has not been reaped since.
   */
  lemma {:induction false} ListedExactlyWhen(trace: seq<State>, ops: seq<Op>, i: nat, j: Job)
    requires Run(trace, ops) && i < |trace|
    ensures j in trace[i].jobs <==> Live(ops, i, j)
  {
    if i > 0 {
      ListedExactlyWhen(trace, ops, i - 1, j);
      LiveNext(ops, i - 1, j);
      RunInv(trace, ops, i - 1);
      if ops[i - 1].Launch? {
        LaunchAppends(trace, ops, i - 1);
      } else {
        RemovedMembers(trace[i - 1].jobs, ops[i - 1].pid, j);
      }
    }
  }
}
