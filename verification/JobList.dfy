/** The doubly linked list of background jobs and the shell commands that change it. */
module JobList {
  import opened JobListModel

  class Node {
    var job: Job
    var next: Node?
    var prev: Node?

    constructor (job: Job)
      ensures this.job == job && next == null && prev == null
    {
      this.job := job;
      next, prev := null, null;
    }
  }

  ghost predicate Distinct(ns: seq<Node>) {
    forall i, k :: 0 <= i < k < |ns| ==> ns[i] != ns[k]
  }

  ghost function NextOf(ns: seq<Node>, i: int): Node?
    requires -1 <= i < |ns|
  {
    if i + 1 < |ns| then ns[i + 1] else null
  }

  ghost function PrevOf(ns: seq<Node>, i: nat): Node?
    requires i < |ns|
  {
    if i > 0 then ns[i - 1] else null
  }

  ghost function JobsOf(ns: seq<Node>): (js: seq<Job>)
    reads ns
    ensures |js| == |ns|
  {
    seq(|ns|, i requires 0 <= i < |ns| reads ns => ns[i].job)
  }

  lemma JobsOfDrop(ns: seq<Node>, k: nat)
    requires k < |ns|
    ensures JobsOf(ns[..k] + ns[k + 1..]) == Drop(JobsOf(ns), k)
  {
  }

  lemma JobsOfAppend(ns: seq<Node>, node: Node)
    ensures JobsOf(ns + [node]) == JobsOf(ns) + [node.job]
  {
  }

  class BackgroundJobList {
    var head: Node?
    var tail: Node?
    var currentJobID: int
    var previousJobID: int
    ghost var nodes: seq<Node>   // from head to tail

    /** next and prev mirror each other; tail may point anywhere while the list is empty. */
    ghost predicate Valid()
      reads this, nodes
    {
      && Distinct(nodes)
      && (forall i {:trigger nodes[i].next} :: 0 <= i < |nodes| ==> nodes[i].next == NextOf(nodes, i))
      && (forall i {:trigger nodes[i].prev} :: 0 <= i < |nodes| ==> nodes[i].prev == PrevOf(nodes, i))
      && head == NextOf(nodes, -1)
      && (nodes != [] ==> tail == nodes[|nodes| - 1])
    }

    ghost function Jobs(): (js: seq<Job>)
      reads this, nodes
      ensures |js| == |nodes|
    {
      JobsOf(nodes)
    }

    constructor ()
      ensures Valid() && Jobs() == [] && currentJobID == previousJobID == 0 && nodes == []
    {
      head, tail := null, null;
      currentJobID, previousJobID := 0, 0;
      nodes := [];
    }

    /** The pointer updates of addJobToBackgroundJobsList: an empty list, or a node behind the tail. */
    method LinkAtTail(node: Node)
      requires Valid() && node !in nodes && node.next == null && node.prev == null
      modifies this, nodes, node
      ensures nodes == old(nodes) && node.job == old(node.job) && Jobs() == old(Jobs())
      ensures currentJobID == old(currentJobID) && previousJobID == old(previousJobID)
      ensures forall i {:trigger nodes[i].next} :: 0 <= i < |nodes| ==>
        nodes[i].next == if i == |nodes| - 1 then node else NextOf(nodes, i)
      ensures forall i {:trigger nodes[i].prev} :: 0 <= i < |nodes| ==> nodes[i].prev == PrevOf(nodes, i)
      ensures node.next == null && node.prev == if nodes == [] then null else nodes[|nodes| - 1]
      ensures head == (if nodes == [] then node else nodes[0]) && tail == node
    {
      assert forall i :: 0 <= i < |nodes| ==> nodes[i] != node;
      if head == null {
        head := node;
        tail := node;
      } else {
        tail.next := node;
        node.prev := tail;
        tail := node;
      }
    }

    /** A valid list with one more node linked behind its last is valid. */
    lemma AppendedIsValid(ns: seq<Node>, node: Node)
      requires nodes == ns + [node] && Distinct(ns) && node !in ns
      requires forall i {:trigger ns[i].next} :: 0 <= i < |ns| ==>
        ns[i].next == if i == |ns| - 1 then node else NextOf(ns, i)
      requires forall i {:trigger ns[i].prev} :: 0 <= i < |ns| ==> ns[i].prev == PrevOf(ns, i)
      requires node.next == null && node.prev == if ns == [] then null else ns[|ns| - 1]
      requires head == (if ns == [] then node else ns[0]) && tail == node
      ensures Valid()
    {
      forall i | 0 <= i < |nodes|
        ensures nodes[i].next == NextOf(nodes, i) && nodes[i].prev == PrevOf(nodes, i)
      {
        if i < |ns| { assert nodes[i] == ns[i]; }
      }
    }

    method AddJob(jobID: int, pid: int, tokens: seq<string>)
      requires Valid()
      modifies this, nodes
      ensures Valid() && Jobs() == old(Jobs()) + [Job(jobID, pid, tokens)]
      ensures currentJobID == jobID && previousJobID == old(currentJobID)
      ensures |nodes| == |old(nodes)| + 1 && nodes[..|old(nodes)|] == old(nodes) && fresh(nodes[|old(nodes)|])
    {
      var node := new Node(Job(jobID, pid, tokens));
      LinkAtTail(node);
      ghost var ns := nodes;
      nodes := ns + [node];
      AppendedIsValid(ns, node);
      JobsOfAppend(ns, node);
      previousJobID := currentJobID;
      currentJobID := jobID;
    }

    /** The walk from the head shared by the two functions below. */
    method FindPid(pid: int) returns (node: Node?, ghost k: nat)
      requires Valid()
      ensures k <= |nodes| && forall i :: 0 <= i < k ==> nodes[i].job.pid != pid
      ensures if k == |nodes| then node == null else node == nodes[k] && node.job.pid == pid
    {
      node, k := head, 0;
      while node != null && node.job.pid != pid
        invariant k <= |nodes| && node == if k < |nodes| then nodes[k] else null
        invariant forall i :: 0 <= i < k ==> nodes[i].job.pid != pid
        decreases |nodes| - k
      {
        node := node.next;
        k := k + 1;
      }
    }

    /** printJobCompletionMessage: the job it announces, if the pid is one of the list's. */
    method CompletedJob(pid: int) returns (found: bool, job: Job)
      requires Valid()
      ensures found <==> Present(Jobs(), pid)
      ensures found ==> job == FirstWith(Jobs(), pid)
    {
      var node, k := FindPid(pid);
      found := node != null;
      job := if node != null then node.job else Job(0, 0, []);
      if node != null {
        assert Jobs()[k].pid == pid;
        FirstAt(Jobs(), pid, k);
      } else {
        assert forall i :: 0 <= i < |nodes| ==> Jobs()[i] == nodes[i].job;
      }
    }

    /** The three cases of updateBackgroundJobsList: head, tail, or a node in between. */
    method Unlink(node: Node, ghost k: nat)
      requires Valid() && k < |nodes| && node == nodes[k]
      modifies this, nodes
      ensures nodes == old(nodes) && currentJobID == old(currentJobID) && previousJobID == old(previousJobID)
      ensures Jobs() == old(Jobs())
      ensures forall i {:trigger nodes[i].next} :: 0 <= i < |nodes| && i != k ==>
        nodes[i].next == if i == k - 1 then NextOf(nodes, k) else NextOf(nodes, i)
      ensures forall i {:trigger nodes[i].prev} :: 0 <= i < |nodes| && i != k ==>
        nodes[i].prev == if i == k + 1 then PrevOf(nodes, k) else PrevOf(nodes, i)
      ensures head == if k == 0 then NextOf(nodes, 0) else nodes[0]
      ensures tail == if k == |nodes| - 1 && k > 0 then nodes[k - 1] else old(tail)
    {
      assert forall i :: 0 <= i < |nodes| ==> nodes[i] in nodes;
      if node.prev == null {
        head := node.next;
        if head != null {
          assert head == nodes[1];
          head.prev := null;
        }
      } else if node.next == null {
        tail := node.prev;
        if tail != null {
          assert tail == nodes[k - 1];
          tail.next := null;
        }
      } else {
        assert node.prev == nodes[k - 1] && node.next == nodes[k + 1];
        node.prev.next := node.next;
        node.next.prev := node.prev;
      }
    }

    method RemoveNode(node: Node, ghost k: nat)
      requires Valid() && k < |nodes| && node == nodes[k]
      modifies this, nodes
      ensures Valid() && nodes == old(nodes[..k] + nodes[k + 1..])
      ensures currentJobID == old(currentJobID) && previousJobID == old(previousJobID)
      ensures Jobs() == Drop(old(Jobs()), k)
    {
      ghost var ns := nodes;
      Unlink(node, k);
      nodes := ns[..k] + ns[k + 1..];
      forall i | 0 <= i < |nodes|
        ensures nodes[i].next == NextOf(nodes, i) && nodes[i].prev == PrevOf(nodes, i)
      {
        var j := if i < k then i else i + 1;
        assert nodes[i] == ns[j] && j != k;
        assert ns[j].next == if j == k - 1 then NextOf(ns, k) else NextOf(ns, j);
        assert ns[j].prev == if j == k + 1 then PrevOf(ns, k) else PrevOf(ns, j);
      }
      JobsOfDrop(ns, k);
    }

    /**
     updateBackgroundJobsList. On a pid that is not in the list it changes nothing and then follows
     a null pointer to the tokens it wants to free; ok is false exactly then.
     */
    method RemoveJob(pid: int) returns (ok: bool)
      requires Valid()
      modifies this, nodes
      ensures Valid() && Jobs() == RemovePid(old(Jobs()), pid)
      ensures ok <==> Present(old(Jobs()), pid)
      ensures !ok ==> Jobs() == old(Jobs())
      ensures currentJobID == old(currentJobID) && previousJobID == old(previousJobID)
      ensures forall i :: 0 <= i < |nodes| ==> nodes[i] in old(nodes)
    {
      ghost var before := Jobs();
      var node, k := FindPid(pid);
      ok := node != null;
      PresentAt(before, pid, k);
      if node != null {
        RemoveAt(before, pid, k);
        RemoveNode(node, k);
      }
    }
  }

  /** The shell's globals: the list and the id of the next background job. */
  class Shell {
    const bgJobs: BackgroundJobList
    var backgroundJobID: int
    ghost var launched: seq<Job>
    ghost var reaped: set<int>

    ghost predicate Valid()
      reads this, bgJobs, bgJobs.nodes
    {
      bgJobs.Valid()
    }

    ghost function View(): State
      reads this, bgJobs, bgJobs.nodes
    {
      State(bgJobs.Jobs(), backgroundJobID, bgJobs.currentJobID, bgJobs.previousJobID, launched, reaped)
    }

    constructor ()
      ensures Valid() && View() == START
    {
      bgJobs := new BackgroundJobList();
      backgroundJobID := 1;
      launched, reaped := [], {};
    }

    /** The parent's part of executeBackgroundCommand, after fork returned pid. */
    method LaunchJob(pid: int, tokens: seq<string>)
      requires Valid() && Possible(View(), Launch(pid, tokens))
      modifies this, bgJobs, bgJobs.nodes
      ensures Valid() && View() == Next(old(View()), Launch(pid, tokens))
      ensures bgJobs.Jobs() == old(bgJobs.Jobs()) + [Job(old(backgroundJobID), pid, tokens)]
    {
      bgJobs.AddJob(backgroundJobID, pid, tokens);
      launched := launched + [Job(backgroundJobID, pid, tokens)];
      backgroundJobID := backgroundJobID + 1;
    }

    /** The body of main's waitpid loop. */
    method ReapJob(pid: int) returns (announced: Job)
      requires Valid() && Possible(View(), Reap(pid))
      modifies this, bgJobs, bgJobs.nodes
      ensures Valid() && View() == Next(old(View()), Reap(pid))
      ensures announced == FirstWith(old(bgJobs.Jobs()), pid)
    {
      ghost var before := bgJobs.Jobs();
      var found;
      found, announced := bgJobs.CompletedJob(pid);
      var ok := bgJobs.RemoveJob(pid);
      assert ok && bgJobs.Jobs() == RemovePid(before, pid);
      reaped := reaped + {announced.jobID};
    }
  }
}
