/** The queue operations of the two servers. */
module PoolPrograms {
  import opened PoolQueues

  /** simple_server.cpp: a bounded std::queue between the accept loop and the workers. */
  class WebServer {
    const queueMax: nat
    var clientQueue: seq<int>
    var producer: Producer
    var workers: seq<Worker>
    ghost var enqueued: seq<int>
    ghost var served: seq<(int, nat)>

    ghost function View(): State
      reads this
    {
      State(clientQueue, producer, workers, enqueued, served)
    }

    ghost function Kind(): Pool { Web(queueMax) }

    constructor (queueMax: nat, threads: nat)
      ensures Init(View()) && Inv(Kind(), View()) && this.queueMax == queueMax && |workers| == threads
    {
      this.queueMax := queueMax;
      clientQueue, producer := [], Accepting;
      workers := seq(threads, i => Idle);
      enqueued, served := [], [];
      new;
      assert Fds([]) == [];
    }

    method AcceptConnection(newsockfd: int)
      requires Inv(Kind(), View()) && producer.Accepting?
      modifies this
      ensures Inv(Kind(), View()) && Step(Kind(), old(View()), Accept(newsockfd), View())
    {
      producer := Holding(newsockfd);
    }

    /** The accept loop's critical section, from the lock (or the wakeup) to the wait or unlock. */
    method PushConnection()
      requires Inv(Kind(), View()) && (producer.Holding? || (producer.Stalled? && producer.signalled))
      modifies this
      ensures Inv(Kind(), View()) && Step(Kind(), old(View()), Enqueue, View())
    {
      ghost var before := View();
      if |clientQueue| == queueMax {
        producer := Stalled(producer.fd, false);
      } else {
        clientQueue := clientQueue + [producer.fd];
        enqueued := enqueued + [producer.fd];
        producer := Accepting;
        if i :| 0 <= i < |workers| && workers[i] == Asleep(false) {
          workers := workers[i := Asleep(true)];
        }
      }
      StepInv(Kind(), before, Enqueue, View());
    }

    /** connection_handler's critical section while the server runs. */
    method PopConnection(w: nat)
      requires Inv(Kind(), View()) && w < |workers| && (workers[w] == Idle || workers[w] == Asleep(true))
      modifies this
      ensures Inv(Kind(), View()) && Step(Kind(), old(View()), Dequeue(w), View())
      ensures |workers| == old(|workers|) && old(clientQueue) ==
        if workers[w].Busy? then [workers[w].fd] + clientQueue else []
    {
      ghost var before := View();
      if clientQueue == [] {
        workers := workers[w := Asleep(false)];
      } else {
        var newsockfd := clientQueue[0];
        clientQueue := clientQueue[1..];
        served := served + [(newsockfd, w)];
        workers := workers[w := Busy(newsockfd)];
        producer := WakeProducer(producer);
      }
      StepInv(Kind(), before, Dequeue(w), View());
    }
  }

  /** One element of the key-value server's linked queue. */
  class FdNode {
    const clientFd: int
    var next: FdNode?

    constructor (clientFd: int)
      ensures this.clientFd == clientFd && next == null
    {
      this.clientFd := clientFd;
      next := null;
    }
  }

  /** fd_queue_head and fd_queue_tail. */
  class FdQueue {
    var head: FdNode?
    var tail: FdNode?
    ghost var nodes: seq<FdNode>

    ghost predicate Valid()
      reads this, nodes
    {
      && (forall i, k :: 0 <= i < k < |nodes| ==> nodes[i] != nodes[k])
      && (forall i {:trigger nodes[i].next} :: 0 <= i < |nodes| ==>
            nodes[i].next == if i + 1 < |nodes| then nodes[i + 1] else null)
      && head == (if nodes == [] then null else nodes[0])
      && tail == (if nodes == [] then null else nodes[|nodes| - 1])
    }

    ghost function Contents(): (fds: seq<int>)
      reads this, nodes
      ensures |fds| == |nodes|
    {
      seq(|nodes|, i requires 0 <= i < |nodes| reads this, nodes => nodes[i].clientFd)
    }

    constructor ()
      ensures Valid() && Contents() == []
    {
      head, tail := null, null;
      nodes := [];
    }

    /** The lines of main between lock and signal. */
    method Enqueue(clientFd: int)
      requires Valid()
      modifies this, nodes
      ensures Valid() && Contents() == old(Contents()) + [clientFd]
      ensures |nodes| == |old(nodes)| + 1 && nodes[..|old(nodes)|] == old(nodes) && fresh(nodes[|old(nodes)|])
    {
      var node := new FdNode(clientFd);
      ghost var ns := nodes;
      assert ns != [] ==> tail in ns;
      if head == null {
        head := node;
      } else {
        tail.next := node;
      }
      tail := node;
      nodes := ns + [node];
      assert forall i :: 0 <= i < |ns| ==> nodes[i] == ns[i] && ns[i] != node;
    }

    /** The lines of handle_client after its wait loop. */
    method Dequeue() returns (clientFd: int)
      requires Valid() && Contents() != []
      modifies this, nodes
      ensures Valid() && [clientFd] + Contents() == old(Contents())
      ensures nodes == old(nodes)[1..]
    {
      ghost var ns := nodes;
      assert ns[0] == head && head in ns;
      var node: FdNode := head;
      head := head.next;
      if head == null {
        tail := null;
      }
      node.next := null;
      nodes := ns[1..];
      clientFd := node.clientFd;
      assert forall i :: 0 <= i < |nodes| ==> nodes[i] == ns[i + 1] && nodes[i] != node;
    }
  }

  /** server.c: the linked queue, its workers and the single producer in main. */
  class KeyValueServer {
    const queue: FdQueue
    var producer: Producer
    var workers: seq<Worker>
    ghost var enqueued: seq<int>
    ghost var served: seq<(int, nat)>

    ghost function View(): State
      reads this, queue, queue.nodes
    {
      State(queue.Contents(), producer, workers, enqueued, served)
    }

    ghost predicate Valid()
      reads this, queue, queue.nodes
    {
      queue.Valid() && Inv(KeyValue, View())
    }

    constructor (threads: nat)
      ensures Valid() && Init(View()) && |workers| == threads
    {
      queue := new FdQueue();
      producer := Accepting;
      workers := seq(threads, i => Idle);
      enqueued, served := [], [];
      new;
      assert Fds([]) == [];
    }

    /** pthread_cond_signal(&fd_queue_cond). */
    method SignalFdQueue()
      modifies this`workers
      ensures SignalWorker(old(workers), workers)
    {
      if i :| 0 <= i < |workers| && workers[i] == Asleep(false) {
        workers := workers[i := Asleep(true)];
      }
    }

    method PushClient()
      requires Valid() && producer.Holding?
      modifies this, queue, queue.nodes
      ensures Valid() && Step(KeyValue, old(View()), Enqueue, View())
    {
      ghost var before := View();
      queue.Enqueue(producer.fd);
      enqueued := enqueued + [producer.fd];
      producer := Accepting;
      SignalFdQueue();
      StepInv(KeyValue, before, Enqueue, View());
    }

    method TakeClient(w: nat)
      requires Valid() && w < |workers| && (workers[w] == Idle || workers[w] == Asleep(true))
      modifies this, queue, queue.nodes
      ensures Valid() && Step(KeyValue, old(View()), Dequeue(w), View())
      ensures |workers| == old(|workers|) && old(queue.Contents()) ==
        if workers[w].Busy? then [workers[w].fd] + queue.Contents() else []
    {
      ghost var before := View();
      if queue.head == null {
        workers := workers[w := Asleep(false)];
      } else {
        var clientFd := queue.Dequeue();
        served := served + [(clientFd, w)];
        workers := workers[w := Busy(clientFd)];
        assert before.queue[0] == clientFd && before.queue[1..] == queue.Contents();
      }
      StepInv(KeyValue, before, Dequeue(w), View());
    }

    /** A worker done with its client signals once more, without the lock. */
    method FinishClient(w: nat)
      requires Valid() && w < |workers| && workers[w].Busy?
      modifies this
      ensures Valid() && Step(KeyValue, old(View()), Finish(w), View())
    {
      ghost var before := View();
      workers := workers[w := Idle];
      SignalFdQueue();
      StepInv(KeyValue, before, Finish(w), View());
    }
  }
}
