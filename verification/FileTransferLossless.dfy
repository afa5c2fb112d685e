/**
 The same session over a channel that delivers every datagram once and in order, with no timeout
 and with every read and write succeeding: it always ends, with the whole file at the client.
 Its steps are steps of the general model, so the safety results hold of it as well.
 */
module FileTransferLossless {
  import opened FileTransferModel
  import opened FileTransferProofs

  const END: Packet := Packet(EOF_SEQ, EOF_DATA)

  datatype Fifo = Fifo(s: State, packetQueue: seq<Packet>, ackQueue: seq<Ack>)

  predicate FifoInit(f: Fifo) { Init(f.s) && f.packetQueue == [] && f.ackQueue == [] }

  /** Reads return at least a byte until the file is read; select returns only for an ACK that is there. */
  predicate Allowed(content: Bytes, f: Fifo, l: Label) {
    && Enabled(content, f.s, l)
    && match l
       case Read(n) => f.s.server.totalSent < |content| ==> n > 0
       case Send => true
       case Select(e) => e.GotAck? && f.ackQueue != [] && e.ack == f.ackQueue[0]
       case Receive(p, k) => f.packetQueue != [] && p == f.packetQueue[0] && k == |p.data|
       case _ => false
  }

  function FifoNext(content: Bytes, f: Fifo, l: Label): Fifo
    requires Allowed(content, f, l)
  {
    var s' := Next(content, f.s, l);
    match l
    case Read(n) => Fifo(s', if s'.server.phase.Ended? then f.packetQueue + [END] else f.packetQueue, f.ackQueue)
    case Send =>
      var p := if s'.server.phase.Ended? then END else Packet(f.s.server.seqNum, f.s.server.chunk);
      Fifo(s', f.packetQueue + [p], f.ackQueue)
    case Select(e) => Fifo(s', f.packetQueue, f.ackQueue[1..])
    case Receive(p, k) =>
      Fifo(s', f.packetQueue[1..], if p.seqNum == EOF_SEQ then f.ackQueue else f.ackQueue + [Reply(f.s.client, p, k)])
    case _ => f
  }

  predicate FifoStep(content: Bytes, f: Fifo, l: Label, f': Fifo) {
    Allowed(content, f, l) && f' == FifoNext(content, f, l)
  }

  ghost predicate FifoRun(content: Bytes, trace: seq<Fifo>, labels: seq<Label>) {
    && |trace| == |labels| + 1
    && FifoInit(trace[0])
    && forall i :: 0 <= i < |labels| ==> FifoStep(content, trace[i], labels[i], trace[i + 1])
  }

  /** The one datagram under way, by phase. */
  ghost predicate FifoInv(content: Bytes, f: Fifo) {
    var sv, cl := f.s.server, f.s.client;
    && Inv(content, f.s) && f.s.torn == 0 && !cl.stopped
    && match sv.phase
       case AtRead => f.packetQueue == [] && f.ackQueue == [] && cl.expectedSeq == sv.seqNum
       case AtSend => f.packetQueue == [] && f.ackQueue == [] && cl.expectedSeq == sv.seqNum && sv.retryCount == 0
       case AtSelect =>
         || (f.packetQueue == [Packet(sv.seqNum, sv.chunk)] && f.ackQueue == [] && cl.expectedSeq == sv.seqNum
             && f.packetQueue[0] in f.s.packets)
         || (f.packetQueue == [] && f.ackQueue == [Ack(sv.seqNum, true)] && cl.expectedSeq == sv.seqNum + 1
             && f.ackQueue[0] in f.s.acks)
       case Ended => |f.packetQueue| == 1 && cl.totalReceived == sv.totalSent == |content|
  }

  lemma FifoStepInv(content: Bytes, f: Fifo, l: Label, f': Fifo)
    requires FifoInv(content, f) && FifoStep(content, f, l, f')
    ensures FifoInv(content, f') && Step(content, f.s, l, f'.s)
  {
    StepInv(content, f.s, l, f'.s);
    if l.Receive? { UnsentBytes(content, f); }
    if l.Read? { UnsentBytes(content, f); }
  }

  /** While a chunk is under way the server has not counted the whole file. */
  lemma UnsentBytes(content: Bytes, f: Fifo)
    requires FifoInv(content, f)
    ensures InFlight(f.s) ==> f.s.server.totalSent < |content|
    ensures f.s.server.totalSent <= |content|
    ensures f.s.client.expectedSeq == f.s.server.seqNum ==> f.s.client.totalReceived == f.s.server.totalSent
    ensures f.s.server.phase.AtRead? ==> f.s.server.offset == f.s.server.totalSent
  {
    var s := f.s;
    ConcatPrefix(s.chunks, s.server.seqNum);
    if InFlight(s) {
      ConcatNext(s.chunks, s.server.seqNum);
      ConcatPrefix(s.chunks, s.server.seqNum + 1);
    } else {
      assert s.chunks[..|s.chunks|] == s.chunks;
    }
  }

  /** Until the server has ended (with the client already finished) somebody has a step to take. */
  lemma FifoProgress(content: Bytes, f: Fifo) returns (l: Label)
    requires FifoInv(content, f) && !f.s.server.phase.Ended?
    ensures Allowed(content, f, l)
  {
    UnsentBytes(content, f);
    match f.s.server.phase
    case AtRead => l := Read(if f.s.server.totalSent < |content| then 1 else 0);
    case AtSend => l := Send;
    case AtSelect =>
      if f.packetQueue != [] {
        l := Receive(f.packetQueue[0], |f.packetQueue[0].data|);
      } else {
        l := Label.Select(GotAck(f.ackQueue[0]));
      }
  }

  function FifoMeasure(content: Bytes, f: Fifo): int {
    4 * (|content| - f.s.server.totalSent) + |f.packetQueue|
    + match f.s.server.phase
      case AtRead => 3
      case AtSend => 2
      case AtSelect => 0
      case Ended => -1
  }

  lemma FifoStepMeasure(content: Bytes, f: Fifo, l: Label, f': Fifo)
    requires FifoInv(content, f) && FifoStep(content, f, l, f')
    ensures FifoMeasure(content, f') < FifoMeasure(content, f)
  {
    UnsentBytes(content, f);
  }

  lemma {:induction false} FifoRunInv(content: Bytes, trace: seq<Fifo>, labels: seq<Label>, i: nat)
    requires FifoRun(content, trace, labels) && i < |trace|
    ensures FifoInv(content, trace[i])
    ensures i + FifoMeasure(content, trace[i]) <= 4 * |content| + 3
  {
    if i == 0 {
      InitInv(content, trace[0].s);
    } else {
      FifoRunInv(content, trace, labels, i - 1);
      FifoStepInv(content, trace[i - 1], labels[i - 1], trace[i]);
      FifoStepMeasure(content, trace[i - 1], labels[i - 1], trace[i]);
    }
  }

  /**
   Every lossless session takes at most 4 steps per byte and 3 more; it can go on until the server
   has ended, and when it cannot, the client is finished and its file is the whole file.
   */
  lemma LosslessSessionDelivers(content: Bytes, trace: seq<Fifo>, labels: seq<Label>)
    requires FifoRun(content, trace, labels)
    ensures |labels| <= 4 * |content| + 3
    ensures var last := trace[|labels|];
      && (last.s.server.phase.Ended? <==> forall l: Label :: !Allowed(content, last, l))
      && (last.s.server.phase.Ended? ==>
            last.s.client.file == content && Finished(|content|, last.s.client) && last.s.server.totalSent == |content|)
  {
    var n := |labels|;
    FifoRunInv(content, trace, labels, n);
    var last := trace[n];
    UnsentBytes(content, last);
    if last.s.server.phase.Ended? {
      var s := last.s;
      ConcatPrefix(s.chunks, s.client.expectedSeq);
      var a := Concat(s.chunks[..s.client.expectedSeq]);
      assert a == Concat(s.chunks)[..|a|] == content[..|a|] == content;
    } else {
      var l := FifoProgress(content, last);
    }
  }

  /** The lossless channel is one of the general channel's behaviours. */
  lemma LosslessIsARun(content: Bytes, trace: seq<Fifo>, labels: seq<Label>)
    requires FifoRun(content, trace, labels)
    ensures Run(content, seq(|trace|, i requires 0 <= i < |trace| => trace[i].s), labels)
  {
    var states := seq(|trace|, i requires 0 <= i < |trace| => trace[i].s);
    forall i | 0 <= i < |labels| ensures Step(content, states[i], labels[i], states[i + 1]) {
      FifoRunInv(content, trace, labels, i);
      FifoStepInv(content, trace[i], labels[i], trace[i + 1]);
    }
  }
}
