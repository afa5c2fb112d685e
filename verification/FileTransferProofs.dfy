/** Safety and completeness of the file transfer, and what one lost ACK does to it. */
module FileTransferProofs {
  import opened FileTransferModel

  // ---- concatenation of chunks

  lemma ConcatAppend(cs: seq<Bytes>, c: Bytes)
    ensures Concat(cs + [c]) == Concat(cs) + c
  {
    assert (cs + [c])[..|cs|] == cs;
  }

  lemma ConcatNext(cs: seq<Bytes>, i: nat)
    requires i < |cs|
    ensures Concat(cs[..i + 1]) == Concat(cs[..i]) + cs[i]
  {
    assert cs[..i + 1] == cs[..i] + [cs[i]];
    ConcatAppend(cs[..i], cs[i]);
  }

  lemma {:induction false} ConcatPrefix(cs: seq<Bytes>, i: nat)
    requires i <= |cs|
    ensures Concat(cs[..i]) <= Concat(cs)
  {
    if i == |cs| {
      assert cs[..i] == cs;
    } else {
      ConcatPrefix(cs[..|cs| - 1], i);
      assert cs[..|cs| - 1][..i] == cs[..i];
      var a, b, c := Concat(cs[..i]), Concat(cs[..|cs| - 1]), cs[|cs| - 1];
      assert a == (b + c)[..|a|];
    }
  }

  // ---- the invariant

  predicate InFlight(s: State) { s.server.phase.AtSend? || s.server.phase.AtSelect? }

  /** What the server has read and what it believes delivered. */
  ghost predicate ServerInv(content: Bytes, s: State) {
    var sv := s.server;
    && sv.seqNum <= |s.chunks| <= sv.seqNum + 1
    && (InFlight(s) ==> |s.chunks| == sv.seqNum + 1 && sv.chunk == s.chunks[sv.seqNum])
    && (sv.phase.AtRead? ==> |s.chunks| == sv.seqNum)
    && (forall i :: 0 <= i < |s.chunks| ==> 0 < |s.chunks[i]| <= DATA_SIZE)
    && sv.offset <= |content| && Concat(s.chunks) == content[..sv.offset]
    && sv.totalSent == |Concat(s.chunks[..sv.seqNum])|
  }

  /** What the client has accepted. */
  ghost predicate ClientInv(s: State) {
    var cl := s.client;
    && s.server.seqNum <= cl.expectedSeq <= |s.chunks|
    && cl.totalReceived == |Concat(s.chunks[..cl.expectedSeq])|
    && |cl.file| == cl.totalReceived + s.torn
    && (s.torn == 0 ==> cl.file == Concat(s.chunks[..cl.expectedSeq]))
    && s.acked == seq(cl.expectedSeq, i => i)
  }

  /** What can still be delivered. */
  ghost predicate ChannelInv(s: State) {
    && (forall p :: p in s.packets ==>
          || (p.seqNum == EOF_SEQ && s.server.phase.Ended?)
          || (0 <= p.seqNum < |s.chunks| && p.data == s.chunks[p.seqNum]))
    && (forall a :: a in s.acks && a.ok ==> 0 <= a.seqNum < s.client.expectedSeq)
  }

  ghost predicate Inv(content: Bytes, s: State) {
    ServerInv(content, s) && ClientInv(s) && ChannelInv(s)
  }

  lemma ReadKeeps(content: Bytes, s: State, n: int)
    requires Inv(content, s) && Enabled(content, s, Read(n))
    ensures Inv(content, Next(content, s, Read(n)))
  {
    var s' := Next(content, s, Read(n));
    var sv := s.server;
    if s'.server.phase.AtSend? {
      ConcatAppend(s.chunks, s'.server.chunk);
      assert s'.chunks[..sv.seqNum] == s.chunks[..sv.seqNum];
      assert s'.chunks[..s.client.expectedSeq] == s.chunks[..s.client.expectedSeq];
    }
  }

  lemma SelectKeeps(content: Bytes, s: State, e: Select)
    requires Inv(content, s) && Enabled(content, s, Label.Select(e))
    ensures Inv(content, Next(content, s, Label.Select(e)))
  {
    if e.GotAck? && e.ack.seqNum == s.server.seqNum && e.ack.ok {
      ConcatNext(s.chunks, s.server.seqNum);
    }
  }

  lemma ReceiveKeeps(content: Bytes, s: State, p: Packet, k: int)
    requires Inv(content, s) && Enabled(content, s, Receive(p, k))
    ensures Inv(content, Next(content, s, Receive(p, k)))
  {
    var s' := Next(content, s, Receive(p, k));
    var e := s.client.expectedSeq;
    if p.seqNum == e && k == |p.data| {
      ConcatNext(s.chunks, e);
      assert seq(e + 1, i => i) == seq(e, i => i) + [e];
    }
  }

  lemma StepInv(content: Bytes, s: State, l: Label, s': State)
    requires Inv(content, s) && Step(content, s, l, s')
    ensures Inv(content, s')
  {
    match l
    case Read(n) => ReadKeeps(content, s, n);
    case Select(e) => SelectKeeps(content, s, e);
    case Receive(p, k) => ReceiveKeeps(content, s, p, k);
    case _ =>
  }

  lemma InitInv(content: Bytes, s: State)
    requires Init(s)
    ensures Inv(content, s)
  {
    assert content[..0] == [];
  }

  lemma {:induction false} RunInv(content: Bytes, trace: seq<State>, labels: seq<Label>, i: nat)
    requires Run(content, trace, labels) && i < |trace|
    ensures Inv(content, trace[i])
  {
    if i == 0 {
      InitInv(content, trace[0]);
    } else {
      RunInv(content, trace, labels, i - 1);
      StepInv(content, trace[i - 1], labels[i - 1], trace[i]);
    }
  }

  // ---- safety

  /**
   Whatever the channel does: client and server are at most one chunk apart, no number is ACKed
   twice, and the client's file is chunks 0 .. expected_seq-1 if and only if no write came up short.
   */
  lemma Safety(content: Bytes, trace: seq<State>, labels: seq<Label>, i: nat)
    requires Run(content, trace, labels) && i < |trace|
    ensures var s := trace[i];
      && s.server.seqNum <= s.client.expectedSeq <= s.server.seqNum + 1
      && s.client.expectedSeq <= |s.chunks|
      && s.acked == seq(s.client.expectedSeq, k => k)
      && (s.client.file == Concat(s.chunks[..s.client.expectedSeq]) <==> s.torn == 0)
      && (s.torn == 0 ==> s.client.file <= content)
  {
    RunInv(content, trace, labels, i);
    var s := trace[i];
    ConcatPrefix(s.chunks, s.client.expectedSeq);
    var a := Concat(s.chunks[..s.client.expectedSeq]);
    assert a == Concat(s.chunks)[..|a|] == content[..|a|];
  }

  /** write() stored some but not all of a chunk that the client was waiting for. */
  predicate ShortWrite(s: State, l: Label) {
    l.Receive? && l.p.seqNum == s.client.expectedSeq && 0 < l.written < |l.p.data|
  }

  /** Bytes are left behind in the file exactly by the short writes. */
  lemma {:induction false} TornExactlyWhen(content: Bytes, trace: seq<State>, labels: seq<Label>, i: nat)
    requires Run(content, trace, labels) && i < |trace|
    ensures trace[i].torn == 0 <==> forall k :: 0 <= k < i ==> !ShortWrite(trace[k], labels[k])
  {
    if i > 0 {
      TornExactlyWhen(content, trace, labels, i - 1);
      assert Step(content, trace[i - 1], labels[i - 1], trace[i]);
      assert trace[i].torn == 0 <==> trace[i - 1].torn == 0 && !ShortWrite(trace[i - 1], labels[i - 1]);
    }
  }

  // ---- completeness

  /**
   A server that leaves its loop having counted the whole file has a client with the whole file; one
   that gives up leaves the client with a prefix, level with total_sent or one chunk of it ahead.
   */
  lemma Completeness(content: Bytes, trace: seq<State>, labels: seq<Label>, i: nat)
    requires Run(content, trace, labels) && i < |trace| && trace[i].server.phase.Ended?
    ensures var s := trace[i];
      && s.client.totalReceived <= |content|
      && (s.server.totalSent >= |content| ==> s.client.totalReceived == |content| == s.server.totalSent)
      && (s.server.totalSent >= |content| && s.torn == 0 ==> s.client.file == content)
      && (s.torn == 0 ==> s.client.file == content[..s.client.totalReceived])
      && (|| s.client.totalReceived == s.server.totalSent
          || (|s.chunks| == s.server.seqNum + 1
              && s.client.totalReceived == s.server.totalSent + |s.chunks[s.server.seqNum]|
              && s.client.totalReceived <= s.server.totalSent + DATA_SIZE))
  {
    RunInv(content, trace, labels, i);
    var s := trace[i];
    var n := s.server.seqNum;
    ConcatPrefix(s.chunks, s.client.expectedSeq);
    ConcatPrefix(s.chunks, n);
    if n < |s.chunks| {
      ConcatNext(s.chunks, n);
      assert s.chunks[..n + 1] == s.chunks;
    }
    assert s.chunks[..|s.chunks|] == s.chunks;
    var a := Concat(s.chunks[..s.client.expectedSeq]);
    assert a == Concat(s.chunks)[..|a|] == content[..|a|];
    if |a| == |content| { assert content[..|a|] == content; }
  }

  // ---- a lost ACK

  /** The client has the chunk that the server is sending, and the ACK for it is gone. */
  predicate AckLost(s: State) {
    && s.client.expectedSeq == s.server.seqNum + 1
    && Ack(s.server.seqNum, true) !in s.acks
    && !s.server.phase.AtRead?
  }

  lemma StepAckLost(content: Bytes, s: State, l: Label, s': State)
    requires Inv(content, s) && AckLost(s) && Step(content, s, l, s')
    ensures AckLost(s') && s'.server.seqNum == s.server.seqNum && s'.server.totalSent == s.server.totalSent
  {
  }

  /**
   The client answers every repeat with NAK, so a lost ACK is never made good: from then on the
   server counts nothing more, and never ends with the whole file counted.
   */
  lemma {:induction false} LostAckIsFatal(content: Bytes, trace: seq<State>, labels: seq<Label>, i: nat, j: nat)
    requires Run(content, trace, labels) && i <= j < |trace| && AckLost(trace[i])
    ensures AckLost(trace[j])
    ensures trace[j].server.totalSent == trace[i].server.totalSent < |content|
    decreases j
  {
    RunInv(content, trace, labels, j);
    var s := trace[j];
    if i < j {
      LostAckIsFatal(content, trace, labels, i, j - 1);
      RunInv(content, trace, labels, j - 1);
      StepAckLost(content, trace[j - 1], labels[j - 1], s);
    } else {
      ConcatNext(s.chunks, s.server.seqNum);
      ConcatPrefix(s.chunks, s.server.seqNum + 1);
    }
  }

  // ---- the two ways it goes wrong, by example

  const START: State := State(Server(AtRead, 0, 0, 0, [], 0), Client(0, 0, [], false), {}, {}, [], [], 0)
  const TWO_BYTES: Bytes := [1, 2]
  const CHUNK_0: Packet := Packet(0, TWO_BYTES)
  const CHUNK_READ: State := START.(server := Server(AtSend, 0, 0, 2, TWO_BYTES, 0), chunks := [TWO_BYTES])
  const CHUNK_SENT: State := CHUNK_READ.(server := CHUNK_READ.server.(phase := AtSelect), packets := {CHUNK_0})

  lemma FirstChunk()
    ensures Step(TWO_BYTES, START, Read(2), CHUNK_READ) && Step(TWO_BYTES, CHUNK_READ, Send, CHUNK_SENT)
  {
    assert TWO_BYTES[0..2] == TWO_BYTES;
  }

  const NAK: Ack := Ack(0, false)
  const TORN: State := CHUNK_SENT.(client := Client(0, 0, [1], false), acks := {NAK}, torn := 1)
  const RESENT: State := TORN.(packets := {CHUNK_0} + {CHUNK_0})
  const DOUBLED: State :=
    RESENT.(client := Client(1, 2, [1] + TWO_BYTES, false), acks := {NAK} + {Ack(0, true)}, acked := [] + [0])

  lemma TornChunk()
    ensures Step(TWO_BYTES, CHUNK_SENT, Receive(CHUNK_0, 1), TORN)
    ensures Step(TWO_BYTES, TORN, Label.Select(GotAck(NAK)), TORN.(server := CHUNK_READ.server))
  {
  }

  lemma DoubledChunk()
    ensures Step(TWO_BYTES, TORN.(server := CHUNK_READ.server), Send, RESENT)
    ensures Step(TWO_BYTES, RESENT, Receive(CHUNK_0, 2), DOUBLED)
  {
  }

  /** A short write leaves its byte in the file, so the file of a finished client is not the file sent. */
  lemma ShortWriteCorrupts() returns (trace: seq<State>, labels: seq<Label>)
    ensures Run(TWO_BYTES, trace, labels) && |labels| == 6
    ensures var s := trace[6];
      s.torn == 1 && Finished(2, s.client) && s.client.file == [1, 1, 2] && s.client.totalReceived == 2
  {
    FirstChunk();
    TornChunk();
    DoubledChunk();
    trace := [START, CHUNK_READ, CHUNK_SENT, TORN, TORN.(server := CHUNK_READ.server), RESENT, DOUBLED];
    labels := [Read(2), Send, Receive(CHUNK_0, 1), Label.Select(GotAck(NAK)), Send, Receive(CHUNK_0, 2)];
  }

  const ACKED: State :=
    CHUNK_SENT.(client := Client(1, 2, [] + TWO_BYTES, false), acks := {} + {Ack(0, true)}, acked := [] + [0])

  lemma AckedChunk()
    ensures Step(TWO_BYTES, CHUNK_SENT, Receive(CHUNK_0, 2), ACKED)
  {
  }

  /** Losing one ACK is enough: the client has the whole file and the server can never know. */
  lemma AckCanBeLost() returns (trace: seq<State>, labels: seq<Label>)
    ensures Run(TWO_BYTES, trace, labels) && |labels| == 4
    ensures AckLost(trace[4]) && trace[4].client.file == TWO_BYTES
  {
    var ack := Ack(0, true);
    FirstChunk();
    AckedChunk();
    var lost := ACKED.(acks := ACKED.acks - {ack});
    assert Step(TWO_BYTES, ACKED, LoseAck(ack), lost);
    trace := [START, CHUNK_READ, CHUNK_SENT, ACKED, lost];
    labels := [Read(2), Send, Receive(CHUNK_0, 2), LoseAck(ack)];
  }
}
