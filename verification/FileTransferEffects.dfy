/**
 What each stretch of the two programs puts on the channel and keeps, in the protocol's own numbers:
 508 bytes, three tries, and the end marker with number -1 and the bytes E, O, F.
 */
module FileTransferEffects {
  import opened FileTransferModel
  import opened FileTransferProofs
  import opened FileTransferFinish

  const MARKER: Packet := Packet(-1, [0x45, 0x4F, 0x46])

  // ---- the server

  /** The server reads on exactly while there is something uncounted and read() returns bytes. */
  lemma ReadExactly(content: Bytes, s: State, n: int, s': State)
    requires Step(content, s, Read(n), s')
    ensures s.server.phase == AtRead && n <= 508 && s.server.offset <= |content| && n <= |content| - s.server.offset
    ensures var sv, sv' := s.server, s'.server;
      if sv.totalSent < |content| && n > 0
      then && sv' == Server(AtSend, sv.seqNum, sv.totalSent, sv.offset + n, content[sv.offset..sv.offset + n], 0)
           && s'.packets == s.packets
      else sv' == sv.(phase := Ended) && s'.packets == s.packets + {MARKER}
    ensures s'.client == s.client && s'.acks == s.acks
  {
  }

  /** A try sends the current chunk under the current number; after three timeouts the marker goes out instead. */
  lemma SendExactly(content: Bytes, s: State, s': State)
    requires Step(content, s, Send, s')
    ensures s.server.phase == AtSend
    ensures if s.server.retryCount < 3
      then && s'.server == s.server.(phase := AtSelect)
           && s'.packets == s.packets + {Packet(s.server.seqNum, s.server.chunk)}
      else s'.server == s.server.(phase := Ended) && s'.packets == s.packets + {MARKER}
    ensures s'.client == s.client && s'.acks == s.acks
  {
  }

  /** Only the ACK of the current number counts the chunk; only a timeout counts as a try. */
  lemma SelectExactly(content: Bytes, s: State, e: Select, s': State)
    requires Step(content, s, Label.Select(e), s')
    ensures s.server.phase == AtSelect && (e.GotAck? ==> e.ack in s.acks)
    ensures var sv := s.server;
      s'.server ==
        if e == GotAck(Ack(sv.seqNum, true))
        then Server(AtRead, sv.seqNum + 1, sv.totalSent + |sv.chunk|, sv.offset, sv.chunk, sv.retryCount)
        else if e == SelectFails then sv.(phase := Ended)
        else if e == Timeout then sv.(phase := AtSend, retryCount := sv.retryCount + 1)
        else sv.(phase := AtSend)
    ensures s'.packets == s.packets + if e == SelectFails then {MARKER} else {}
    ensures s'.client == s.client && s'.acks == s.acks
  {
  }

  /** However the server ends, the marker goes on the channel, and nothing else does. */
  lemma EndsWithMarker(content: Bytes, s: State, l: Label, s': State)
    requires Step(content, s, l, s') && !s.server.phase.Ended? && s'.server.phase.Ended?
    ensures s'.packets == s.packets + {Packet(-1, [0x45, 0x4F, 0x46])}
  {
    match l
    case Read(n) => ReadExactly(content, s, n, s');
    case Send => SendExactly(content, s, s');
    case Select(e) => SelectExactly(content, s, e, s');
    case _ =>
  }

  // ---- the client

  /** A client takes packets exactly while it is neither stopped nor has the agreed number of bytes. */
  lemma ReceivesExactlyWhile(content: Bytes, s: State, p: Packet, k: int)
    ensures (exists s' :: Step(content, s, Receive(p, k), s'))
       <==> !s.client.stopped && s.client.totalReceived < |content| && p in s.packets && -1 <= k <= |p.data|
  {
    if Enabled(content, s, Receive(p, k)) {
      assert Step(content, s, Receive(p, k), Next(content, s, Receive(p, k)));
    }
  }

  /** What the client stores of a packet, what it counts, and the answer it gives: ACK only for a counted chunk. */
  lemma ReceiveExactly(content: Bytes, s: State, p: Packet, k: int, s': State)
    requires Step(content, s, Receive(p, k), s')
    ensures -1 <= k <= |p.data|
    ensures s'.client.stopped == (p.seqNum == -1)
    ensures var cl := s.client;
      var stored := if p.seqNum == cl.expectedSeq && k > 0 then p.data[..k] else [];
      var counted := p.seqNum == cl.expectedSeq && k == |p.data|;
      && s'.client.file == cl.file + stored
      && s'.client.totalReceived == cl.totalReceived + (if counted then |p.data| else 0)
      && s'.client.expectedSeq == cl.expectedSeq + (if counted then 1 else 0)
      && s'.acks == s.acks + (if p.seqNum == -1 then {} else {Ack(p.seqNum, counted)})
    ensures s'.server == s.server && s'.packets == s.packets
  {
  }

  /** The marker stops the client, is not answered, and leaves the file as it is. */
  lemma MarkerStopsClient(content: Bytes, s: State, k: int, s': State)
    requires Step(content, s, Receive(MARKER, k), s')
    ensures s'.client == s.client.(stopped := true) && s'.acks == s.acks
  {
    ReceiveExactly(content, s, MARKER, k, s');
  }

  // ---- the channel

  /** What can happen: any datagram on the channel may be lost, or delivered any number of times in any order. */
  lemma ChannelExactly(content: Bytes, s: State, p: Packet, a: Ack)
    ensures (exists s' :: Step(content, s, LosePacket(p), s')) <==> p in s.packets
    ensures (exists s' :: Step(content, s, LoseAck(a), s')) <==> a in s.acks
    ensures (exists s' :: Step(content, s, Label.Select(GotAck(a)), s')) <==> s.server.phase.AtSelect? && a in s.acks
    ensures forall s' :: Step(content, s, LosePacket(p), s') ==> s' == s.(packets := s.packets - {p})
    ensures forall s' :: Step(content, s, LoseAck(a), s') ==> s' == s.(acks := s.acks - {a})
  {
    if p in s.packets { assert Step(content, s, LosePacket(p), s.(packets := s.packets - {p})); }
    if a in s.acks { assert Step(content, s, LoseAck(a), s.(acks := s.acks - {a})); }
    if Enabled(content, s, Label.Select(GotAck(a))) {
      assert Step(content, s, Label.Select(GotAck(a)), Next(content, s, Label.Select(GotAck(a))));
    }
  }

  /** read() may return any count up to a full packet and what is left of the file, and any try may be sent. */
  lemma CallsExactly(content: Bytes, s: State, n: int)
    ensures (exists s' :: Step(content, s, Read(n), s'))
       <==> s.server.phase.AtRead? && s.server.offset <= |content| && n <= 508 && n <= |content| - s.server.offset
    ensures (exists s' :: Step(content, s, Send, s')) <==> s.server.phase.AtSend?
  {
    if Enabled(content, s, Read(n)) { assert Step(content, s, Read(n), Next(content, s, Read(n))); }
    if s.server.phase.AtSend? { assert Step(content, s, Send, Next(content, s, Send)); }
  }

  /** And any call may fail, or time out, whenever it is made. */
  lemma FailuresExactly(content: Bytes, s: State)
    ensures (exists s' :: Step(content, s, Label.Select(Timeout), s')) <==> s.server.phase.AtSelect?
    ensures (exists s' :: Step(content, s, Label.Select(SelectFails), s')) <==> s.server.phase.AtSelect?
    ensures (exists s' :: Step(content, s, Label.Select(RecvFails), s')) <==> s.server.phase.AtSelect?
    ensures (exists s' :: Step(content, s, ReceiveFails, s'))
       <==> !s.client.stopped && s.client.totalReceived < |content|
    ensures forall s' :: Step(content, s, ReceiveFails, s') ==> s' == s.(client := s.client.(stopped := true))
  {
    if s.server.phase.AtSelect? {
      assert Step(content, s, Label.Select(Timeout), Next(content, s, Label.Select(Timeout)));
      assert Step(content, s, Label.Select(SelectFails), Next(content, s, Label.Select(SelectFails)));
      assert Step(content, s, Label.Select(RecvFails), Next(content, s, Label.Select(RecvFails)));
    }
    if Enabled(content, s, ReceiveFails) {
      assert Step(content, s, ReceiveFails, s.(client := s.client.(stopped := true)));
    }
  }

  // ---- runs

  /** Once the server has ended the marker is on the channel, unless it has been lost. */
  lemma {:induction false} MarkerIsSent(content: Bytes, trace: seq<State>, labels: seq<Label>, i: nat)
    requires Run(content, trace, labels) && i < |trace| && trace[i].server.phase.Ended?
    ensures MARKER in trace[i].packets || exists k :: 0 <= k < i && labels[k] == LosePacket(MARKER)
  {
    if i > 0 {
      assert Step(content, trace[i - 1], labels[i - 1], trace[i]);
      if trace[i - 1].server.phase.Ended? {
        MarkerIsSent(content, trace, labels, i - 1);
        if MARKER !in trace[i].packets && MARKER in trace[i - 1].packets {
          assert labels[i - 1] == LosePacket(MARKER);
        }
      } else {
        EndsWithMarker(content, trace[i - 1], labels[i - 1], trace[i]);
      }
    }
  }

  /**
   So an unfinished client of a server that has ended has a packet to receive that finishes it, unless
   the marker has been lost: it is not left waiting for ever.
   */
  lemma MarkerFinishesClient(content: Bytes, trace: seq<State>, labels: seq<Label>, i: nat)
    requires Run(content, trace, labels) && i < |trace| && trace[i].server.phase.Ended?
    requires !Finished(|content|, trace[i].client)
    requires forall k :: 0 <= k < i ==> labels[k] != LosePacket(MARKER)
    ensures exists s' :: Step(content, trace[i], Receive(MARKER, 3), s') && s'.client.stopped
  {
    MarkerIsSent(content, trace, labels, i);
    var s' := Next(content, trace[i], Receive(MARKER, 3));
    assert Step(content, trace[i], Receive(MARKER, 3), s') && s'.client.stopped;
  }

  /** The timeouts among the first i steps since the last read(). */
  function Timeouts(labels: seq<Label>, i: nat): nat
    requires i <= |labels|
  {
    if i == 0 || labels[i - 1].Read? then 0
    else Timeouts(labels, i - 1) + if labels[i - 1] == Label.Select(Timeout) then 1 else 0
  }

  /** retry_count is the number of timeouts since the chunk was read: nothing resets it, no NAK raises it. */
  lemma {:induction false} RetriesAreTimeouts(content: Bytes, trace: seq<State>, labels: seq<Label>, i: nat)
    requires Run(content, trace, labels) && i < |trace| && !trace[i].server.phase.Ended?
    ensures trace[i].server.retryCount == Timeouts(labels, i)
  {
    if i > 0 {
      assert Step(content, trace[i - 1], labels[i - 1], trace[i]);
      RetriesAreTimeouts(content, trace, labels, i - 1);
    }
  }

  /** The retry loop gives up exactly after three timeouts on one chunk. */
  lemma GivesUpExactlyWhen(content: Bytes, trace: seq<State>, labels: seq<Label>, k: nat)
    requires Run(content, trace, labels) && k < |labels| && labels[k] == Send
    ensures trace[k + 1].server.phase.Ended? <==> Timeouts(labels, k) == 3
  {
    assert Step(content, trace[k], labels[k], trace[k + 1]);
    RetriesAreTimeouts(content, trace, labels, k);
    AtMostThree(content, trace, labels, k);
  }

  lemma {:induction false} AtMostThree(content: Bytes, trace: seq<State>, labels: seq<Label>, i: nat)
    requires Run(content, trace, labels) && i < |trace|
    ensures trace[i].server.retryCount <= 3
  {
    if i > 0 {
      AtMostThree(content, trace, labels, i - 1);
      RunLive(content, trace, labels, i - 1);
      assert Step(content, trace[i - 1], labels[i - 1], trace[i]);
    }
  }
}
