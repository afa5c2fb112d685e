/**
 From which states a session can still complete, and which steps spoil it. Completing means that
 the server has counted the whole file, and then the client has it.
 */
module FileTransferFinish {
  import opened FileTransferModel
  import opened FileTransferProofs

  predicate Complete(content: Bytes, s: State) { s.server.totalSent >= |content| }

  /**
   The server is still in its loop with a try left, the ACK of an accepted chunk can still arrive,
   and a client that has stopped lacks only that ACK.
   */
  predicate CanFinish(content: Bytes, s: State) {
    || Complete(content, s)
    || (&& !s.server.phase.Ended? && !AckLost(s)
        && (s.server.phase.AtSend? ==> s.server.retryCount < MAX_RETRIES)
        && (s.client.stopped ==>
              s.client.expectedSeq == s.server.seqNum + 1 && s.client.totalReceived == |content|))
  }

  /** The server waits for an answer only while it has a try left. */
  ghost predicate Live(content: Bytes, s: State) {
    Inv(content, s) && (s.server.phase.AtSelect? ==> s.server.retryCount < MAX_RETRIES)
  }

  lemma {:induction false} RunLive(content: Bytes, trace: seq<State>, labels: seq<Label>, i: nat)
    requires Run(content, trace, labels) && i < |trace|
    ensures Live(content, trace[i])
  {
    RunInv(content, trace, labels, i);
    if i > 0 {
      RunLive(content, trace, labels, i - 1);
      assert Step(content, trace[i - 1], labels[i - 1], trace[i]);
    }
  }

  /** How much each program has left: the bytes counted and accepted, and what is still to come. */
  lemma Counted(content: Bytes, s: State)
    requires Inv(content, s)
    ensures s.client.expectedSeq == s.server.seqNum ==> s.client.totalReceived == s.server.totalSent
    ensures s.client.expectedSeq == s.server.seqNum + 1 ==>
      s.server.seqNum < |s.chunks|
      && s.client.totalReceived == s.server.totalSent + |s.chunks[s.server.seqNum]| <= |content|
    ensures s.server.phase.AtRead? ==> s.server.offset == s.server.totalSent
  {
    ConcatPrefix(s.chunks, s.client.expectedSeq);
    if s.client.expectedSeq == s.server.seqNum + 1 { ConcatNext(s.chunks, s.server.seqNum); }
    if s.server.phase.AtRead? { assert s.chunks[..|s.chunks|] == s.chunks; }
  }

  // ---- which steps spoil it

  /**
   Losing the ACK the server waits for, the last timeout, a failing select, a read that returns
   nothing, or a failing recvfrom in the client.
   */
  predicate Fatal(s: State, l: Label) {
    match l
    case LoseAck(a) => a == Ack(s.server.seqNum, true)
    case Select(e) => e.SelectFails? || (e.Timeout? && s.server.retryCount + 1 >= MAX_RETRIES)
    case Read(n) => n <= 0
    case ReceiveFails => true
    case _ => false
  }

  /** While the file is not counted, a session that can complete stops being able to exactly at a fatal step. */
  lemma SpoiledExactlyWhen(content: Bytes, s: State, l: Label, s': State)
    requires Live(content, s) && CanFinish(content, s) && !Complete(content, s) && Step(content, s, l, s')
    ensures CanFinish(content, s') <==> !Fatal(s, l)
  {
    StepInv(content, s, l, s');
    Counted(content, s);
    Counted(content, s');
  }

  /** What has been spoiled stays spoiled. */
  lemma SpoiledForever(content: Bytes, s: State, l: Label, s': State)
    requires Live(content, s) && !CanFinish(content, s) && Step(content, s, l, s')
    ensures !CanFinish(content, s')
  {
    Counted(content, s);
    if AckLost(s) { StepAckLost(content, s, l, s'); }
  }

  lemma CompleteForever(content: Bytes, s: State, l: Label, s': State)
    requires Complete(content, s) && Step(content, s, l, s')
    ensures Complete(content, s')
  {
  }

  lemma CanFinishStep(content: Bytes, s: State, l: Label, s': State)
    requires Live(content, s) && Step(content, s, l, s')
    ensures CanFinish(content, s') <==> CanFinish(content, s) && (!Complete(content, s) ==> !Fatal(s, l))
  {
    if Complete(content, s) {
      CompleteForever(content, s, l, s');
    } else if CanFinish(content, s) {
      SpoiledExactlyWhen(content, s, l, s');
    } else {
      SpoiledForever(content, s, l, s');
    }
  }

  /** A fatal event with the file not yet counted. */
  ghost predicate SpoiledAt(content: Bytes, trace: seq<State>, labels: seq<Label>, k: nat) {
    k < |labels| && k < |trace| && !Complete(content, trace[k]) && Fatal(trace[k], labels[k])
  }

  /** In any run a session can still complete exactly if no fatal event came before it was complete. */
  lemma {:induction false} CanFinishExactlyWhen(content: Bytes, trace: seq<State>, labels: seq<Label>, i: nat)
    requires Run(content, trace, labels) && i < |trace|
    ensures CanFinish(content, trace[i]) <==> forall k :: 0 <= k < i ==> !SpoiledAt(content, trace, labels, k)
  {
    if i > 0 {
      CanFinishExactlyWhen(content, trace, labels, i - 1);
      RunLive(content, trace, labels, i - 1);
      CanFinishStep(content, trace[i - 1], labels[i - 1], trace[i]);
      assert CanFinish(content, trace[i]) <==>
        CanFinish(content, trace[i - 1]) && !SpoiledAt(content, trace, labels, i - 1);
    }
  }

  // ---- a session that can complete has a way to

  /** A stretch of a session from s to end. */
  ghost predicate Leads(content: Bytes, s: State, labels: seq<Label>, end: State)
    decreases |labels|
  {
    if labels == [] then end == s
    else Enabled(content, s, labels[0]) && Leads(content, Next(content, s, labels[0]), labels[1..], end)
  }

  /** How far the server is from counting its present chunk. */
  function Rank(s: State): nat {
    match s.server.phase
    case AtRead => 0
    case AtSend => 3
    case AtSelect =>
      if s.client.expectedSeq == s.server.seqNum + 1 then 1
      else if Packet(s.server.seqNum, s.server.chunk) in s.packets then 2
      else 4
    case Ended => 0
  }

  /** The next step of a session on its way to completing; a packet that was lost costs one useless wakeup. */
  function Way(s: State): Label {
    match s.server.phase
    case AtSend => Send
    case AtSelect =>
      if s.client.expectedSeq == s.server.seqNum + 1 then Label.Select(GotAck(Ack(s.server.seqNum, true)))
      else if Packet(s.server.seqNum, s.server.chunk) in s.packets
      then Receive(Packet(s.server.seqNum, s.server.chunk), |s.server.chunk|)
      else Label.Select(RecvFails)
    case _ => Read(1)
  }

  lemma WayGoesOn(content: Bytes, s: State)
    requires Live(content, s) && CanFinish(content, s) && !Complete(content, s)
    ensures Enabled(content, s, Way(s)) && !Fatal(s, Way(s))
    ensures var s' := Next(content, s, Way(s));
      || s'.server.totalSent > s.server.totalSent
      || (s'.server.totalSent == s.server.totalSent
          && (s.server.phase.AtRead? || (!s'.server.phase.AtRead? && Rank(s') < Rank(s))))
  {
    Counted(content, s);
    if s.server.phase.AtSelect? && s.client.expectedSeq == s.server.seqNum {
      assert !Finished(|content|, s.client);
    }
  }

  /** From every state that can complete the session does complete, on a way that the client can follow to the end. */
  lemma {:induction false} FindCompletion(content: Bytes, s: State) returns (labels: seq<Label>, end: State)
    requires Live(content, s) && CanFinish(content, s)
    ensures Leads(content, s, labels, end) && Complete(content, end)
    decreases |content| - s.server.totalSent, if s.server.phase.AtRead? then 5 else Rank(s)
  {
    if Complete(content, s) {
      labels, end := [], s;
    } else {
      WayGoesOn(content, s);
      var l := Way(s);
      var s' := Next(content, s, l);
      StepInv(content, s, l, s');
      SpoiledExactlyWhen(content, s, l, s');
      var rest;
      rest, end := FindCompletion(content, s');
      labels := [l] + rest;
    }
  }

  lemma {:induction false} SpoiledLeadsNowhere(content: Bytes, s: State, labels: seq<Label>, end: State)
    requires Live(content, s) && !CanFinish(content, s) && Leads(content, s, labels, end)
    ensures !Complete(content, end)
    decreases |labels|
  {
    if labels != [] {
      var s' := Next(content, s, labels[0]);
      StepInv(content, s, labels[0], s');
      SpoiledForever(content, s, labels[0], s');
      SpoiledLeadsNowhere(content, s', labels[1..], end);
    }
  }

  ghost predicate SomeCompletion(content: Bytes, s: State) {
    exists labels, end :: Leads(content, s, labels, end) && Complete(content, end)
  }

  /**
   At every moment of every session: the server can still come to count the whole file if and only
   if it is in its loop with a try left, the ACK it waits for is not lost, and the client has not
   stopped short; that is, if and only if none of the five fatal events has happened in time.
   */
  lemma CompletesExactlyWhen(content: Bytes, trace: seq<State>, labels: seq<Label>, i: nat)
    requires Run(content, trace, labels) && i < |trace|
    ensures SomeCompletion(content, trace[i]) <==> CanFinish(content, trace[i])
    ensures SomeCompletion(content, trace[i])
      <==> forall k :: 0 <= k < i ==> !SpoiledAt(content, trace, labels, k)
  {
    RunLive(content, trace, labels, i);
    CanFinishExactlyWhen(content, trace, labels, i);
    if CanFinish(content, trace[i]) {
      var way, end := FindCompletion(content, trace[i]);
    } else {
      forall way, end | Leads(content, trace[i], way, end) ensures !Complete(content, end) {
        SpoiledLeadsNowhere(content, trace[i], way, end);
      }
    }
  }

  /** In particular nothing can make a lost ACK good. */
  lemma LostAckSpoils(content: Bytes, trace: seq<State>, labels: seq<Label>, i: nat)
    requires Run(content, trace, labels) && i < |trace| && AckLost(trace[i])
    ensures !SomeCompletion(content, trace[i])
  {
    RunLive(content, trace, labels, i);
    Counted(content, trace[i]);
    CompletesExactlyWhen(content, trace, labels, i);
  }
}
