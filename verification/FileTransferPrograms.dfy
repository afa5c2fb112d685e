/** The two programs: the server's nested send loops and the client's receive loop, step by step. */
module FileTransferPrograms {
  import opened FileTransferModel

  class FileServer {
    const content: Bytes
    var phase: Phase
    var seqNum: nat
    var totalSent: nat
    var offset: nat
    var chunk: Bytes
    var retryCount: nat

    ghost function View(): Server
      reads this
    {
      Server(phase, seqNum, totalSent, offset, chunk, retryCount)
    }

    constructor (content: Bytes)
      ensures this.content == content && ServerInit(View())
    {
      this.content := content;
      phase, seqNum, totalSent, offset, chunk, retryCount := AtRead, 0, 0, 0, [], 0;
    }

    /** The outer loop's test and read(), which returned n; a packet comes out only at the end of file. */
    method ReadChunk(n: int) returns (sent: set<Packet>)
      requires phase.AtRead? && CanRead(content, View(), n)
      modifies this
      ensures View() == AfterRead(content, old(View()), n) && sent == Sent(old(View()), View())
      ensures sent == if phase.Ended? then {Packet(-1, [0x45, 0x4F, 0x46])} else {}
    {
      sent := {};
      if totalSent < |content| && n > 0 {
        chunk := content[offset..offset + n];
        offset := offset + n;
        retryCount := 0;
        phase := AtSend;
      } else {
        sent := SendEof();
      }
    }

    /** The marker after the outer loop. */
    method SendEof() returns (sent: set<Packet>)
      modifies this
      ensures View() == old(View()).(phase := Ended) && sent == {Packet(EOF_SEQ, EOF_DATA)}
    {
      phase := Ended;
      sent := {Packet(-1, EOF_DATA)};
    }

    /** The retry loop's test and sendto(). */
    method SendPacket() returns (sent: set<Packet>)
      requires phase.AtSend?
      modifies this
      ensures View() == AfterSend(old(View())) && sent == Sent(old(View()), View())
      ensures sent == {if phase.Ended? then Packet(-1, [0x45, 0x4F, 0x46]) else Packet(seqNum, chunk)}
    {
      if retryCount < MAX_RETRIES {
        phase := AtSelect;
        sent := {Packet(seqNum, chunk)};
      } else {
        sent := SendEof();
      }
    }

    /** What follows select(), up to the end of the retry loop's body. */
    method AwaitAck(event: Select) returns (sent: set<Packet>)
      requires phase.AtSelect?
      modifies this
      ensures View() == AfterSelect(old(View()), event) && sent == Sent(old(View()), View())
      ensures sent == if event.SelectFails? then {Packet(-1, [0x45, 0x4F, 0x46])} else {}
    {
      sent := {};
      match event {
        case GotAck(ack) =>
          if ack.seqNum == seqNum && ack.ok {
            totalSent := totalSent + |chunk|;
            seqNum := seqNum + 1;
            phase := AtRead;
          } else {
            phase := AtSend;
          }
        case Timeout =>
          retryCount := retryCount + 1;
          phase := AtSend;
        case SelectFails =>
          sent := SendEof();
        case RecvFails =>
          phase := AtSend;
      }
    }
  }

  class FileClient {
    var expectedSeq: nat
    var totalReceived: nat
    var file: Bytes
    var stopped: bool

    ghost function View(): Client
      reads this
    {
      Client(expectedSeq, totalReceived, file, stopped)
    }

    constructor ()
      ensures ClientInit(View())
    {
      expectedSeq, totalReceived, file, stopped := 0, 0, [], false;
    }

    /** One pass of the receive loop on packet p, when write() returns k; the marker gets no answer. */
    method ReceivePacket(p: Packet, k: int) returns (answer: set<Ack>)
      requires !stopped && CanWrite(p, k)
      modifies this
      ensures View() == AfterPacket(old(View()), p, k)
      ensures answer == if p.seqNum == EOF_SEQ then {} else {Reply(old(View()), p, k)}
    {
      if p.seqNum == -1 {
        stopped := true;
        return {};
      }
      var ok := false;
      if p.seqNum == expectedSeq {
        var dataSize := |p.data|;
        file := file + p.data[..if k < 0 then 0 else k];
        if k == dataSize {
          ok := true;
          totalReceived := totalReceived + dataSize;
          expectedSeq := expectedSeq + 1;
        }
      }
      answer := {Ack(p.seqNum, ok)};
    }
  }
}
