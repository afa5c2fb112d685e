/**
 The stop-and-wait file transfer over a datagram channel that may lose, duplicate and reorder.
 The channel is the set of datagrams that can still be delivered: delivering one does not remove
 it (duplication), any member may come next (reordering), and members may vanish (loss).
 */
module FileTransferModel {

  type Bytes = seq<bv8>

  const DATA_SIZE: nat := 508
  const MAX_RETRIES: nat := 3
  const EOF_SEQ: int := -1
  const EOF_DATA: Bytes := [0x45, 0x4F, 0x46]

  datatype Packet = Packet(seqNum: int, data: Bytes)

  /** ok is type == "ACK"; the other type is "NAK". */
  datatype Ack = Ack(seqNum: int, ok: bool)

  // ---- the server's loops

  /** At the outer loop test, at the retry loop test, inside select, or after the end-of-file marker. */
  datatype Phase = AtRead | AtSend | AtSelect | Ended

  datatype Server = Server(phase: Phase, seqNum: nat, totalSent: nat, offset: nat, chunk: Bytes, retryCount: nat)

  datatype Select = GotAck(ack: Ack) | Timeout | SelectFails | RecvFails

  /** read() returned n: a short count is allowed, zero or less is end of file or an error. */
  predicate CanRead(content: Bytes, sv: Server, n: int) {
    sv.offset <= |content| && n <= DATA_SIZE && n <= |content| - sv.offset
  }

  function AfterRead(content: Bytes, sv: Server, n: int): Server
    requires CanRead(content, sv, n)
  {
    if sv.totalSent < |content| && n > 0 then
      sv.(phase := AtSend, chunk := content[sv.offset..sv.offset + n], offset := sv.offset + n, retryCount := 0)
    else
      sv.(phase := Ended)
  }

  /** The retry loop gives up once retryCount reaches MAX_RETRIES. */
  function AfterSend(sv: Server): Server {
    sv.(phase := if sv.retryCount < MAX_RETRIES then AtSelect else Ended)
  }

  function AfterSelect(sv: Server, e: Select): Server {
    match e
    case GotAck(a) =>
      if a.seqNum == sv.seqNum && a.ok
      then sv.(phase := AtRead, totalSent := sv.totalSent + |sv.chunk|, seqNum := sv.seqNum + 1)
      else sv.(phase := AtSend)
    case Timeout => sv.(phase := AtSend, retryCount := sv.retryCount + 1)
    case SelectFails => sv.(phase := Ended)
    case RecvFails => sv.(phase := AtSend)
  }

  /** What the server puts on the channel when it goes from sv to sv'. */
  function Sent(sv: Server, sv': Server): set<Packet> {
    if sv'.phase.Ended? then {Packet(EOF_SEQ, EOF_DATA)}
    else if sv'.phase.AtSelect? then {Packet(sv.seqNum, sv.chunk)}
    else {}
  }

  // ---- the client's loop

  datatype Client = Client(expectedSeq: nat, totalReceived: nat, file: Bytes, stopped: bool)

  predicate Finished(size: nat, cl: Client) { cl.stopped || cl.totalReceived >= size }

  /** write() returned k, of |p.data| bytes; what it did write stays in the file. */
  predicate CanWrite(p: Packet, k: int) { -1 <= k <= |p.data| }

  function AfterPacket(cl: Client, p: Packet, k: int): Client
    requires CanWrite(p, k)
  {
    if p.seqNum == EOF_SEQ then cl.(stopped := true)
    else if p.seqNum != cl.expectedSeq then cl
    else if k != |p.data| then cl.(file := cl.file + p.data[..if k < 0 then 0 else k])
    else cl.(file := cl.file + p.data, totalReceived := cl.totalReceived + |p.data|, expectedSeq := cl.expectedSeq + 1)
  }

  function Reply(cl: Client, p: Packet, k: int): Ack {
    Ack(p.seqNum, p.seqNum == cl.expectedSeq && k == |p.data|)
  }

  // ---- the session

  datatype State = State(
    server: Server, client: Client,
    packets: set<Packet>, acks: set<Ack>,
    chunks: seq<Bytes>,      // every chunk the server has read
    acked: seq<int>,         // every sequence number the client has sent an ACK for
    torn: nat)               // bytes left in the file by writes that came up short

  datatype Label =
    | Read(n: int) | Send | Select(event: Select)
    | Receive(p: Packet, written: int) | ReceiveFails
    | LosePacket(p: Packet) | LoseAck(a: Ack)

  predicate ServerInit(sv: Server) {
    sv.phase.AtRead? && sv.seqNum == sv.totalSent == sv.offset == sv.retryCount == 0
  }

  predicate ClientInit(cl: Client) {
    cl.expectedSeq == cl.totalReceived == 0 && cl.file == [] && !cl.stopped
  }

  /** The session once the size has been exchanged. */
  predicate Init(s: State) {
    && ServerInit(s.server) && ClientInit(s.client)
    && s.packets == {} && s.acks == {} && s.chunks == [] && s.acked == [] && s.torn == 0
  }

  predicate Enabled(content: Bytes, s: State, l: Label) {
    match l
    case Read(n) => s.server.phase.AtRead? && CanRead(content, s.server, n)
    case Send => s.server.phase.AtSend?
    case Select(e) => s.server.phase.AtSelect? && (e.GotAck? ==> e.ack in s.acks)
    case Receive(p, k) => !Finished(|content|, s.client) && p in s.packets && CanWrite(p, k)
    case ReceiveFails => !Finished(|content|, s.client)
    case LosePacket(p) => p in s.packets
    case LoseAck(a) => a in s.acks
  }

  function ServerMoves(s: State, sv': Server): State {
    s.(server := sv', packets := s.packets + Sent(s.server, sv'))
  }

  function ClientMoves(s: State, p: Packet, k: int): State
    requires CanWrite(p, k)
  {
    var cl := s.client;
    var s' := s.(client := AfterPacket(cl, p, k));
    if p.seqNum == EOF_SEQ then s'
    else if Reply(cl, p, k).ok then s'.(acks := s.acks + {Reply(cl, p, k)}, acked := s.acked + [p.seqNum])
    else s'.(acks := s.acks + {Reply(cl, p, k)}, torn := s.torn + |s'.client.file| - |cl.file|)
  }

  function Next(content: Bytes, s: State, l: Label): State
    requires Enabled(content, s, l)
  {
    match l
    case Read(n) =>
      var sv' := AfterRead(content, s.server, n);
      ServerMoves(s, sv').(chunks := if sv'.phase.AtSend? then s.chunks + [sv'.chunk] else s.chunks)
    case Send => ServerMoves(s, AfterSend(s.server))
    case Select(e) => ServerMoves(s, AfterSelect(s.server, e))
    case Receive(p, k) => ClientMoves(s, p, k)
    case ReceiveFails => s.(client := s.client.(stopped := true))
    case LosePacket(p) => s.(packets := s.packets - {p})
    case LoseAck(a) => s.(acks := s.acks - {a})
  }

  predicate Step(content: Bytes, s: State, l: Label, s': State) {
    Enabled(content, s, l) && s' == Next(content, s, l)
  }

  ghost predicate Run(content: Bytes, trace: seq<State>, labels: seq<Label>) {
    && |trace| == |labels| + 1
    && Init(trace[0])
    && forall i :: 0 <= i < |labels| ==> Step(content, trace[i], labels[i], trace[i + 1])
  }

  function Concat(cs: seq<Bytes>): Bytes {
    if cs == [] then [] else Concat(cs[..|cs| - 1]) + cs[|cs| - 1]
  }
}
