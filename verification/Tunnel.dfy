/** A client-mode node and a server-mode node joined by two framed links: every interleaving of the opening
    frames, the two relays and their failures, and what may reach the target and the application. */
module Tunnel {
  import opened Bytes
  import opened Compress
  import opened Framing
  import opened Links

  // ----- one node running `Relay.forward` -----

  /** A copying goroutine: its loop, then the read deadline it sets on the other connection. */
  datatype Pump = Reading | Writing | Ended | Done {
    predicate Active() { Reading? || Writing? }
  }

  /** `plain` is the unencrypted side: the application for the client, the target for the server.
      `plainIn` are the bytes it ever delivered to this node; of those not yet returned by `Read`, `held` are in
      the read buffer that the handshake left behind and `plainBuf` still in the socket; `dropped` were returned
      together with the read error. */
  datatype Node = Node(enc: Pump, dec: Pump,
                       plainIn: Bytes, held: Bytes, plainBuf: Bytes, dropped: Bytes,
                       plainOut: Bytes, plainPending: Bytes, plainBroken: bool)

  const IDLE := Node(Reading, Reading, [], [], [], [], [], [], false)

  /** The read buffer of `EncodeCopy`. */
  const CHUNK: nat := 65536

  /** What a plain `Read` can return: buffered bytes at any time, else what the socket has before the deadline.
      The copy loop reads into more than a buffer's length, so the buffer is never filled again. */
  function Readable(n: Node): Bytes {
    if n.held != [] then n.held else if n.dec == Done then [] else n.plainBuf
  }

  function AfterRead(n: Node, k: nat): Node
    requires k <= |Readable(n)|
  {
    if n.held != [] then n.(held := n.held[k..]) else if n.dec == Done then n else n.(plainBuf := n.plainBuf[k..])
  }

  datatype RelayStep =
    | Arrive(b: Bytes)                // plain bytes arrive; no more once the read deadline is set
    | ReadChunk(k: nat, coin: nat)    // EncodeCopy: a read without error, then Encode
    | ReadError(k: nat)               // EncodeCopy: a read error; bytes that came with it are dropped
    | WireWrote                       // EncodeWrite returned
    | WireBroke                       // EncodeWrite failed
    | EncDone                         // deadline on the framed connection
    | Decode                          // ReadFull returned a packet; its payload goes to Write
    | DecodeError                     // ReadFull failed
    | PlainWrote                      // Write returned
    | PlainBroke                      // Write failed
    | DecDone                         // deadline on the plain connection

  datatype Relay = Relay(node: Node, out: Link, inn: Link)

  predicate RelayCan(c: Compressor, key: Bytes, r: Relay, step: RelayStep)
    requires key != []
  {
    var n := r.node;
    match step
    case Arrive(b) => n.dec != Done
    case ReadChunk(k, coin) =>
      && n.enc == Reading
      && 0 < k <= CHUNK && k <= |Readable(n)| && CanBegin(c, r.out, Message(Readable(n)[..k], coin))
    case ReadError(k) => n.enc == Reading && n.held == [] && k <= CHUNK && k <= |Readable(n)|
    case WireWrote => n.enc == Writing && !r.out.broken && r.out.pending == []
    case WireBroke => n.enc == Writing
    case EncDone => n.enc == Ended
    case Decode => n.dec == Reading && CanParse(c, key, r.inn)
    case DecodeError => n.dec == Reading
    case PlainWrote => n.dec == Writing && !n.plainBroken && n.plainPending == []
    case PlainBroke => n.dec == Writing
    case DecDone => n.dec == Ended
  }

  function RelayNext(c: Compressor, key: Bytes, r: Relay, step: RelayStep): Relay
    requires key != [] && RelayCan(c, key, r, step)
  {
    var n := r.node;
    match step
    case Arrive(b) => r.(node := n.(plainIn := n.plainIn + b, plainBuf := n.plainBuf + b))
    case ReadChunk(k, coin) =>
      r.(node := AfterRead(n, k).(enc := Writing),
         out := Begin(c, key, r.out, Message(Readable(n)[..k], coin)))
    case ReadError(k) => r.(node := AfterRead(n, k).(enc := Ended, dropped := Readable(n)[..k]))
    case WireWrote => r.(node := n.(enc := Reading))
    case WireBroke => r.(node := n.(enc := Ended), out := Break(r.out))
    case EncDone => r.(node := n.(enc := Done))
    case Decode =>
      var (payload, inn') := Parse(c, key, r.inn);
      // A connection whose write failed delivers nothing more: the next write fails at once.
      if n.plainBroken then r.(node := n.(dec := Ended), inn := inn')
      else r.(node := n.(dec := Writing, plainPending := payload), inn := inn')
    case DecodeError => r.(node := n.(dec := Ended))
    case PlainWrote => r.(node := n.(dec := Reading))
    case PlainBroke => r.(node := BreakPlain(n).(dec := Ended))
    case DecDone => r.(node := n.(dec := Done))
  }

  function BreakPlain(n: Node): Node {
    n.(plainPending := [], plainBroken := true)
  }

  // ----- the two nodes -----

  /** `dest`: the printed destination; `line`: the rewritten HTTP request line, if any;
      `reply`: what PreFn writes to the application, if anything; `upCap` and `downCap`: how much the server's and
      the client's framed connections buffer (a `BufferedConn` on the server, nothing for plain TCP). */
  datatype Session = Session(c: Compressor, key: Bytes, dest: Bytes, line: Bytes, reply: Bytes,
                             upCap: nat, downCap: nat) {
    ghost predicate Valid() {
      Lawful(c) && key != []
    }
  }

  datatype ClientPhase = OpenDest | SentDest | SentLine | Pre | PreWriting | ClientRelay | ClientClosed

  datatype ServerPhase = ReadDest | Dialing | ServerRelay | ServerClosed

  datatype State = State(client: Node, server: Node, up: Link, down: Link,
                         cphase: ClientPhase, sphase: ServerPhase, serverDest: Option<Bytes>)

  datatype Step =
    | Prefetched(k: nat)              // the handshake read more than its request into the buffer
    | WriteDest(coin: nat)            // handleTCPConn in client mode: the destination frame
    | WriteLine(coin: nat)            //   then the HTTP line, if there is one
    | Opened                          //   EncodeWrite returned
    | PreFn                           //   the reply to the application, whose error is only logged
    | PreFnBroke
    | PreFnReturned
    | ClientAbort                     // any early return
    | FirstFrame                      // Listener.handle: the first frame is the destination
    | Dialed
    | ServerAbort
    | Client(rs: RelayStep)
    | Server(rs: RelayStep)
    | FlushUp(k: nat) | FlushDown(k: nat)           // bytes of a Write reach the wire
    | FillUp(k: nat) | FillDown(k: nat)             // the other end buffers bytes off the wire
    | FeedUp(k: nat) | FeedDown(k: nat)             // ReadFull reads buffered bytes
    | TakeUp(k: nat) | TakeDown(k: nat)             // ReadFull reads bytes off the wire
    | FlushApp(k: nat) | FlushTarget(k: nat)        // bytes of a plain Write reach their connection

  const START := State(IDLE, IDLE, FRESH, FRESH, OpenDest, ReadDest, None)

  /** `ReadFull` is reading the framed connection; the socket is read only until the deadline is set. */
  predicate ServerReads(s: State) {
    (s.sphase == ReadDest || s.sphase == ServerRelay) && s.server.dec == Reading
  }

  predicate ClientReads(s: State) {
    s.cphase == ClientRelay && s.client.dec == Reading
  }

  predicate Can(p: Session, s: State, step: Step)
    requires p.key != []
  {
    match step
    case Prefetched(k) => s.cphase == OpenDest && k <= |s.client.plainBuf|
    case WriteDest(coin) => s.cphase == OpenDest && CanBegin(p.c, s.up, Message(p.dest, coin))
    case WriteLine(coin) =>
      s.cphase == SentDest && p.line != [] && CanBegin(p.c, s.up, Message(p.line, coin))
    case Opened =>
      && !s.up.broken && s.up.pending == []
      && (s.cphase == SentLine || (s.cphase == SentDest && p.line == []))
    case PreFn => s.cphase == Pre
    case PreFnBroke => s.cphase == PreWriting
    case PreFnReturned => s.cphase == PreWriting && s.client.plainPending == []
    case ClientAbort => s.cphase.OpenDest? || s.cphase.SentDest? || s.cphase.SentLine?
    case FirstFrame => s.sphase == ReadDest && CanParse(p.c, p.key, s.up)
    case Dialed => s.sphase == Dialing
    case ServerAbort => s.sphase == ReadDest || s.sphase == Dialing
    case Client(rs) =>
      (s.cphase == ClientRelay || rs.Arrive?) && RelayCan(p.c, p.key, Relay(s.client, s.up, s.down), rs)
    case Server(rs) => s.sphase == ServerRelay && RelayCan(p.c, p.key, Relay(s.server, s.down, s.up), rs)
    case FlushUp(k) => k <= |s.up.pending|
    case FlushDown(k) => k <= |s.down.pending|
    case FillUp(k) => ServerReads(s) && s.server.enc != Done && CanFill(s.up, p.upCap, k)
    case FillDown(k) => ClientReads(s) && s.client.enc != Done && CanFill(s.down, p.downCap, k)
    case FeedUp(k) => ServerReads(s) && CanFeed(s.up, k)
    case FeedDown(k) => ClientReads(s) && CanFeed(s.down, k)
    case TakeUp(k) => ServerReads(s) && s.server.enc != Done && CanTake(s.up, k)
    case TakeDown(k) => ClientReads(s) && s.client.enc != Done && CanTake(s.down, k)
    case FlushApp(k) => k <= |s.client.plainPending|
    case FlushTarget(k) => k <= |s.server.plainPending|
  }

  function FlushPlain(n: Node, k: nat): Node
    requires k <= |n.plainPending|
  {
    n.(plainOut := n.plainOut + n.plainPending[..k], plainPending := n.plainPending[k..])
  }

  function Prefetch(n: Node, k: nat): Node
    requires k <= |n.plainBuf|
  {
    n.(held := n.held + n.plainBuf[..k], plainBuf := n.plainBuf[k..])
  }

  function Next(p: Session, s: State, step: Step): State
    requires p.key != [] && Can(p, s, step)
  {
    match step
    case Prefetched(k) => s.(client := Prefetch(s.client, k))
    case WriteDest(coin) => s.(cphase := SentDest, up := Begin(p.c, p.key, s.up, Message(p.dest, coin)))
    case WriteLine(coin) => s.(cphase := SentLine, up := Begin(p.c, p.key, s.up, Message(p.line, coin)))
    case Opened => s.(cphase := Pre)
    case PreFn => s.(cphase := PreWriting, client := s.client.(plainPending := p.reply))
    case PreFnBroke => s.(client := BreakPlain(s.client))
    case PreFnReturned => s.(cphase := ClientRelay)
    case ClientAbort => s.(cphase := ClientClosed, up := Break(s.up), client := s.client.(enc := Done, dec := Done))
    case FirstFrame =>
      var (payload, up') := Parse(p.c, p.key, s.up);
      s.(sphase := Dialing, serverDest := Some(payload), up := up')
    case Dialed => s.(sphase := ServerRelay)
    case ServerAbort => s.(sphase := ServerClosed, server := s.server.(enc := Done, dec := Done))
    case Client(rs) =>
      var r := RelayNext(p.c, p.key, Relay(s.client, s.up, s.down), rs);
      s.(client := r.node, up := r.out, down := r.inn)
    case Server(rs) =>
      var r := RelayNext(p.c, p.key, Relay(s.server, s.down, s.up), rs);
      s.(server := r.node, down := r.out, up := r.inn)
    case FlushUp(k) => s.(up := Flush(s.up, k))
    case FlushDown(k) => s.(down := Flush(s.down, k))
    case FillUp(k) => s.(up := Fill(s.up, k))
    case FillDown(k) => s.(down := Fill(s.down, k))
    case FeedUp(k) => s.(up := Feed(s.up, k))
    case FeedDown(k) => s.(down := Feed(s.down, k))
    case TakeUp(k) => s.(up := Take(s.up, k))
    case TakeDown(k) => s.(down := Take(s.down, k))
    case FlushApp(k) => s.(client := FlushPlain(s.client, k))
    case FlushTarget(k) => s.(server := FlushPlain(s.server, k))
  }
}
