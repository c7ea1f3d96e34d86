/** Ordered delivery through the tunnel, over every run of the step system. */
module TunnelSafety {
  import opened Bytes
  import opened Compress
  import opened Framing
  import opened HostPort
  import opened Links
  import Protocol
  import opened Tunnel

  lemma PayloadsPrefix(ms: seq<Message>, k: nat)
    requires k <= |ms|
    ensures Payloads(ms[..k]) <= Payloads(ms)
  {
    PayloadsConcat(ms[..k], ms[k..]);
    assert ms[..k] + ms[k..] == ms;
  }

  // ----- the invariant, piece by piece -----

  /** The frames handed to the link after its `d` opening frames. */
  function Data(sent: seq<Message>, d: nat): seq<Message> {
    if |sent| < d then [] else sent[d..]
  }

  /** The fields of a node that its two halves use; neither half sees the other's. */
  datatype Sender = Sender(enc: Pump, plainIn: Bytes, unread: Bytes, dropped: Bytes)

  datatype Receiver = Receiver(plainOut: Bytes, plainPending: Bytes, plainBroken: bool)

  function Unread(n: Node): Bytes {
    n.held + n.plainBuf
  }

  function SenderOf(n: Node): Sender {
    Sender(n.enc, n.plainIn, Unread(n), n.dropped)
  }

  function ReceiverOf(n: Node): Receiver {
    Receiver(n.plainOut, n.plainPending, n.plainBroken)
  }

  /** Sending half: what the frames carry, what came with the read error and what is still unread are, in this
      order, all that was to be sent. */
  ghost predicate SendInv(intro: Bytes, data: seq<Message>, n: Sender) {
    && Payloads(data) + n.dropped + n.unread == intro + n.plainIn
    && (n.enc.Active() ==> n.dropped == [])
    && |n.dropped| <= CHUNK
  }

  /** Receiving half: what was written, plus the write in progress, is what the parsed frames carried. */
  ghost predicate RecvInv(intro: Bytes, data: seq<Message>, n: Receiver) {
    && (!n.plainBroken ==> n.plainOut + n.plainPending == intro + Payloads(data))
    && n.plainOut <= intro + Payloads(data)
    && (n.plainBroken ==> n.plainPending == [])
  }

  /** What the client has put in front of the application's bytes: the line, once its frame is written. */
  function LineOut(p: Session, s: State): Bytes {
    if s.cphase.OpenDest? || s.cphase.SentDest? || (s.cphase.ClientClosed? && |s.up.sent| <= 1) then [] else p.line
  }

  function ReplyOut(p: Session, s: State): Bytes {
    if s.cphase.PreWriting? || s.cphase.ClientRelay? then p.reply else []
  }

  ghost predicate OpeningInv(p: Session, s: State) {
    && (s.up.sent != [] ==> s.up.sent[0].payload == p.dest)
    && (s.cphase == OpenDest ==> s.up.sent == [])
    && (s.cphase == SentDest ==> |s.up.sent| == 1)
    && (s.cphase == SentLine ==> |s.up.sent| == 2)
    && (s.up.sent == [] ==> s.cphase == OpenDest || s.cphase == ClientClosed)
    && (s.cphase == ClientClosed ==> s.client.enc == Done)
    && (s.cphase != ClientRelay && s.cphase != ClientClosed ==> s.client.enc == Reading && s.client.dec == Reading)
    && ((s.cphase == ClientRelay || s.cphase == PreWriting || s.cphase == Pre) && s.client.enc == Reading ==>
          !s.up.broken && s.up.pending == [])
    && (s.cphase == ClientRelay && s.client.dec == Reading ==> s.client.plainPending == [])
    && (!s.cphase.PreWriting? && !s.cphase.ClientRelay? ==>
          s.down.got == 0 && s.client.plainPending == [] && s.client.plainOut == [] && !s.client.plainBroken)
  }

  ghost predicate ServerInv(p: Session, s: State) {
    && (s.sphase == ReadDest ==> s.up.got == 0)
    && (s.up.got == 0 ==> s.sphase == ReadDest || s.sphase == ServerClosed)
    && (s.up.got == 0 <==> s.serverDest.None?)
    && (s.serverDest.Some? ==> s.serverDest.value == p.dest)
    && (s.sphase != ServerRelay ==> s.down.sent == [] && s.server.plainPending == [])
    && (s.sphase != ServerRelay && s.sphase != ServerClosed ==>
          s.server.enc == Reading && !s.down.broken && s.down.pending == [])
    && (s.sphase == ServerRelay && s.server.enc == Reading ==> !s.down.broken && s.down.pending == [])
    && (s.server.dec == Reading ==> s.server.plainPending == [])
    && s.server.held == []
  }

  ghost predicate Inv(p: Session, s: State)
    requires p.Valid()
  {
    && LinkInv(p.c, p.key, s.up)
    && LinkInv(p.c, p.key, s.down)
    && OpeningInv(p, s)
    && ServerInv(p, s)
    && SendInv(LineOut(p, s), Data(s.up.sent, 1), SenderOf(s.client))
    && SendInv([], Data(s.down.sent, 0), SenderOf(s.server))
    && RecvInv(ReplyOut(p, s), Data(s.down.sent[..s.down.got], 0), ReceiverOf(s.client))
    && RecvInv([], Data(s.up.sent[..s.up.got], 1), ReceiverOf(s.server))
  }

  // ----- one relay step -----

  lemma SendArrive(intro: Bytes, data: seq<Message>, n: Sender, b: Bytes)
    requires SendInv(intro, data, n)
    ensures SendInv(intro, data, n.(plainIn := n.plainIn + b, unread := n.unread + b))
  {
    hide Payloads;
    assert Payloads(data) + n.dropped + (n.unread + b) == (Payloads(data) + n.dropped + n.unread) + b;
    assert intro + (n.plainIn + b) == (intro + n.plainIn) + b;
  }

  lemma SendChunk(intro: Bytes, data: seq<Message>, n: Sender, k: nat, coin: nat)
    requires SendInv(intro, data, n) && n.enc == Reading && k <= |n.unread|
    ensures SendInv(intro, data + [Message(n.unread[..k], coin)], n.(enc := Writing, unread := n.unread[k..]))
  {
    var m := Message(n.unread[..k], coin);
    PayloadsSnoc(data, m);
    hide Payloads;
    assert Payloads(data) + [] + n.unread == Payloads(data + [m]) + [] + n.unread[k..];
  }

  lemma SendError(intro: Bytes, data: seq<Message>, n: Sender, k: nat)
    requires SendInv(intro, data, n) && n.enc == Reading && k <= |n.unread| && k <= CHUNK
    ensures SendInv(intro, data, n.(enc := Ended, unread := n.unread[k..], dropped := n.unread[..k]))
  {
    hide Payloads;
    assert Payloads(data) + [] + n.unread == Payloads(data) + n.unread[..k] + n.unread[k..];
  }

  lemma SendLine(line: Bytes, n: Sender, coin: nat)
    requires SendInv([], [], n)
    ensures SendInv(line, [Message(line, coin)], n)
  {
    var m := Message(line, coin);
    assert [m][1..] == [] && Payloads([m]) == line;
    assert line + n.plainIn == line + ([] + n.dropped + n.unread) == line + n.dropped + n.unread;
  }

  lemma RecvPacket(intro: Bytes, data: seq<Message>, n: Receiver, m: Message)
    requires RecvInv(intro, data, n) && n.plainPending == []
    ensures RecvInv(intro, data + [m], if n.plainBroken then n else n.(plainPending := m.payload))
  {
    PayloadsSnoc(data, m);
    hide Payloads;
    assert intro + Payloads(data + [m]) == (intro + Payloads(data)) + m.payload;
    assert n.plainOut + [] == n.plainOut;
  }

  lemma RecvFlush(intro: Bytes, data: seq<Message>, n: Node, k: nat)
    requires RecvInv(intro, data, ReceiverOf(n)) && k <= |n.plainPending|
    ensures RecvInv(intro, data, ReceiverOf(FlushPlain(n, k)))
  {
    hide Payloads;
    var n' := FlushPlain(n, k);
    assert n'.plainOut + n'.plainPending == n.plainOut + n.plainPending;
  }

  lemma RecvBreak(intro: Bytes, data: seq<Message>, n: Node)
    requires RecvInv(intro, data, ReceiverOf(n))
    ensures RecvInv(intro, data, ReceiverOf(BreakPlain(n)))
  {
  }

  /** A read takes the first unread bytes, whether they were buffered or not. */
  lemma ReadsInOrder(n: Node, k: nat)
    requires k <= |Readable(n)|
    ensures k <= |Unread(n)| && Readable(n)[..k] == Unread(n)[..k] && Unread(AfterRead(n, k)) == Unread(n)[k..]
  {
    if n.held == [] {
      assert Unread(n) == n.plainBuf;
    }
  }

  /** A relay step keeps the sending half of its node; only a chunk read changes what was sent. */
  lemma RelaySends(c: Compressor, key: Bytes, r: Relay, step: RelayStep, d: nat, intro: Bytes)
    requires key != [] && RelayCan(c, key, r, step)
    requires step.Arrive? || d <= |r.out.sent|
    requires SendInv(intro, Data(r.out.sent, d), SenderOf(r.node))
    ensures var r' := RelayNext(c, key, r, step); SendInv(intro, Data(r'.out.sent, d), SenderOf(r'.node))
  {
    hide Payloads, Links.CanParse, Links.Parse, Links.CanBegin;
    var n, data := r.node, Data(r.out.sent, d);
    match step
    case Arrive(b) =>
      assert n.held + (n.plainBuf + b) == Unread(n) + b;
      SendArrive(intro, data, SenderOf(n), b);
    case ReadChunk(k, coin) =>
      ReadsInOrder(n, k);
      assert (r.out.sent + [Message(Readable(n)[..k], coin)])[d..] == data + [Message(Readable(n)[..k], coin)];
      SendChunk(intro, data, SenderOf(n), k, coin);
    case ReadError(k) =>
      ReadsInOrder(n, k);
      SendError(intro, data, SenderOf(n), k);
    case _ =>
  }

  /** A relay step keeps the receiving half of its node; only a decoded packet changes what was parsed. */
  lemma RelayReceives(c: Compressor, key: Bytes, r: Relay, step: RelayStep, d: nat, intro: Bytes)
    requires Lawful(c) && key != [] && RelayCan(c, key, r, step) && LinkInv(c, key, r.inn) && r.inn.got <= |r.inn.sent|
    requires d <= r.inn.got || step.Arrive?
    requires step.Decode? ==> r.node.plainPending == []
    requires RecvInv(intro, Data(r.inn.sent[..r.inn.got], d), ReceiverOf(r.node))
    ensures var r' := RelayNext(c, key, r, step);
            && r'.inn == r.inn.(inbox := r'.inn.inbox, got := r'.inn.got)
            && r.inn.got <= r'.inn.got <= |r'.inn.sent| && LinkInv(c, key, r'.inn)
            && (!step.Decode? ==> r'.inn == r.inn)
            && RecvInv(intro, Data(r'.inn.sent[..r'.inn.got], d), ReceiverOf(r'.node))
  {
    hide Payloads, Links.CanBegin, Links.LinkInv;
    var n, data := r.node, Data(r.inn.sent[..r.inn.got], d);
    match step
    case Decode =>
      ParseKeeps(c, key, r.inn);
      var m := r.inn.sent[r.inn.got];
      assert r.inn.sent[..r.inn.got + 1][d..] == data + [m];
      RecvPacket(intro, data, ReceiverOf(n), m);
    case PlainBroke => RecvBreak(intro, data, n);
    case _ =>
  }

  lemma RelayWrites(c: Compressor, key: Bytes, r: Relay, step: RelayStep)
    requires key != [] && RelayCan(c, key, r, step) && LinkInv(c, key, r.out)
    ensures LinkInv(c, key, RelayNext(c, key, r, step).out)
    ensures var out := RelayNext(c, key, r, step).out;
            r.out.sent <= out.sent && out.got == r.out.got && (step.Arrive? ==> out == r.out)
  {
    hide Links.LinkInv, Links.CanBegin, Links.CanParse, Links.Parse;
    match step
    case ReadChunk(k, coin) => BeginKeeps(c, key, r.out, Message(Readable(r.node)[..k], coin));
    case WireBroke => BreakKeeps(c, key, r.out);
    case _ =>
  }

  // ----- one step of the system -----

  lemma ClientPhases(p: Session, s: State, rs: RelayStep)
    requires p.Valid() && Inv(p, s) && Can(p, s, Client(rs))
    ensures OpeningInv(p, Next(p, s, Client(rs))) && ServerInv(p, Next(p, s, Client(rs)))
  {
    hide Payloads, Links.LinkInv, SendInv, RecvInv, Links.CanParse, Links.Parse, FrameOf;
    LinkBounds(p, s);
    RelayReceives(p.c, p.key, ClientSide(s), rs, 0, ReplyOut(p, s));
  }

  lemma ServerPhases(p: Session, s: State, rs: RelayStep)
    requires p.Valid() && Inv(p, s) && Can(p, s, Server(rs))
    ensures OpeningInv(p, Next(p, s, Server(rs))) && ServerInv(p, Next(p, s, Server(rs)))
  {
    hide Payloads, Links.LinkInv, SendInv, RecvInv, Links.CanParse, Links.Parse, FrameOf;
    LinkBounds(p, s);
    RelayReceives(p.c, p.key, ServerSide(s), rs, 1, []);
  }

  /** What the opening phases say about the positions of the relays. */
  lemma Positions(p: Session, s: State)
    requires p.Valid() && Inv(p, s)
    ensures s.cphase == ClientRelay ==> |s.up.sent| >= 1
    ensures s.cphase == ClientRelay && s.client.dec == Reading ==> s.client.plainPending == []
    ensures s.sphase == ServerRelay ==> s.up.got >= 1
    ensures s.sphase == ServerRelay && s.server.dec == Reading ==> s.server.plainPending == []
  {
    hide Links.LinkInv, SendInv, RecvInv;
  }

  lemma ClientKeeps(p: Session, s: State, rs: RelayStep)
    requires p.Valid() && Inv(p, s) && Can(p, s, Client(rs))
    ensures Inv(p, Next(p, s, Client(rs)))
  {
    hide Payloads, Links.LinkInv, SendInv, RecvInv, OpeningInv, ServerInv, RelayNext, Links.CanParse, Links.CanBegin;
    ClientPhases(p, s, rs);
    Positions(p, s);
    var r := Relay(s.client, s.up, s.down);
    LinkBounds(p, s);
    RelaySends(p.c, p.key, r, rs, 1, LineOut(p, s));
    RelayReceives(p.c, p.key, r, rs, 0, ReplyOut(p, s));
    RelayWrites(p.c, p.key, r, rs);
    var s' := Next(p, s, Client(rs));
    assert s'.up.sent[..s'.up.got] == s.up.sent[..s.up.got];
  }

  lemma ServerKeeps(p: Session, s: State, rs: RelayStep)
    requires p.Valid() && Inv(p, s) && Can(p, s, Server(rs))
    ensures Inv(p, Next(p, s, Server(rs)))
  {
    hide Payloads, Links.LinkInv, SendInv, RecvInv, OpeningInv, ServerInv, RelayNext, Links.CanParse, Links.CanBegin;
    ServerPhases(p, s, rs);
    Positions(p, s);
    var r := Relay(s.server, s.down, s.up);
    LinkBounds(p, s);
    RelaySends(p.c, p.key, r, rs, 0, []);
    RelayReceives(p.c, p.key, r, rs, 1, []);
    RelayWrites(p.c, p.key, r, rs);
    var s' := Next(p, s, Server(rs));
    assert s'.down.sent[..s'.down.got] == s.down.sent[..s.down.got];
  }

  lemma LinkBounds(p: Session, s: State)
    requires p.Valid() && Inv(p, s)
    ensures s.up.got <= |s.up.sent| && s.down.got <= |s.down.sent|
  {
  }

  lemma PrefetchKeeps(p: Session, s: State, k: nat)
    requires p.Valid() && Inv(p, s) && Can(p, s, Prefetched(k))
    ensures Inv(p, Next(p, s, Prefetched(k)))
  {
    hide Links.LinkInv, SendInv, RecvInv;
    assert Unread(Prefetch(s.client, k)) == Unread(s.client);
  }

  lemma WriteDestKeeps(p: Session, s: State, coin: nat)
    requires p.Valid() && Inv(p, s) && Can(p, s, WriteDest(coin))
    ensures Inv(p, Next(p, s, WriteDest(coin)))
  {
    hide Links.LinkInv, SendInv, RecvInv, Payloads;
    LinkBounds(p, s);
    BeginKeeps(p.c, p.key, s.up, Message(p.dest, coin));
    var s' := Next(p, s, WriteDest(coin));
    assert s'.up.sent[..s'.up.got] == s.up.sent[..s.up.got];
    assert Data(s'.up.sent, 1) == Data(s.up.sent, 1) == [];
  }

  lemma WriteLineKeeps(p: Session, s: State, coin: nat)
    requires p.Valid() && Inv(p, s) && Can(p, s, WriteLine(coin))
    ensures Inv(p, Next(p, s, WriteLine(coin)))
  {
    hide Links.LinkInv, SendInv, RecvInv, Payloads;
    LinkBounds(p, s);
    var m := Message(p.line, coin);
    BeginKeeps(p.c, p.key, s.up, m);
    var s' := Next(p, s, WriteLine(coin));
    assert s'.up.sent[..s'.up.got] == s.up.sent[..s.up.got];
    assert Data(s.up.sent, 1) == [] && Data(s'.up.sent, 1) == [m];
    SendLine(p.line, SenderOf(s.client), coin);
  }

  lemma HandoverKeeps(p: Session, s: State, step: Step)
    requires p.Valid() && Inv(p, s) && Can(p, s, step)
    requires step.Opened? || step.PreFnReturned?
    ensures Inv(p, Next(p, s, step))
  {
    hide Links.LinkInv, SendInv, RecvInv, Payloads;
  }

  lemma PreFnKeeps(p: Session, s: State)
    requires p.Valid() && Inv(p, s) && Can(p, s, PreFn)
    ensures Inv(p, Next(p, s, PreFn))
  {
    hide Links.LinkInv, SendInv;
    LinkBounds(p, s);
    assert Data(s.down.sent[..s.down.got], 0) == [];
  }

  lemma ClientAbortKeeps(p: Session, s: State)
    requires p.Valid() && Inv(p, s) && Can(p, s, ClientAbort)
    ensures Inv(p, Next(p, s, ClientAbort))
  {
    hide Links.LinkInv, RecvInv, Payloads;
    LinkBounds(p, s);
    BreakKeeps(p.c, p.key, s.up);
  }

  lemma ServerOpeningKeeps(p: Session, s: State, step: Step)
    requires p.Valid() && Inv(p, s) && Can(p, s, step)
    requires step.PreFnBroke? || step.Dialed? || step.ServerAbort?
    ensures Inv(p, Next(p, s, step))
  {
    hide Links.LinkInv, Payloads;
    LinkBounds(p, s);
    match step
    case PreFnBroke => RecvBreak(ReplyOut(p, s), Data(s.down.sent[..s.down.got], 0), s.client);
    case _ =>
  }

  /** The first frame becomes the destination and adds nothing to what the target receives. */
  lemma FirstFrameKeeps(p: Session, s: State)
    requires p.Valid() && Inv(p, s) && Can(p, s, Step.FirstFrame)
    ensures Inv(p, Next(p, s, Step.FirstFrame))
  {
    hide Links.LinkInv, SendInv, RecvInv, Payloads;
    LinkBounds(p, s);
    ParseKeeps(p.c, p.key, s.up);
    assert Data(s.up.sent[..0], 1) == [] == Data(s.up.sent[..1], 1);
  }

  lemma UpWireKeeps(p: Session, s: State, step: Step)
    requires p.Valid() && Inv(p, s) && Can(p, s, step)
    requires step.FlushUp? || step.FillUp? || step.FeedUp? || step.TakeUp?
    ensures Inv(p, Next(p, s, step))
  {
    hide Links.LinkInv, SendInv, RecvInv, Payloads;
    LinkBounds(p, s);
    match step
    case FlushUp(k) => FlushKeeps(p.c, p.key, s.up, k);
    case FillUp(k) => FillKeeps(p.c, p.key, s.up, k);
    case FeedUp(k) => FeedKeeps(p.c, p.key, s.up, k);
    case TakeUp(k) => TakeKeeps(p.c, p.key, s.up, k);
    case _ =>
  }

  lemma DownWireKeeps(p: Session, s: State, step: Step)
    requires p.Valid() && Inv(p, s) && Can(p, s, step)
    requires step.FlushDown? || step.FillDown? || step.FeedDown? || step.TakeDown?
    ensures Inv(p, Next(p, s, step))
  {
    hide Links.LinkInv, SendInv, RecvInv, Payloads;
    LinkBounds(p, s);
    match step
    case FlushDown(k) => FlushKeeps(p.c, p.key, s.down, k);
    case FillDown(k) => FillKeeps(p.c, p.key, s.down, k);
    case FeedDown(k) => FeedKeeps(p.c, p.key, s.down, k);
    case TakeDown(k) => TakeKeeps(p.c, p.key, s.down, k);
    case _ =>
  }

  lemma PlainFlushKeeps(p: Session, s: State, step: Step)
    requires p.Valid() && Inv(p, s) && Can(p, s, step)
    requires step.FlushApp? || step.FlushTarget?
    ensures Inv(p, Next(p, s, step))
  {
    hide Links.LinkInv, SendInv, RecvInv, Payloads;
    LinkBounds(p, s);
    match step
    case FlushApp(k) => RecvFlush(ReplyOut(p, s), Data(s.down.sent[..s.down.got], 0), s.client, k);
    case FlushTarget(k) => RecvFlush([], Data(s.up.sent[..s.up.got], 1), s.server, k);
    case _ =>
  }

  /** Every step of the system keeps the invariant. */
  lemma StepKeeps(p: Session, s: State, step: Step)
    requires p.Valid() && Inv(p, s) && Can(p, s, step)
    ensures Inv(p, Next(p, s, step))
  {
    hide Inv, Can, Next;
    match step
    case Client(rs) => ClientKeeps(p, s, rs);
    case Server(rs) => ServerKeeps(p, s, rs);
    case PreFnBroke => ServerOpeningKeeps(p, s, step);
    case FirstFrame => FirstFrameKeeps(p, s);
    case Dialed => ServerOpeningKeeps(p, s, step);
    case ServerAbort => ServerOpeningKeeps(p, s, step);
    case FlushUp(_) => UpWireKeeps(p, s, step);
    case FlushDown(_) => DownWireKeeps(p, s, step);
    case FillUp(_) => UpWireKeeps(p, s, step);
    case FillDown(_) => DownWireKeeps(p, s, step);
    case FeedUp(_) => UpWireKeeps(p, s, step);
    case FeedDown(_) => DownWireKeeps(p, s, step);
    case TakeUp(_) => UpWireKeeps(p, s, step);
    case TakeDown(_) => DownWireKeeps(p, s, step);
    case FlushApp(_) => PlainFlushKeeps(p, s, step);
    case FlushTarget(_) => PlainFlushKeeps(p, s, step);
    case Prefetched(k) => PrefetchKeeps(p, s, k);
    case WriteDest(coin) => WriteDestKeeps(p, s, coin);
    case WriteLine(coin) => WriteLineKeeps(p, s, coin);
    case Opened => HandoverKeeps(p, s, step);
    case PreFn => PreFnKeeps(p, s);
    case PreFnReturned => HandoverKeeps(p, s, step);
    case ClientAbort => ClientAbortKeeps(p, s);
  }

  lemma StartHolds(p: Session)
    requires p.Valid()
    ensures Inv(p, START)
  {
  }

  // ----- runs -----

  /** A run: the states reached from the start by a sequence of steps, each possible where it is taken. */
  ghost predicate IsRun(p: Session, run: seq<State>, steps: seq<Step>)
    requires p.key != []
  {
    && |run| == |steps| + 1
    && run[0] == START
    && forall i :: 0 <= i < |steps| ==> Can(p, run[i], steps[i]) && run[i + 1] == Next(p, run[i], steps[i])
  }

  lemma {:induction false} RunInv(p: Session, run: seq<State>, steps: seq<Step>, i: nat)
    requires p.Valid() && IsRun(p, run, steps) && i < |run|
    ensures Inv(p, run[i])
  {
    hide Inv, Can, Next;
    if i == 0 {
      StartHolds(p);
    } else {
      RunInv(p, run, steps, i - 1);
      StepKeeps(p, run[i - 1], steps[i - 1]);
    }
  }

  /** What the tunnel may do to its two streams. */
  ghost predicate Safe(p: Session, s: State) {
    && s.server.plainOut <= p.line + s.client.plainIn
    && s.client.plainOut <= p.reply + s.server.plainIn
    && (s.serverDest.Some? ==> s.serverDest.value == p.dest)
  }

  lemma UpSafe(p: Session, s: State)
    requires p.Valid() && Inv(p, s)
    ensures s.server.plainOut <= p.line + s.client.plainIn
  {
    hide Links.LinkInv;
    LinkBounds(p, s);
    var data := Data(s.up.sent, 1);
    var seen := Data(s.up.sent[..s.up.got], 1);
    if s.up.got == 0 {
      assert seen == [];
    } else {
      assert seen == data[..s.up.got - 1];
      PayloadsPrefix(data, s.up.got - 1);
    }
    hide Payloads;
    assert [] + Payloads(seen) == Payloads(seen);
    if LineOut(p, s) != p.line {
      assert data == [];
    }
  }

  lemma DownSafe(p: Session, s: State)
    requires p.Valid() && Inv(p, s)
    ensures s.client.plainOut <= p.reply + s.server.plainIn
  {
    LinkBounds(p, s);
    PayloadsPrefix(s.down.sent, s.down.got);
    hide Links.LinkInv, ServerInv, Payloads;
    assert Data(s.down.sent, 0) == s.down.sent && Data(s.down.sent[..s.down.got], 0) == s.down.sent[..s.down.got];
    var seen := Payloads(s.down.sent[..s.down.got]);
    assert [] + s.server.plainIn == s.server.plainIn;
    PrefixUnder(p.reply, seen, s.server.plainIn);
  }

  lemma PrefixUnder(a: Bytes, b: Bytes, c: Bytes)
    requires b <= c
    ensures a + b <= a + c
  {
  }

  lemma InvSafe(p: Session, s: State)
    requires p.Valid() && Inv(p, s)
    ensures Safe(p, s)
  {
    UpSafe(p, s);
    DownSafe(p, s);
  }

  /** In every interleaving, with any read sizes, partial writes and failures: the bytes written to the
      target are a prefix of the HTTP line followed by what the application sent, the bytes written to the
      application a prefix of the PreFn reply followed by what the target sent, and the destination the
      server dials is the one the client printed. */
  lemma OrderedDelivery(p: Session, run: seq<State>, steps: seq<Step>)
    requires p.Valid() && IsRun(p, run, steps)
    ensures forall i :: 0 <= i < |run| ==> Safe(p, run[i])
  {
    hide Inv, Safe, IsRun;
    forall i | 0 <= i < |run| ensures Safe(p, run[i]) {
      RunInv(p, run, steps, i);
      InvSafe(p, run[i]);
    }
  }

  /** The server dials the address and port the client was asked for, whenever it dials at all, provided the
      address has no square brackets: the destination frame and the printed form lose nothing. */
  lemma DialsWhatWasAsked(p: Session, run: seq<State>, steps: seq<Step>, i: nat, ip: IP)
    requires p.Valid() && IsRun(p, run, steps) && i < |run| && p.dest == Printed(ip) && Int64(ip.port)
    requires NoBrackets(ip.addr)
    ensures run[i].serverDest.Some? ==> HostPort.ReadDest(run[i].serverDest.value) == ip
  {
    hide IsRun, Printed, HostPort.ReadDest;
    OrderedDelivery(p, run, steps);
    assert Safe(p, run[i]);
    DestinationRoundTrip(ip);
  }

  // ----- conservation and exact delivery -----

  lemma FramesHaveBytes(c: Compressor, key: Bytes, ms: seq<Message>)
    requires key != [] && AllEncodable(c, ms)
    ensures ms != [] ==> Wire(c, key, ms) != []
  {
  }

  predicate Drained(l: Link) {
    !l.broken && l.pending == [] && l.wire == [] && l.buffer == [] && l.inbox == []
  }

  lemma DrainedIsParsed(c: Compressor, key: Bytes, l: Link)
    requires key != [] && LinkInv(c, key, l) && Drained(l)
    ensures l.got == |l.sent|
  {
    FramesHaveBytes(c, key, l.sent[l.got..]);
  }

  /** The frames handed to a link after its `d` opening frames and not yet returned as packets. */
  function Unparsed(l: Link, d: nat): seq<Message> {
    Data(l.sent, if l.got < d then d else l.got)
  }

  lemma ParsedThenUnparsed(l: Link, d: nat)
    requires l.got <= |l.sent|
    ensures Payloads(Data(l.sent, d)) == Payloads(Data(l.sent[..l.got], d)) + Payloads(Unparsed(l, d))
  {
    PayloadsConcat(Data(l.sent[..l.got], d), Unparsed(l, d));
    assert Data(l.sent, d) == Data(l.sent[..l.got], d) + Unparsed(l, d);
  }

  /** Conservation of one direction: delivered, being written, in frames on their way, dropped, unread. */
  ghost predicate Conserved(intro: Bytes, l: Link, d: nat, from: Node, to: Node) {
    && to.plainOut + to.plainPending + Payloads(Unparsed(l, d)) + from.dropped + Unread(from) == intro + from.plainIn
    && |from.dropped| <= 65536 && (from.enc.Active() ==> from.dropped == [])
  }

  lemma OneWayConserved(reply: Bytes, line: Bytes, l: Link, d: nat, from: Node, to: Node)
    requires l.got <= |l.sent| && !to.plainBroken
    requires SendInv(line, Data(l.sent, d), SenderOf(from))
    requires RecvInv(reply, Data(l.sent[..l.got], d), ReceiverOf(to))
    ensures Conserved(reply + line, l, d, from, to)
  {
    ParsedThenUnparsed(l, d);
    hide Payloads, Data, Unparsed;
    var seen, late := Payloads(Data(l.sent[..l.got], d)), Payloads(Unparsed(l, d));
    Chained(to.plainOut + to.plainPending, reply, seen, late, from.dropped, Unread(from), line, from.plainIn);
  }

  lemma Chained(out: Bytes, reply: Bytes, seen: Bytes, late: Bytes, dropped: Bytes, buf: Bytes, line: Bytes, all: Bytes)
    requires out == reply + seen && (seen + late) + dropped + buf == line + all
    ensures out + late + dropped + buf == reply + line + all
  {
    assert out + late + dropped + buf == reply + ((seen + late) + dropped + buf);
    assert reply + (line + all) == reply + line + all;
  }

  /** In every reachable state, whether the copy loops are running or have ended and whatever failed on the
      links, no byte is lost, duplicated or reordered as long as the receiver's own write has not failed: what
      it wrote, what it is writing, the frames on their way, what came with the read error and what is still
      unread are together the introduction and all the bytes that arrived. */
  lemma BytesConserved(p: Session, run: seq<State>, steps: seq<Step>, i: nat)
    requires p.Valid() && IsRun(p, run, steps) && i < |run|
    ensures var s := run[i];
            && (!s.server.plainBroken ==> Conserved(LineOut(p, s), s.up, 1, s.client, s.server))
            && (!s.client.plainBroken ==> Conserved(ReplyOut(p, s), s.down, 0, s.server, s.client))
  {
    RunInv(p, run, steps, i);
    hide Can, Next, IsRun, Conserved, SendInv, RecvInv;
    var s := run[i];
    LinkBounds(p, s);
    if !s.server.plainBroken {
      OneWayConserved([], LineOut(p, s), s.up, 1, s.client, s.server);
      assert [] + LineOut(p, s) == LineOut(p, s);
    }
    if !s.client.plainBroken {
      OneWayConserved(ReplyOut(p, s), [], s.down, 0, s.server, s.client);
      assert ReplyOut(p, s) + [] == ReplyOut(p, s);
    }
  }

  /** A drained direction has delivered everything but what came with the read error or was never read, also
      after its copy loop has ended. So an upload that ended at a bare end-of-file has arrived completely. */
  lemma ExactDelivery(p: Session, run: seq<State>, steps: seq<Step>, i: nat)
    requires p.Valid() && IsRun(p, run, steps) && i < |run|
    ensures var s := run[i];
            && (Drained(s.up) && !s.server.plainBroken && s.server.plainPending == [] ==>
                  s.server.plainOut + s.client.dropped + Unread(s.client) == LineOut(p, s) + s.client.plainIn)
            && (Drained(s.down) && !s.client.plainBroken && s.client.plainPending == [] ==>
                  s.client.plainOut + s.server.dropped + Unread(s.server) == ReplyOut(p, s) + s.server.plainIn)
  {
    BytesConserved(p, run, steps, i);
    RunInv(p, run, steps, i);
    hide Can, Next, IsRun, OpeningInv, ServerInv, SendInv, RecvInv;
    var s := run[i];
    if Drained(s.up) {
      DrainedIsParsed(p.c, p.key, s.up);
    }
    if Drained(s.down) {
      DrainedIsParsed(p.c, p.key, s.down);
    }
    hide Links.LinkInv;
    assert forall b: Bytes {:trigger b + []} :: b + [] == b;
  }

  lemma ChunkCanBegin(c: Compressor, l: Link, chunk: Bytes, coin: nat)
    requires Lawful(c) && !l.broken && l.pending == [] && 0 < |chunk| <= 65536 && coin < 99
    ensures CanBegin(c, l, Message(chunk, coin))
  {
    ChunksFit(c, Message(chunk, coin));
  }

  lemma RelaysUnblocked(p: Session, s: State)
    requires p.Valid() && Inv(p, s)
    ensures s.cphase == ClientRelay && s.client.enc == Reading ==> !s.up.broken && s.up.pending == []
    ensures s.sphase == ServerRelay && s.server.enc == Reading ==> !s.down.broken && s.down.pending == []
  {
    hide Links.LinkInv, SendInv, RecvInv;
  }

  /** The guards of the model never hold up a relay: a chunk that can be read can always be encoded and written. */
  lemma ChunkNeverRefused(p: Session, run: seq<State>, steps: seq<Step>, i: nat, k: nat, coin: nat)
    requires p.Valid() && IsRun(p, run, steps) && i < |run| && 0 < k <= 65536 && coin < 99
    ensures var s := run[i];
            s.cphase == ClientRelay && s.client.enc == Reading && k <= |Readable(s.client)| ==>
              Can(p, s, Client(ReadChunk(k, coin)))
    ensures var s := run[i];
            s.sphase == ServerRelay && s.server.enc == Reading && k <= |Readable(s.server)| ==>
              Can(p, s, Server(ReadChunk(k, coin)))
  {
    hide Next, IsRun, Lawful, Inv, Links.CanBegin;
    RunInv(p, run, steps, i);
    RelaysUnblocked(p, run[i]);
    var s := run[i];
    if s.cphase == ClientRelay && s.client.enc == Reading && k <= |Readable(s.client)| {
      ChunkCanBegin(p.c, s.up, Readable(s.client)[..k], coin);
    }
    if s.sphase == ServerRelay && s.server.enc == Reading && k <= |Readable(s.server)| {
      ChunkCanBegin(p.c, s.down, Readable(s.server)[..k], coin);
    }
  }

  // ----- what cancelling stops -----

  function ClientSide(s: State): Relay {
    Relay(s.client, s.up, s.down)
  }

  function ServerSide(s: State): Relay {
    Relay(s.server, s.down, s.up)
  }

  /** Frames that are whole among the bytes received. */
  function Whole(l: Link): nat {
    WholeFrames(Received(l))
  }

  /** The decoding loop has set its deadline: nothing more is read from the plain socket, so the frames after the
      `d` opening ones carry no more than what was already buffered. */
  ghost predicate Muted(r: Relay, r': Relay, d: nat) {
    r.node.dec == Done ==>
      && r'.node.dec == Done && r'.node.plainIn == r.node.plainIn && r'.node.plainBuf == r.node.plainBuf
      && Payloads(Data(r'.out.sent, d)) + r'.node.held == Payloads(Data(r.out.sent, d)) + r.node.held
  }

  /** The encoding loop has set its deadline: nothing more is taken off the wire, so no more packets are
      returned than there are whole frames among the bytes received. */
  ghost predicate Deafened(r: Relay, r': Relay) {
    r.node.enc == Done ==>
      && r'.node.enc == Done && r.inn.wire <= r'.inn.wire
      && r'.inn.got + Whole(r'.inn) <= r.inn.got + Whole(r.inn)
  }

  ghost predicate Grown(l: Link, l': Link) {
    l.sent <= l'.sent && l.got <= l'.got
  }

  ghost predicate OneChunkMore(sent: seq<Message>, sent': seq<Message>) {
    sent' == sent || (|sent'| == |sent| + 1 && sent <= sent' && |sent'[|sent|].payload| <= CHUNK)
  }

  ghost predicate Cancelled(s: State, t: State) {
    && Muted(ClientSide(s), ClientSide(t), 1) && Deafened(ClientSide(s), ClientSide(t))
    && Muted(ServerSide(s), ServerSide(t), 0) && Deafened(ServerSide(s), ServerSide(t))
    && Grown(s.up, t.up) && Grown(s.down, t.down)
  }

  /** A chunk taken from the buffer moves from there to the frames. */
  lemma ChunkMoves(sent: seq<Message>, d: nat, n: Node, k: nat, coin: nat)
    requires d <= |sent| && n.dec == Done && k <= |Readable(n)|
    ensures var sent' := sent + [Message(Readable(n)[..k], coin)];
            Payloads(Data(sent', d)) + AfterRead(n, k).held == Payloads(Data(sent, d)) + n.held
  {
    var m := Message(Readable(n)[..k], coin);
    assert Data(sent + [m], d) == Data(sent, d) + [m];
    PayloadsSnoc(Data(sent, d), m);
    hide Payloads, Data;
    assert Payloads(Data(sent, d)) + m.payload + AfterRead(n, k).held ==
           Payloads(Data(sent, d)) + (m.payload + AfterRead(n, k).held);
    assert m.payload + AfterRead(n, k).held == n.held;
  }

  lemma RelayMuted(c: Compressor, key: Bytes, r: Relay, step: RelayStep, d: nat)
    requires key != [] && RelayCan(c, key, r, step) && (step.Arrive? || d <= |r.out.sent|)
    ensures Muted(r, RelayNext(c, key, r, step), d)
  {
    hide Links.CanBegin, Links.CanParse, Links.Parse, Payloads, Data, FrameOf;
    if step.ReadChunk? && r.node.dec == Done {
      ChunkMoves(r.out.sent, d, r.node, step.k, step.coin);
    }
  }

  lemma RelayDeafened(c: Compressor, key: Bytes, r: Relay, step: RelayStep)
    requires Lawful(c) && key != [] && RelayCan(c, key, r, step) && LinkInv(c, key, r.inn)
    ensures var r' := RelayNext(c, key, r, step);
            && Deafened(r, r') && Grown(r.out, r'.out) && Grown(r.inn, r'.inn)
            && r'.out == r.out.(sent := r'.out.sent, pending := r'.out.pending, broken := r'.out.broken)
            && r'.inn == r.inn.(inbox := r'.inn.inbox, got := r'.inn.got)
            && OneChunkMore(r.out.sent, r'.out.sent)
  {
    hide Links.LinkInv, Links.CanBegin, FrameOf, WholeFrames;
    if step.Decode? {
      ParseKeeps(c, key, r.inn);
      ParseTakesOne(c, key, r.inn);
    }
    hide Links.CanParse;
  }

  /** The other node's relay sees of such a step only bytes consumed at one end and frames added at the other. */
  lemma OtherSide(r: Relay, r': Relay, d: nat)
    requires r'.node == r.node && r'.out.sent == r.out.sent && r'.inn.wire == r.inn.wire
    requires r'.inn.got == r.inn.got && r'.inn.inbox == r.inn.inbox && r'.inn.buffer == r.inn.buffer
    ensures Muted(r, r', d) && Deafened(r, r')
  {
  }

  lemma ClientCancelled(p: Session, s: State, rs: RelayStep)
    requires p.Valid() && Inv(p, s) && Can(p, s, Client(rs))
    ensures Cancelled(s, Next(p, s, Client(rs)))
  {
    hide Links.LinkInv, SendInv, RecvInv, RelayCan, RelayNext, Muted, Deafened, Grown;
    RelayMuted(p.c, p.key, ClientSide(s), rs, 1);
    RelayDeafened(p.c, p.key, ClientSide(s), rs);
    OtherSide(ServerSide(s), ServerSide(Next(p, s, Client(rs))), 0);
  }

  lemma ServerCancelled(p: Session, s: State, rs: RelayStep)
    requires p.Valid() && Inv(p, s) && Can(p, s, Server(rs))
    ensures Cancelled(s, Next(p, s, Server(rs)))
  {
    hide Links.LinkInv, SendInv, RecvInv, RelayCan, RelayNext, Muted, Deafened, Grown;
    RelayMuted(p.c, p.key, ServerSide(s), rs, 0);
    RelayDeafened(p.c, p.key, ServerSide(s), rs);
    OtherSide(ClientSide(s), ClientSide(Next(p, s, Server(rs))), 1);
  }

  lemma OpeningCancelled(p: Session, s: State, step: Step)
    requires p.Valid() && Inv(p, s) && Can(p, s, step)
    requires step.Prefetched? || step.WriteDest? || step.WriteLine? || step.Opened? || step.PreFn?
             || step.PreFnBroke? || step.PreFnReturned? || step.ClientAbort? || step.Dialed? || step.ServerAbort?
    ensures Cancelled(s, Next(p, s, step))
  {
    hide Links.LinkInv, SendInv, RecvInv, WholeFrames, FrameOf, Payloads, Data;
  }

  lemma FirstFrameCancelled(p: Session, s: State)
    requires p.Valid() && Inv(p, s) && Can(p, s, Step.FirstFrame)
    ensures Cancelled(s, Next(p, s, Step.FirstFrame))
  {
    hide Links.LinkInv, SendInv, RecvInv, WholeFrames, Links.CanParse, Links.Parse, Payloads, Data;
    ParseKeeps(p.c, p.key, s.up);
    ParseTakesOne(p.c, p.key, s.up);
  }

  lemma WireCancelled(p: Session, s: State, step: Step)
    requires p.Valid() && Inv(p, s) && Can(p, s, step)
    requires step.FlushUp? || step.FlushDown? || step.FillUp? || step.FillDown? || step.FeedUp? || step.FeedDown?
             || step.TakeUp? || step.TakeDown? || step.FlushApp? || step.FlushTarget?
    ensures Cancelled(s, Next(p, s, step))
  {
    hide Links.LinkInv, SendInv, RecvInv, WholeFrames, Payloads, Data, Wanted, OpeningInv, ServerInv;
    match step
    case FeedUp(k) => FeedKeeps(p.c, p.key, s.up, k);
    case FeedDown(k) => FeedKeeps(p.c, p.key, s.down, k);
    case _ =>
  }

  lemma StepCancelled(p: Session, s: State, step: Step)
    requires p.Valid() && Inv(p, s) && Can(p, s, step)
    ensures Cancelled(s, Next(p, s, step))
  {
    hide Inv, Can, Next, Cancelled;
    match step
    case Client(rs) => ClientCancelled(p, s, rs);
    case Server(rs) => ServerCancelled(p, s, rs);
    case FirstFrame => FirstFrameCancelled(p, s);
    case FlushUp(_) => WireCancelled(p, s, step);
    case FlushDown(_) => WireCancelled(p, s, step);
    case FillUp(_) => WireCancelled(p, s, step);
    case FillDown(_) => WireCancelled(p, s, step);
    case FeedUp(_) => WireCancelled(p, s, step);
    case FeedDown(_) => WireCancelled(p, s, step);
    case TakeUp(_) => WireCancelled(p, s, step);
    case TakeDown(_) => WireCancelled(p, s, step);
    case FlushApp(_) => WireCancelled(p, s, step);
    case FlushTarget(_) => WireCancelled(p, s, step);
    case _ => OpeningCancelled(p, s, step);
  }

  lemma CancelledChains(s: State, t: State, u: State)
    requires Cancelled(s, t) && Cancelled(t, u)
    ensures Cancelled(s, u)
  {
    hide Whole, Payloads, Data;
  }

  lemma {:induction false} RunCancelled(p: Session, run: seq<State>, steps: seq<Step>, i: nat, j: nat)
    requires p.Valid() && IsRun(p, run, steps) && i <= j < |run|
    ensures Cancelled(run[i], run[j])
    decreases j
  {
    hide Can, Next, Inv;
    if i < j {
      hide Cancelled;
      RunCancelled(p, run, steps, i, j - 1);
      RunInv(p, run, steps, j - 1);
      StepCancelled(p, run[j - 1], steps[j - 1]);
      CancelledChains(run[i], run[j - 1], run[j]);
    }
  }

  /** The payloads of the first `n` frames, without the `d` opening ones. */
  function Carried(l: Link, n: nat, d: nat): Bytes
    requires n <= |l.sent|
  {
    Payloads(Data(l.sent[..n], d))
  }

  lemma CarriedPrefix(l: Link, l': Link, n: nat, n': nat, d: nat)
    requires n <= n' <= |l'.sent| && n <= |l.sent| && l.sent[..n] == l'.sent[..n]
    ensures Carried(l, n, d) <= Carried(l', n', d)
  {
    var data := Data(l'.sent[..n'], d);
    if n >= d {
      assert Data(l.sent[..n], d) == data[..n - d];
      PayloadsPrefix(data, n - d);
    }
  }

  /** After the plain deadline the frames carry at most what they carried then and what was buffered. */
  lemma MutedCarries(r: Relay, r': Relay, d: nat, n: nat)
    requires Muted(r, r', d) && r.node.dec == Done && n <= |r'.out.sent|
    ensures Carried(r'.out, n, d) <= Carried(r.out, |r.out.sent|, d) + r.node.held
  {
    CarriedPrefix(r'.out, r'.out, n, |r'.out.sent|, d);
    assert r.out.sent[..|r.out.sent|] == r.out.sent && r'.out.sent[..|r'.out.sent|] == r'.out.sent;
    hide Payloads, Data;
  }

  lemma WholeIsSent(p: Session, s: State)
    requires p.Valid() && Inv(p, s)
    ensures s.up.got + Whole(s.up) <= |s.up.sent| && s.down.got + Whole(s.down) <= |s.down.sent|
  {
    LinkWholeIsSent(p.c, p.key, s.up);
    LinkWholeIsSent(p.c, p.key, s.down);
  }

  lemma LinkWholeIsSent(c: Compressor, key: Bytes, l: Link)
    requires Lawful(c) && key != [] && LinkInv(c, key, l)
    ensures l.got + Whole(l) <= |l.sent|
  {
    hide Wire, WholeFrames, Encodable;
    InboxFirst(l);
    WholeAreSent(c, key, l.sent[l.got..], Received(l));
  }

  lemma WrittenIsCarried(p: Session, s: State)
    requires p.Valid() && Inv(p, s)
    ensures s.up.got <= |s.up.sent| && s.server.plainOut <= Carried(s.up, s.up.got, 1)
    ensures s.down.got <= |s.down.sent| && s.client.plainOut <= p.reply + Carried(s.down, s.down.got, 0)
  {
    hide Links.LinkInv, SendInv, Payloads;
    LinkBounds(p, s);
    assert [] + Carried(s.up, s.up.got, 1) == Carried(s.up, s.up.got, 1);
  }

  lemma NothingHeld(p: Session, s: State)
    requires p.Valid() && Inv(p, s)
    ensures s.server.held == []
  {
    hide Links.LinkInv, SendInv, RecvInv, OpeningInv;
  }

  /** Once a node's decoding loop has set its deadline, the peer's plain side never receives more than the frames
      this node had sent by then carry and, on the client, what the handshake had left in the read buffer. Once its
      encoding loop has, the node's own plain side never receives more than the frames parsed by then and those
      whole among the bytes received by then carry. */
  lemma DeadlineHolds(p: Session, run: seq<State>, steps: seq<Step>, i: nat, j: nat)
    requires p.Valid() && IsRun(p, run, steps) && i <= j < |run|
    ensures Cancelled(run[i], run[j])
    ensures var s, t := run[i], run[j];
            && s.up.got + Whole(s.up) <= |s.up.sent| && s.down.got + Whole(s.down) <= |s.down.sent|
            && (s.client.dec == Done ==> t.server.plainOut <= Carried(s.up, |s.up.sent|, 1) + s.client.held)
            && (s.server.dec == Done ==> t.client.plainOut <= p.reply + Carried(s.down, |s.down.sent|, 0))
            && (s.client.enc == Done ==> t.client.plainOut <= p.reply + Carried(s.down, s.down.got + Whole(s.down), 0))
            && (s.server.enc == Done ==> t.server.plainOut <= Carried(s.up, s.up.got + Whole(s.up), 1))
  {
    hide IsRun, Inv, Carried, Whole, Muted;
    var s, t := run[i], run[j];
    RunInv(p, run, steps, i);
    RunInv(p, run, steps, j);
    RunCancelled(p, run, steps, i, j);
    WholeIsSent(p, s);
    WrittenIsCarried(p, t);
    NothingHeld(p, s);
    if s.client.dec == Done {
      MutedCarries(ClientSide(s), ClientSide(t), 1, t.up.got);
    }
    if s.server.dec == Done {
      MutedCarries(ServerSide(s), ServerSide(t), 0, t.down.got);
      assert Carried(s.down, |s.down.sent|, 0) + [] == Carried(s.down, |s.down.sent|, 0);
      PrefixUnder(p.reply, Carried(t.down, t.down.got, 0), Carried(s.down, |s.down.sent|, 0));
    }
    if s.client.enc == Done {
      var n := s.down.got + Whole(s.down);
      CarriedPrefix(t.down, s.down, t.down.got, n, 0);
      PrefixUnder(p.reply, Carried(t.down, t.down.got, 0), Carried(s.down, n, 0));
    }
    if s.server.enc == Done {
      CarriedPrefix(t.up, s.up, t.up.got, s.up.got + Whole(s.up), 1);
    }
  }

  /** Setting a deadline leaves both links as they are. */
  lemma DeadlineSet(p: Session, s: State, step: Step)
    requires p.key != [] && Can(p, s, step)
    requires step in [Client(DecDone), Client(EncDone), Server(DecDone), Server(EncDone)]
    ensures var t := Next(p, s, step);
            && t.up == s.up && t.down == s.down && t.client.held == s.client.held
            && (step == Client(DecDone) ==> t.client.dec == Done) && (step == Client(EncDone) ==> t.client.enc == Done)
            && (step == Server(DecDone) ==> t.server.dec == Done) && (step == Server(EncDone) ==> t.server.enc == Done)
  {
  }

  /** The relay stops its other direction when the first ends, for good and end to end. After the step in which a
      node's decoding loop ends, the peer's plain side never receives more than the frames this node had sent
      before it carry and, on the client, what the handshake had left in the read buffer. After the step in which
      its encoding loop ends, the node's own plain side never receives more than the frames parsed before it and
      those whole among the bytes received before it carry: with no read buffer, at most one. */
  lemma CancelStops(p: Session, run: seq<State>, steps: seq<Step>, i: nat, j: nat)
    requires p.Valid() && IsRun(p, run, steps) && i < j < |run|
    ensures var s, t := run[i], run[j];
            && s.up.got + Whole(s.up) <= |s.up.sent| && s.down.got + Whole(s.down) <= |s.down.sent|
            && (steps[i] == Client(DecDone) ==>
                  t.server.plainOut <= Carried(s.up, |s.up.sent|, 1) + s.client.held)
            && (steps[i] == Server(DecDone) ==>
                  t.client.plainOut <= p.reply + Carried(s.down, |s.down.sent|, 0))
            && (steps[i] == Client(EncDone) ==>
                  t.client.plainOut <= p.reply + Carried(s.down, s.down.got + Whole(s.down), 0))
            && (steps[i] == Server(EncDone) ==>
                  t.server.plainOut <= Carried(s.up, s.up.got + Whole(s.up), 1))
  {
    hide Can, Next, Inv, Carried, Whole, Cancelled;
    RunInv(p, run, steps, i);
    WholeIsSent(p, run[i]);
    if steps[i] in [Client(DecDone), Client(EncDone), Server(DecDone), Server(EncDone)] {
      DeadlineSet(p, run[i], steps[i]);
      DeadlineHolds(p, run, steps, i + 1, j);
    }
  }

  /** The read buffers never exceed their capacity, and with none at most one frame can be whole. */
  lemma {:induction false} BuffersBounded(p: Session, run: seq<State>, steps: seq<Step>, i: nat)
    requires p.Valid() && IsRun(p, run, steps) && i < |run|
    ensures |run[i].up.buffer| <= p.upCap && |run[i].down.buffer| <= p.downCap
    ensures p.upCap == 0 ==> Whole(run[i].up) <= 1
    ensures p.downCap == 0 ==> Whole(run[i].down) <= 1
  {
    hide Inv, Whole, Can, Next, Links.LinkInv;
    RunInv(p, run, steps, i);
    LinksHold(p, run[i]);
    UnbufferedHoldsOne(p.c, p.key, run[i].up);
    UnbufferedHoldsOne(p.c, p.key, run[i].down);
    if i > 0 {
      BuffersBounded(p, run, steps, i - 1);
      StepBuffers(p, run[i - 1], steps[i - 1]);
    }
  }

  lemma StepBuffers(p: Session, s: State, step: Step)
    requires p.Valid() && Can(p, s, step) && |s.up.buffer| <= p.upCap && |s.down.buffer| <= p.downCap
    ensures var t := Next(p, s, step); |t.up.buffer| <= p.upCap && |t.down.buffer| <= p.downCap
  {
    hide Links.CanParse, Links.CanBegin, FrameOf, Wanted, Protocol.ReadFrame;
  }

  lemma UnbufferedHoldsOne(c: Compressor, key: Bytes, l: Link)
    requires key != [] && LinkInv(c, key, l)
    ensures l.buffer == [] ==> Whole(l) <= 1
  {
    hide Wire, Encodable;
    if l.buffer == [] {
      assert Received(l) == l.inbox;
      if HoldsFrame(l.inbox) {
        assert l.inbox[Protocol.HEADER_LEN + Protocol.BodyLen(l.inbox)..] == [];
        assert WholeFrames([]) == 0;
      }
    }
  }

  // ----- which frames are taken -----

  /** After the destination, only the line may be longer than a chunk. */
  ghost predicate SmallFrames(p: Session, s: State) {
    && (forall i {:trigger s.up.sent[i]} :: 1 <= i < |s.up.sent| ==>
          |s.up.sent[i].payload| <= CHUNK || (i == 1 && s.up.sent[i].payload == p.line))
    && (forall i {:trigger s.down.sent[i]} :: 0 <= i < |s.down.sent| ==> |s.down.sent[i].payload| <= CHUNK)
  }

  lemma StepSmall(p: Session, s: State, step: Step)
    requires p.Valid() && Inv(p, s) && SmallFrames(p, s) && Can(p, s, step)
    ensures SmallFrames(p, Next(p, s, step))
  {
    hide Inv, Can, Next, SmallFrames, Links.CanBegin;
    match step
    case Client(rs) =>
      ClientSmall(p, s, rs);
    case Server(rs) =>
      ServerSmall(p, s, rs);
    case _ =>
      OpeningSmall(p, s, step);
  }

  lemma LinksHold(p: Session, s: State)
    requires p.Valid() && Inv(p, s)
    ensures LinkInv(p.c, p.key, s.up) && LinkInv(p.c, p.key, s.down)
  {
  }

  lemma ClientSmall(p: Session, s: State, rs: RelayStep)
    requires p.Valid() && Inv(p, s) && SmallFrames(p, s) && Can(p, s, Client(rs))
    ensures SmallFrames(p, Next(p, s, Client(rs)))
  {
    hide Inv, SmallFrames, RelayCan, RelayNext, Deafened, Links.LinkInv, Links.Parse;
    LinksHold(p, s);
    RelayDeafened(p.c, p.key, ClientSide(s), rs);
    SmallKept(p, s, Next(p, s, Client(rs)));
  }

  lemma ServerSmall(p: Session, s: State, rs: RelayStep)
    requires p.Valid() && Inv(p, s) && SmallFrames(p, s) && Can(p, s, Server(rs))
    ensures SmallFrames(p, Next(p, s, Server(rs)))
  {
    hide Inv, SmallFrames, RelayCan, RelayNext, Deafened, Links.LinkInv, Links.Parse;
    LinksHold(p, s);
    RelayDeafened(p.c, p.key, ServerSide(s), rs);
    SmallKept(p, s, Next(p, s, Server(rs)));
  }

  lemma OpeningSmall(p: Session, s: State, step: Step)
    requires p.Valid() && Inv(p, s) && SmallFrames(p, s) && Can(p, s, step) && !step.Client? && !step.Server?
    ensures SmallFrames(p, Next(p, s, step))
  {
    hide Links.LinkInv, SendInv, RecvInv, ServerInv, Links.CanParse, Links.CanBegin, FrameOf, SmallFrames,
         Protocol.ReadFrame;
    SmallKept(p, s, Next(p, s, step));
  }

  lemma SmallKept(p: Session, s: State, t: State)
    requires SmallFrames(p, s) && s.up.sent <= t.up.sent && s.down.sent <= t.down.sent
    requires |t.up.sent| <= |s.up.sent| + 1 && |t.down.sent| <= |s.down.sent| + 1
    requires forall i :: |s.up.sent| <= i < |t.up.sent| ==>
               i == 0 || (i == 1 && t.up.sent[i].payload == p.line) || |t.up.sent[i].payload| <= CHUNK
    requires forall i :: |s.down.sent| <= i < |t.down.sent| ==> |t.down.sent[i].payload| <= CHUNK
    ensures SmallFrames(p, t)
  {
  }

  lemma {:induction false} RunSmall(p: Session, run: seq<State>, steps: seq<Step>, i: nat)
    requires p.Valid() && IsRun(p, run, steps) && i < |run|
    ensures SmallFrames(p, run[i])
  {
    hide Can, Next, Inv;
    if i > 0 {
      RunSmall(p, run, steps, i - 1);
      RunInv(p, run, steps, i - 1);
      StepSmall(p, run[i - 1], steps[i - 1]);
    }
  }

  /** Neither node ever refuses a frame of the other, except an opening frame that is too long: a whole frame
      in an inbox is taken exactly when its message fits, and every chunk of a relay does. */
  lemma FramesTaken(p: Session, run: seq<State>, steps: seq<Step>, i: nat)
    requires p.Valid() && IsRun(p, run, steps) && i < |run|
    ensures var l := run[i].up; HoldsFrame(l.inbox) ==>
              && l.got < |l.sent| && (CanParse(p.c, p.key, l) <==> Fits(p.c, l.sent[l.got]))
              && (l.got >= 2 || (l.got == 1 && p.line == []) ==> CanParse(p.c, p.key, l))
    ensures var l := run[i].down; HoldsFrame(l.inbox) ==> CanParse(p.c, p.key, l)
  {
    hide Can, Next, IsRun, OpeningInv, ServerInv, SendInv, RecvInv, Lawful, Fits, Links.CanParse;
    RunInv(p, run, steps, i);
    RunSmall(p, run, steps, i);
    var s := run[i];
    if HoldsFrame(s.up.inbox) {
      LinkFrameTaken(p.c, p.key, s.up);
    }
    if HoldsFrame(s.down.inbox) {
      LinkFrameTaken(p.c, p.key, s.down);
    }
  }

  lemma LinkFrameTaken(c: Compressor, key: Bytes, l: Link)
    requires Lawful(c) && key != [] && LinkInv(c, key, l) && HoldsFrame(l.inbox)
    ensures l.got < |l.sent| && (CanParse(c, key, l) <==> Fits(c, l.sent[l.got]))
    ensures |l.sent[l.got].payload| <= CHUNK ==> Fits(c, l.sent[l.got])
  {
    TakenExactlyWhen(c, key, l);
    if |l.sent[l.got].payload| <= CHUNK {
      ChunksFit(c, l.sent[l.got]);
    }
  }
}
