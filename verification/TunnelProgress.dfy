/** Delivery through the tunnel is always possible: a healthy direction can be driven until everything that
    arrived at one end has been written at the other. */
module TunnelProgress {
  import opened Bytes
  import opened Compress
  import opened Framing
  import opened Links
  import Protocol
  import opened Tunnel
  import opened TunnelSafety

  datatype Way = Upload | Download

  function From(s: State, w: Way): Node {
    if w.Upload? then s.client else s.server
  }

  function To(s: State, w: Way): Node {
    if w.Upload? then s.server else s.client
  }

  function Lane(s: State, w: Way): Link {
    if w.Upload? then s.up else s.down
  }

  // ----- the steps of one direction -----

  function Flushing(w: Way, k: nat): Step {
    if w.Upload? then FlushUp(k) else FlushDown(k)
  }

  function Feeding(w: Way, k: nat): Step {
    if w.Upload? then FeedUp(k) else FeedDown(k)
  }

  function Taking(w: Way, k: nat): Step {
    if w.Upload? then TakeUp(k) else TakeDown(k)
  }

  function Delivering(w: Way, k: nat): Step {
    if w.Upload? then FlushTarget(k) else FlushApp(k)
  }

  function Sending(w: Way, rs: RelayStep): Step {
    if w.Upload? then Client(rs) else Server(rs)
  }

  function Receiving(w: Way, rs: RelayStep): Step {
    if w.Upload? then Server(rs) else Client(rs)
  }

  // ----- healthy and settled -----

  /** Both nodes relay, the two loops of this direction run, no write has failed and the frames on their way are not
      too long for the receiver. No deadline holds anything up: the one on the sender's plain side finds all it is to
      read in the handshake's buffer, the one on the receiver's framed side all of it in the connection's buffer. */
  ghost predicate Healthy(p: Session, s: State, w: Way) {
    && s.cphase == ClientRelay && s.sphase == ServerRelay
    && From(s, w).enc.Active() && (From(s, w).dec == Done ==> From(s, w).plainBuf == [])
    && To(s, w).dec.Active() && !To(s, w).plainBroken
    && (To(s, w).enc == Done ==> Lane(s, w).wire == [] && Lane(s, w).pending == [] && Unread(From(s, w)) == [])
    && !Lane(s, w).broken
    && forall i {:trigger Lane(s, w).sent[i]} ::
         Lane(s, w).got <= i < |Lane(s, w).sent| ==> Fits(p.c, Lane(s, w).sent[i])
  }

  /** Everything has gone through. */
  predicate Settled(s: State, w: Way) {
    Drained(Lane(s, w)) && Unread(From(s, w)) == [] && To(s, w).plainPending == []
  }

  function Busy(s: State, w: Way): nat {
    (if From(s, w).enc == Writing then 1 else 0) + (if To(s, w).dec == Writing then 1 else 0)
  }

  /** The bytes are further along: fewer are unread, or unwritten, or on the wire, and so on to the end. */
  ghost predicate Further(s: State, t: State, w: Way) {
    var a, b, n, m := Lane(s, w), Lane(t, w), |Unread(From(s, w))|, |Unread(From(t, w))|;
    var out, out' := |To(s, w).plainPending|, |To(t, w).plainPending|;
    || m < n
    || (m == n && |b.pending| < |a.pending|)
    || (m == n && |b.pending| == |a.pending| && |b.wire| < |a.wire|)
    || (m == n && |b.pending| == |a.pending| && |b.wire| == |a.wire| && |b.buffer| < |a.buffer|)
    || (m == n && |b.pending| == |a.pending| && |b.wire| == |a.wire| && |b.buffer| == |a.buffer| &&
        |b.inbox| < |a.inbox|)
    || (m == n && |b.pending| == |a.pending| && |b.wire| == |a.wire| && |b.buffer| == |a.buffer| &&
        |b.inbox| == |a.inbox| && out' < out)
    || (m == n && |b.pending| == |a.pending| && |b.wire| == |a.wire| && |b.buffer| == |a.buffer| &&
        |b.inbox| == |a.inbox| && out' == out && Busy(t, w) < Busy(s, w))
  }

  /** A step that is possible, keeps the direction healthy, lets nothing new arrive and brings bytes further. */
  ghost predicate Advances(p: Session, s: State, step: Step, w: Way)
    requires p.key != []
  {
    Can(p, s, step) &&
    var t := Next(p, s, step);
    Healthy(p, t, w) && From(t, w).plainIn == From(s, w).plainIn && Further(s, t, w)
  }

  // ----- one advance -----

  lemma DeliverAdvances(p: Session, s: State, w: Way)
    requires p.Valid() && Healthy(p, s, w) && To(s, w).plainPending != []
    ensures Advances(p, s, Delivering(w, |To(s, w).plainPending|), w)
  {
    hide Fits;
  }

  lemma WroteAdvances(p: Session, s: State, w: Way)
    requires p.Valid() && Healthy(p, s, w) && To(s, w).plainPending == [] && To(s, w).dec == Writing
    ensures Advances(p, s, Receiving(w, PlainWrote), w)
  {
    hide Fits;
  }

  lemma DecodeAdvances(p: Session, s: State, w: Way)
    requires p.Valid() && Inv(p, s) && Healthy(p, s, w) && To(s, w).dec == Reading && HoldsFrame(Lane(s, w).inbox)
    ensures Advances(p, s, Receiving(w, Decode), w)
  {
    hide Inv, Links.LinkInv, HoldsFrame, Fits, RelayCan, RelayNext;
    LinksHold(p, s);
    var r := if w.Upload? then ServerSide(s) else ClientSide(s);
    assert r.inn == Lane(s, w);
    TakenExactlyWhen(p.c, p.key, r.inn);
    RelayDecodes(p.c, p.key, r);
    HeldIsNotEmpty(r.inn);
  }

  lemma HeldIsNotEmpty(l: Link)
    requires HoldsFrame(l.inbox)
    ensures l.inbox != []
  {
  }

  lemma RelayDecodes(c: Compressor, key: Bytes, r: Relay)
    requires Lawful(c) && key != [] && LinkInv(c, key, r.inn) && CanParse(c, key, r.inn)
    requires r.node.dec == Reading && !r.node.plainBroken
    ensures RelayCan(c, key, r, Decode)
    ensures r.inn.got < |r.inn.sent| &&
            RelayNext(c, key, r, Decode) ==
            Relay(r.node.(dec := Writing, plainPending := r.inn.sent[r.inn.got].payload),
                  r.out, r.inn.(inbox := [], got := r.inn.got + 1))
  {
    ParseKeeps(c, key, r.inn);
    hide Links.LinkInv, Links.CanParse, Links.Parse;
  }

  lemma FeedAdvances(p: Session, s: State, w: Way)
    requires p.Valid() && Healthy(p, s, w) && To(s, w).dec == Reading
    requires |Lane(s, w).inbox| < Wanted(Lane(s, w).inbox) && Lane(s, w).buffer != []
    ensures Advances(p, s, Feeding(w, 1), w)
  {
    hide Fits, Wanted;
  }

  lemma TakeAdvances(p: Session, s: State, w: Way)
    requires p.Valid() && Healthy(p, s, w) && To(s, w).dec == Reading
    requires |Lane(s, w).inbox| < Wanted(Lane(s, w).inbox) && Lane(s, w).buffer == [] && Lane(s, w).wire != []
    ensures Advances(p, s, Taking(w, 1), w)
  {
    hide Fits, Wanted;
  }

  lemma FlushAdvances(p: Session, s: State, w: Way)
    requires p.Valid() && Healthy(p, s, w) && Lane(s, w).pending != []
    ensures Advances(p, s, Flushing(w, |Lane(s, w).pending|), w)
  {
    hide Fits;
  }

  lemma WireWroteAdvances(p: Session, s: State, w: Way)
    requires p.Valid() && Healthy(p, s, w) && Lane(s, w).pending == [] && From(s, w).enc == Writing
    ensures Advances(p, s, Sending(w, WireWrote), w)
  {
    hide Fits;
  }

  lemma ReadAdvances(p: Session, s: State, w: Way)
    requires p.Valid() && Healthy(p, s, w) && Lane(s, w).pending == [] && From(s, w).enc == Reading
    requires Unread(From(s, w)) != []
    ensures Advances(p, s, Sending(w, ReadChunk(1, 0)), w)
  {
    hide Fits, Links.CanBegin, FrameOf, Lawful;
    var n, l := From(s, w), Lane(s, w);
    var m := Message(Readable(n)[..1], 0);
    ChunkCanBegin(p.c, l, m.payload, 0);
    ChunksFit(p.c, m);
    ReadsInOrder(n, 1);
    var t := Next(p, s, Sending(w, ReadChunk(1, 0)));
    assert Lane(t, w).sent == l.sent + [m];
  }

  /** Where nothing can move, no byte of a frame is left: a partial frame would have its rest behind it. */
  lemma NothingLeft(c: Compressor, key: Bytes, l: Link)
    requires Lawful(c) && key != [] && LinkInv(c, key, l) && !l.broken && !HoldsFrame(l.inbox)
    requires l.pending == [] && l.wire == [] && l.buffer == []
    ensures l.inbox == []
  {
    hide Wire, Encodable, HoldsFrame;
    var ms := l.sent[l.got..];
    assert l.inbox == Wire(c, key, ms);
    BeginsWithFrame(c, key, ms);
  }

  lemma BeginsWithFrame(c: Compressor, key: Bytes, ms: seq<Message>)
    requires key != [] && AllEncodable(c, ms)
    ensures Wire(c, key, ms) == [] || HoldsFrame(Wire(c, key, ms))
  {
    hide FrameOf, Encodable, Uint32;
    if ms != [] {
      FrameParts(c, key, ms[0], Wire(c, key, ms[1..]));
    }
  }

  lemma Advance(p: Session, s: State, w: Way) returns (step: Step)
    requires p.Valid() && Inv(p, s) && Healthy(p, s, w) && !Settled(s, w)
    ensures Advances(p, s, step, w)
  {
    LinksHold(p, s);
    hide Inv, Advances, Healthy, Links.LinkInv;
    var l := Lane(s, w);
    Stages(p, s, w);
    if To(s, w).plainPending != [] {
      step := Delivering(w, |To(s, w).plainPending|);
      DeliverAdvances(p, s, w);
    } else if To(s, w).dec == Writing {
      step := Receiving(w, PlainWrote);
      WroteAdvances(p, s, w);
    } else if HoldsFrame(l.inbox) {
      step := Receiving(w, Decode);
      DecodeAdvances(p, s, w);
    } else if l.buffer != [] {
      step := Feeding(w, 1);
      FeedAdvances(p, s, w);
    } else if l.wire != [] {
      step := Taking(w, 1);
      TakeAdvances(p, s, w);
    } else if l.pending != [] {
      step := Flushing(w, |l.pending|);
      FlushAdvances(p, s, w);
    } else if From(s, w).enc == Writing {
      step := Sending(w, WireWrote);
      WireWroteAdvances(p, s, w);
    } else {
      NothingLeft(p.c, p.key, l);
      step := Sending(w, ReadChunk(1, 0));
      ReadAdvances(p, s, w);
    }
  }

  lemma Stages(p: Session, s: State, w: Way)
    requires Healthy(p, s, w)
    ensures !Lane(s, w).broken
    ensures To(s, w).dec == Reading || To(s, w).dec == Writing
    ensures From(s, w).enc == Reading || From(s, w).enc == Writing
  {
  }

  // ----- until everything has gone through -----

  /** These steps lead from one state to the other. */
  ghost predicate Leads(p: Session, s: State, steps: seq<Step>, t: State)
    requires p.key != []
    decreases |steps|
  {
    if steps == [] then t == s else Can(p, s, steps[0]) && Leads(p, Next(p, s, steps[0]), steps[1..], t)
  }

  lemma LeadsOn(p: Session, s: State, step: Step, steps: seq<Step>, t: State)
    requires p.key != [] && Can(p, s, step) && Leads(p, Next(p, s, step), steps, t)
    ensures Leads(p, s, [step] + steps, t)
  {
    assert ([step] + steps)[1..] == steps;
  }

  lemma {:induction false} Settle(p: Session, s: State, w: Way) returns (steps: seq<Step>, t: State)
    requires p.Valid() && Inv(p, s) && Healthy(p, s, w)
    ensures Leads(p, s, steps, t) && Inv(p, t) && Healthy(p, t, w) && Settled(t, w)
    ensures From(t, w).plainIn == From(s, w).plainIn
    decreases |Unread(From(s, w))|, |Lane(s, w).pending|, |Lane(s, w).wire|, |Lane(s, w).buffer|,
              |Lane(s, w).inbox|, |To(s, w).plainPending|, Busy(s, w)
  {
    if Settled(s, w) {
      steps, t := [], s;
    } else {
      hide Inv, Can, Next, Healthy, Settled, Leads;
      var step := Advance(p, s, w);
      StepKeeps(p, s, step);
      var more;
      more, t := Settle(p, Next(p, s, step), w);
      steps := [step] + more;
      LeadsOn(p, s, step, more, t);
    }
  }

  function Intro(p: Session, w: Way): Bytes {
    if w.Upload? then p.line else p.reply
  }

  /** From every reachable state in which a direction is healthy there are steps after which nothing is on its
      way and all that arrived at one end has been written at the other, after the line or the reply. */
  lemma DeliveryPossible(p: Session, run: seq<State>, steps: seq<Step>, i: nat, w: Way)
      returns (more: seq<Step>, t: State)
    requires p.Valid() && IsRun(p, run, steps) && i < |run| && Healthy(p, run[i], w)
    ensures Leads(p, run[i], more, t) && Settled(t, w)
    ensures To(t, w).plainOut == Intro(p, w) + From(run[i], w).plainIn
  {
    hide IsRun, Can, Next, Leads;
    RunInv(p, run, steps, i);
    more, t := Settle(p, run[i], w);
    SettledIsDelivered(p, t, w);
  }

  lemma SettledIsDelivered(p: Session, t: State, w: Way)
    requires p.Valid() && Inv(p, t) && Healthy(p, t, w) && Settled(t, w)
    ensures To(t, w).plainOut == Intro(p, w) + From(t, w).plainIn
  {
    LinksHold(p, t);
    DrainedIsParsed(p.c, p.key, Lane(t, w));
    LinkBounds(p, t);
    hide SendInv, RecvInv, Links.LinkInv, OpeningInv, ServerInv, Payloads;
    if w.Upload? {
      OneWayConserved([], LineOut(p, t), t.up, 1, t.client, t.server);
    } else {
      OneWayConserved(ReplyOut(p, t), [], t.down, 0, t.server, t.client);
    }
    UnparsedNothing(Lane(t, w));
    var out := To(t, w).plainOut;
    assert out + [] + [] + [] + [] == out;
    assert [] + p.line == p.line && p.reply + [] == p.reply;
  }

  lemma UnparsedNothing(l: Link)
    requires l.got == |l.sent|
    ensures Payloads(Unparsed(l, 0)) == [] && Payloads(Unparsed(l, 1)) == []
  {
  }
}
