/** How a tunnel begins and ends: the loops that fail stay ended, every relay can be brought to an end, and from the
    start there are steps that open a session and carry whatever is sent. */
module TunnelEnds {
  import opened Bytes
  import opened Compress
  import opened Framing
  import opened Links
  import Protocol
  import opened Tunnel
  import opened TunnelProgress
  import opened TunnelSafety

  // ----- a loop that has ended stays ended -----

  /** After the end of its encoding loop a node sends no frame and reads no buffered bytes. */
  ghost predicate EncStays(r: Relay, r': Relay) {
    !r.node.enc.Active() ==>
      !r'.node.enc.Active() && r'.out.sent == r.out.sent && r'.node.held == r.node.held
  }

  /** After the end of its decoding loop it returns no packet and writes nothing. */
  ghost predicate DecStays(r: Relay, r': Relay) {
    !r.node.dec.Active() && r.node.plainPending == [] ==>
      && !r'.node.dec.Active() && r'.node.plainPending == []
      && r'.node.plainOut == r.node.plainOut && r'.inn.got == r.inn.got
  }

  ghost predicate Stays(s: State, t: State) {
    && (s.cphase == ClientRelay ==>
          t.cphase == ClientRelay && EncStays(ClientSide(s), ClientSide(t)) && DecStays(ClientSide(s), ClientSide(t)))
    && (s.sphase == ServerRelay ==>
          t.sphase == ServerRelay && EncStays(ServerSide(s), ServerSide(t)) && DecStays(ServerSide(s), ServerSide(t)))
  }

  lemma RelayStays(c: Compressor, key: Bytes, r: Relay, step: RelayStep)
    requires key != [] && RelayCan(c, key, r, step)
    ensures var r' := RelayNext(c, key, r, step);
            && EncStays(r, r') && DecStays(r, r') && r'.inn.sent == r.inn.sent && r'.out.got == r.out.got
  {
    hide Links.CanParse, Links.CanBegin, FrameOf, Protocol.ReadFrame;
  }

  lemma ClientStays(p: Session, s: State, rs: RelayStep)
    requires p.Valid() && Can(p, s, Client(rs))
    ensures Stays(s, Next(p, s, Client(rs)))
  {
    hide RelayCan, RelayNext;
    RelayStays(p.c, p.key, ClientSide(s), rs);
  }

  lemma ServerStays(p: Session, s: State, rs: RelayStep)
    requires p.Valid() && Can(p, s, Server(rs))
    ensures Stays(s, Next(p, s, Server(rs)))
  {
    hide RelayCan, RelayNext;
    RelayStays(p.c, p.key, ServerSide(s), rs);
  }

  lemma StepStays(p: Session, s: State, step: Step)
    requires p.Valid() && Can(p, s, step)
    ensures Stays(s, Next(p, s, step))
  {
    if step.Client? {
      hide Can, Next, Stays;
      ClientStays(p, s, step.rs);
    } else if step.Server? {
      hide Can, Next, Stays;
      ServerStays(p, s, step.rs);
    } else {
      hide Links.CanParse, Links.CanBegin, FrameOf, Protocol.ReadFrame, Wanted;
    }
  }

  lemma {:induction false} RunStays(p: Session, run: seq<State>, steps: seq<Step>, i: nat, j: nat)
    requires p.Valid() && IsRun(p, run, steps) && i <= j < |run|
    ensures Stays(run[i], run[j])
    decreases j
  {
    hide Can, Next, Stays;
    if i == j {
      StaysSelf(run[i]);
    } else {
      RunStays(p, run, steps, i, j - 1);
      StepStays(p, run[j - 1], steps[j - 1]);
      StaysOn(run[i], run[j - 1], run[j]);
    }
  }

  lemma StaysSelf(s: State)
    ensures Stays(s, s)
  {
  }

  lemma StaysOn(s: State, t: State, u: State)
    requires Stays(s, t) && Stays(t, u)
    ensures Stays(s, u)
  {
  }

  /** A step in which a loop fails. */
  predicate FailsEnc(rs: RelayStep) {
    rs.ReadError? || rs.WireBroke?
  }

  predicate FailsDec(rs: RelayStep) {
    rs.DecodeError? || rs.PlainBroke?
  }

  lemma ClientFails(p: Session, s: State, rs: RelayStep)
    requires p.Valid() && Inv(p, s) && Can(p, s, Client(rs))
    ensures var t := Next(p, s, Client(rs));
            && t.cphase == s.cphase
            && (FailsEnc(rs) ==> s.cphase == ClientRelay && !t.client.enc.Active() && t.up.sent == s.up.sent)
            && (rs.ReadError? ==> t.client.held == [])
            && (FailsDec(rs) ==>
                  && s.cphase == ClientRelay && !t.client.dec.Active() && t.client.plainPending == []
                  && t.client.plainOut == s.client.plainOut && t.down.got == s.down.got)
  {
    hide Links.LinkInv, SendInv, RecvInv, Links.CanParse, Links.CanBegin, FrameOf, Protocol.ReadFrame, ServerInv;
  }

  lemma ServerFails(p: Session, s: State, rs: RelayStep)
    requires p.Valid() && Inv(p, s) && Can(p, s, Server(rs))
    ensures var t := Next(p, s, Server(rs));
            && t.sphase == s.sphase
            && (FailsEnc(rs) ==> s.sphase == ServerRelay && !t.server.enc.Active() && t.down.sent == s.down.sent)
            && (FailsDec(rs) ==>
                  && s.sphase == ServerRelay && !t.server.dec.Active() && t.server.plainPending == []
                  && t.server.plainOut == s.server.plainOut && t.up.got == s.up.got)
  {
    hide Links.LinkInv, SendInv, RecvInv, Links.CanParse, Links.CanBegin, FrameOf, Protocol.ReadFrame, OpeningInv;
  }

  /** A copy loop ends with its first error: after the step in which reading or writing fails in an encoding loop the
      node sends no further frame, and after the one in which its decoding loop fails it returns no further packet
      and writes nothing more. A read fails only when nothing is left in the handshake's buffer. */
  lemma FirstErrorEnds(p: Session, run: seq<State>, steps: seq<Step>, i: nat, j: nat)
    requires p.Valid() && IsRun(p, run, steps) && i < j < |run|
    ensures var s, t := run[i], run[j];
            && (steps[i].Client? && FailsEnc(steps[i].rs) ==> t.up.sent == s.up.sent)
            && (steps[i].Server? && FailsEnc(steps[i].rs) ==> t.down.sent == s.down.sent)
            && (steps[i].Client? && steps[i].rs.ReadError? ==> t.client.held == [])
            && (steps[i].Client? && FailsDec(steps[i].rs) ==>
                  t.down.got == s.down.got && t.client.plainOut == s.client.plainOut)
            && (steps[i].Server? && FailsDec(steps[i].rs) ==>
                  t.up.got == s.up.got && t.server.plainOut == s.server.plainOut)
  {
    hide Can, Next, Inv;
    RunInv(p, run, steps, i);
    RunStays(p, run, steps, i + 1, j);
    if steps[i].Client? {
      ClientFails(p, run[i], steps[i].rs);
    } else if steps[i].Server? {
      ServerFails(p, run[i], steps[i].rs);
    }
  }

  // ----- only a loop that has failed cancels the other -----

  /** A step of the client, or of the server, in which its encoding loop fails. */
  predicate EncFailure(step: Step, client: bool) {
    (if client then step.Client? else step.Server?) && FailsEnc(step.rs)
  }

  function NodeOf(s: State, client: bool): Node {
    if client then s.client else s.server
  }

  /** The decoding loop also ends with a packet for a plain side that is broken already. */
  predicate DecFailure(s: State, step: Step, client: bool) {
    (if client then step.Client? else step.Server?) &&
    (FailsDec(step.rs) || (step.rs.Decode? && NodeOf(s, client).plainBroken))
  }

  lemma RelayEnds(c: Compressor, key: Bytes, r: Relay, step: RelayStep)
    requires key != [] && RelayCan(c, key, r, step)
    ensures var n, n' := r.node, RelayNext(c, key, r, step).node;
            && (n'.enc == Ended && n.enc != Ended ==> FailsEnc(step))
            && (n'.dec == Ended && n.dec != Ended ==> FailsDec(step) || (step.Decode? && n.plainBroken))
  {
    hide Links.CanParse, Links.CanBegin, FrameOf, Protocol.ReadFrame;
  }

  lemma EndsByFailure(p: Session, s: State, step: Step, client: bool)
    requires p.Valid() && Can(p, s, step)
    ensures var n, n' := NodeOf(s, client), NodeOf(Next(p, s, step), client);
            && (n'.enc == Ended && n.enc != Ended ==> EncFailure(step, client))
            && (n'.dec == Ended && n.dec != Ended ==> DecFailure(s, step, client))
  {
    if step.Client? {
      hide RelayCan, RelayNext;
      RelayEnds(p.c, p.key, ClientSide(s), step.rs);
    } else if step.Server? {
      hide RelayCan, RelayNext;
      RelayEnds(p.c, p.key, ServerSide(s), step.rs);
    } else {
      hide Links.CanParse, Links.CanBegin, FrameOf, Protocol.ReadFrame, Wanted;
    }
  }

  lemma {:induction false} EndedBecause(p: Session, run: seq<State>, steps: seq<Step>, i: nat, client: bool)
    requires p.Valid() && IsRun(p, run, steps) && i < |run|
    ensures NodeOf(run[i], client).enc == Ended ==> exists k :: 0 <= k < i && EncFailure(steps[k], client)
    ensures NodeOf(run[i], client).dec == Ended ==> exists k :: 0 <= k < i && DecFailure(run[k], steps[k], client)
  {
    hide Can, Next, EncFailure, DecFailure;
    if i > 0 {
      EndedBecause(p, run, steps, i - 1, client);
      EndsByFailure(p, run[i - 1], steps[i - 1], client);
    }
  }

  lemma DoneNeedsEnded(p: Session, s: State, client: bool)
    requires p.key != []
    ensures Can(p, s, if client then Client(EncDone) else Server(EncDone)) ==> NodeOf(s, client).enc == Ended
    ensures Can(p, s, if client then Client(DecDone) else Server(DecDone)) ==> NodeOf(s, client).dec == Ended
  {
  }

  /** A direction is cancelled only because the other one has failed: a deadline is set only after an earlier step of
      the run in which the loop that sets it met its error. */
  lemma CancelledBecause(p: Session, run: seq<State>, steps: seq<Step>, i: nat, client: bool)
    requires p.Valid() && IsRun(p, run, steps) && i < |steps|
    ensures steps[i] == (if client then Client(EncDone) else Server(EncDone)) ==>
              exists k :: 0 <= k < i && EncFailure(steps[k], client)
    ensures steps[i] == (if client then Client(DecDone) else Server(DecDone)) ==>
              exists k :: 0 <= k < i && DecFailure(run[k], steps[k], client)
  {
    hide Can, Next, EncFailure, DecFailure;
    EndedBecause(p, run, steps, i, client);
    DoneNeedsEnded(p, run[i], client);
  }

  // ----- after an early return, or a reply that could not be written -----

  function PacketsLeft(s: State): nat {
    s.down.got + if s.client.dec.Active() then 1 else 0
  }

  ghost predicate StaysShut(s: State, t: State) {
    && (s.cphase == ClientClosed && s.client.plainPending == [] ==>
          t.cphase == ClientClosed && t.client.plainPending == [] && t.up.sent == s.up.sent &&
          t.client.plainOut == s.client.plainOut)
    && (s.sphase == ServerClosed && s.server.plainPending == [] ==>
          t.sphase == ServerClosed && t.server.plainPending == [] && t.down.sent == s.down.sent &&
          t.server.plainOut == s.server.plainOut && t.up.got == s.up.got)
    && ((s.cphase == PreWriting || s.cphase == ClientRelay) && s.client.plainBroken && s.client.plainPending == [] ==>
          && (t.cphase == PreWriting || t.cphase == ClientRelay) && t.client.plainBroken && t.client.plainPending == []
          && t.client.plainOut == s.client.plainOut && PacketsLeft(t) <= PacketsLeft(s))
  }

  lemma RelayShut(c: Compressor, key: Bytes, r: Relay, step: RelayStep)
    requires key != [] && RelayCan(c, key, r, step) && r.node.plainBroken && r.node.plainPending == []
    ensures var r' := RelayNext(c, key, r, step);
            && r'.node.plainBroken && r'.node.plainPending == [] && r'.node.plainOut == r.node.plainOut
            && r'.inn.got + (if r'.node.dec.Active() then 1 else 0) <=
               r.inn.got + (if r.node.dec.Active() then 1 else 0)
  {
    hide Links.CanParse, Links.CanBegin, FrameOf, Protocol.ReadFrame;
  }

  lemma RelayLeaves(c: Compressor, key: Bytes, r: Relay, step: RelayStep)
    requires key != [] && RelayCan(c, key, r, step)
    ensures var r' := RelayNext(c, key, r, step);
            && r'.out.got == r.out.got && r'.inn.sent == r.inn.sent
            && (step.Arrive? ==>
                  && r'.out == r.out && r'.inn == r.inn && r'.node.plainOut == r.node.plainOut
                  && r'.node.plainPending == r.node.plainPending && r'.node.dec == r.node.dec)
  {
    hide Links.CanParse, Links.CanBegin, FrameOf, Protocol.ReadFrame;
  }

  lemma StepShut(p: Session, s: State, step: Step)
    requires p.Valid() && Can(p, s, step)
    ensures StaysShut(s, Next(p, s, step))
  {
    if step.Client? {
      hide RelayCan, RelayNext;
      RelayLeaves(p.c, p.key, ClientSide(s), step.rs);
      if s.client.plainBroken && s.client.plainPending == [] {
        RelayShut(p.c, p.key, ClientSide(s), step.rs);
      }
    } else if step.Server? {
      hide RelayCan, RelayNext;
      RelayLeaves(p.c, p.key, ServerSide(s), step.rs);
    } else {
      hide Links.CanParse, Links.CanBegin, FrameOf, Protocol.ReadFrame, Wanted;
    }
  }

  lemma ShutOn(s: State, t: State, u: State)
    requires StaysShut(s, t) && StaysShut(t, u)
    ensures StaysShut(s, u)
  {
  }

  lemma ShutSelf(s: State)
    ensures StaysShut(s, s)
  {
  }

  lemma {:induction false} RunShut(p: Session, run: seq<State>, steps: seq<Step>, i: nat, j: nat)
    requires p.Valid() && IsRun(p, run, steps) && i <= j < |run|
    ensures StaysShut(run[i], run[j])
    decreases j
  {
    hide Can, Next, StaysShut;
    if i == j {
      ShutSelf(run[i]);
    } else {
      RunShut(p, run, steps, i, j - 1);
      StepShut(p, run[j - 1], steps[j - 1]);
      ShutOn(run[i], run[j - 1], run[j]);
    }
  }

  lemma AbortStep(p: Session, s: State, step: Step)
    requires p.Valid() && Inv(p, s) && Can(p, s, step) && (step.ClientAbort? || step.ServerAbort? || step.PreFnBroke?)
    ensures var t := Next(p, s, step);
            && t.up.sent == s.up.sent && t.down.sent == s.down.sent && t.up.got == s.up.got && t.down.got == s.down.got
            && t.client.plainOut == s.client.plainOut && t.server.plainOut == s.server.plainOut
            && (step.ClientAbort? ==>
                  t.cphase == ClientClosed && t.client.plainPending == [] && s.client.plainOut == [])
            && (step.ServerAbort? ==> t.sphase == ServerClosed && t.server.plainPending == [] && s.down.sent == [])
            && (step.PreFnBroke? ==> t.cphase == PreWriting && t.client.plainBroken && t.client.plainPending == [])
  {
    hide Links.LinkInv, SendInv, RecvInv;
  }

  /** After an early return a node sends no further frame and writes nothing, and the server takes no further packet.
      After a PreFn reply that could not be written the application receives nothing more, and at most one more packet
      is taken for it. */
  lemma AbortEnds(p: Session, run: seq<State>, steps: seq<Step>, i: nat, j: nat)
    requires p.Valid() && IsRun(p, run, steps) && i < j < |run|
    ensures var s, t := run[i], run[j];
            && (steps[i].ClientAbort? ==> t.up.sent == s.up.sent && t.client.plainOut == [])
            && (steps[i].ServerAbort? ==>
                  t.down.sent == [] && t.up.got == s.up.got && t.server.plainOut == s.server.plainOut)
            && (steps[i].PreFnBroke? ==> t.client.plainOut == s.client.plainOut && t.down.got <= s.down.got + 1)
  {
    hide Can, Next, Inv;
    RunInv(p, run, steps, i);
    RunShut(p, run, steps, i + 1, j);
    if steps[i].ClientAbort? || steps[i].ServerAbort? || steps[i].PreFnBroke? {
      AbortStep(p, run[i], steps[i]);
    }
  }

  // ----- steps one after the other -----

  lemma {:induction false} LeadsBoth(p: Session, s: State, a: seq<Step>, t: State, b: seq<Step>, u: State)
    requires p.key != [] && Leads(p, s, a, t) && Leads(p, t, b, u)
    ensures Leads(p, s, a + b, u)
    decreases |a|
  {
    hide Can, Next;
    if a == [] {
      assert a + b == b;
    } else {
      LeadsBoth(p, Next(p, s, a[0]), a[1..], t, b, u);
      assert (a + b)[0] == a[0] && (a + b)[1..] == a[1..] + b;
    }
  }

  /** A state reached by some steps, with the invariant. */
  ghost predicate Reaches(p: Session, s: State, steps: seq<Step>, t: State)
    requires p.Valid()
  {
    Leads(p, s, steps, t) && Inv(p, t)
  }

  lemma ReachesSelf(p: Session, s: State)
    requires p.Valid() && Inv(p, s)
    ensures Reaches(p, s, [], s)
  {
    hide Inv;
  }

  lemma ReachesNext(p: Session, s: State, a: seq<Step>, t: State, step: Step)
    requires p.Valid() && Reaches(p, s, a, t) && Can(p, t, step)
    ensures Reaches(p, s, a + [step], Next(p, t, step))
  {
    hide Can, Next, Inv;
    StepKeeps(p, t, step);
    assert [step][1..] == [];
    assert Leads(p, t, [step], Next(p, t, step));
    LeadsBoth(p, s, a, t, [step], Next(p, t, step));
  }

  // ----- a relay can always be brought to an end -----

  predicate Relaying(s: State) {
    s.cphase == ClientRelay && s.sphase == ServerRelay
  }

  /** How many of the four loops have set their deadlines, and how far the others are from it. */
  function PumpLeft(u: Pump): nat {
    match u
    case Reading => 3
    case Writing => 2
    case Ended => 1
    case Done => 0
  }

  function LoopsLeft(s: State): nat {
    PumpLeft(s.client.enc) + PumpLeft(s.client.dec) + PumpLeft(s.server.enc) + PumpLeft(s.server.dec)
  }

  /** The next step towards the end of one node's relay. */
  function Stopping(r: Relay): RelayStep {
    if r.node.enc == Reading then (if r.node.held == [] then ReadError(0) else ReadChunk(1, 0))
    else if r.node.enc == Writing then WireBroke
    else if r.node.enc == Ended then EncDone
    else if r.node.dec == Reading then DecodeError
    else if r.node.dec == Writing then PlainBroke
    else DecDone
  }

  lemma StoppingWorks(c: Compressor, key: Bytes, r: Relay)
    requires Lawful(c) && key != [] && (r.node.enc != Done || r.node.dec != Done)
    requires r.node.enc == Reading ==> !r.out.broken && r.out.pending == []
    ensures RelayCan(c, key, r, Stopping(r))
    ensures var n, n' := r.node, RelayNext(c, key, r, Stopping(r)).node;
            PumpLeft(n'.enc) + PumpLeft(n'.dec) < PumpLeft(n.enc) + PumpLeft(n.dec)
  {
    hide Links.CanBegin, FrameOf, Lawful;
    if r.node.enc == Reading && r.node.held != [] {
      ChunkCanBegin(c, r.out, Readable(r.node)[..1], 0);
    }
  }

  lemma ClientStep(p: Session, s: State, rs: RelayStep)
    requires p.key != [] && s.cphase == ClientRelay && RelayCan(p.c, p.key, ClientSide(s), rs)
    ensures Can(p, s, Client(rs))
    ensures var r := RelayNext(p.c, p.key, ClientSide(s), rs);
            Next(p, s, Client(rs)) == s.(client := r.node, up := r.out, down := r.inn)
  {
    hide RelayCan, RelayNext;
  }

  lemma ServerStep(p: Session, s: State, rs: RelayStep)
    requires p.key != [] && s.sphase == ServerRelay && RelayCan(p.c, p.key, ServerSide(s), rs)
    ensures Can(p, s, Server(rs))
    ensures var r := RelayNext(p.c, p.key, ServerSide(s), rs);
            Next(p, s, Server(rs)) == s.(server := r.node, down := r.out, up := r.inn)
  {
    hide RelayCan, RelayNext;
  }

  lemma StopClient(p: Session, s: State)
    requires p.Valid() && Inv(p, s) && Relaying(s) && (s.client.enc != Done || s.client.dec != Done)
    ensures var step := Client(Stopping(ClientSide(s)));
            Can(p, s, step) && Relaying(Next(p, s, step)) && LoopsLeft(Next(p, s, step)) < LoopsLeft(s)
  {
    hide Inv, RelayCan, RelayNext, Stopping, PumpLeft, Can, Next;
    RelaysUnblocked(p, s);
    StoppingWorks(p.c, p.key, ClientSide(s));
    ClientStep(p, s, Stopping(ClientSide(s)));
  }

  lemma StopServer(p: Session, s: State)
    requires p.Valid() && Inv(p, s) && Relaying(s) && (s.server.enc != Done || s.server.dec != Done)
    ensures var step := Server(Stopping(ServerSide(s)));
            Can(p, s, step) && Relaying(Next(p, s, step)) && LoopsLeft(Next(p, s, step)) < LoopsLeft(s)
  {
    hide Inv, RelayCan, RelayNext, Stopping, PumpLeft, Can, Next;
    RelaysUnblocked(p, s);
    StoppingWorks(p.c, p.key, ServerSide(s));
    ServerStep(p, s, Stopping(ServerSide(s)));
  }

  lemma StopOne(p: Session, s: State) returns (step: Step)
    requires p.Valid() && Inv(p, s) && Relaying(s) && LoopsLeft(s) > 0
    ensures Can(p, s, step) && Relaying(Next(p, s, step)) && LoopsLeft(Next(p, s, step)) < LoopsLeft(s)
  {
    hide Inv, Can, Next, Relaying, Stopping;
    if s.client.enc != Done || s.client.dec != Done {
      StopClient(p, s);
      step := Client(Stopping(ClientSide(s)));
    } else {
      StopServer(p, s);
      step := Server(Stopping(ServerSide(s)));
    }
  }

  lemma {:induction false} StopAll(p: Session, s: State) returns (steps: seq<Step>, t: State)
    requires p.Valid() && Inv(p, s) && Relaying(s)
    ensures Leads(p, s, steps, t) && LoopsLeft(t) == 0
    decreases LoopsLeft(s)
  {
    if LoopsLeft(s) == 0 {
      steps, t := [], s;
    } else {
      hide Inv, Can, Next, Relaying, LoopsLeft, Leads;
      var step := StopOne(p, s);
      StepKeeps(p, s, step);
      steps, t := StopAll(p, Next(p, s, step));
      LeadsOn(p, s, step, steps, t);
      steps := [step] + steps;
    }
  }

  /** From every reachable state in which both nodes relay there are steps that end all four loops, each with its
      deadline set. */
  lemma EndPossible(p: Session, run: seq<State>, steps: seq<Step>, i: nat) returns (more: seq<Step>, t: State)
    requires p.Valid() && IsRun(p, run, steps) && i < |run|
    requires run[i].cphase == ClientRelay && run[i].sphase == ServerRelay
    ensures Leads(p, run[i], more, t)
    ensures t.client.enc == Done && t.client.dec == Done && t.server.enc == Done && t.server.dec == Done
  {
    hide IsRun, Inv, Leads;
    RunInv(p, run, steps, i);
    more, t := StopAll(p, run[i]);
  }

  // ----- a session can be opened and carries what is sent -----

  function Dest(p: Session): Message {
    Message(p.dest, 0)
  }

  function Line(p: Session): Message {
    Message(p.line, 0)
  }

  /** The opening frames can be encoded and are not too long for the server. */
  predicate Opens(p: Session) {
    Encodable(p.c, Dest(p)) && Fits(p.c, Dest(p)) &&
    (p.line != [] ==> Encodable(p.c, Line(p)) && Fits(p.c, Line(p)))
  }

  /** The opening messages and their bytes. */
  function Introduction(p: Session): seq<Message> {
    if p.line == [] then [Dest(p)] else [Dest(p), Line(p)]
  }

  function LineBytes(p: Session): Bytes
    requires p.key != [] && Opens(p)
  {
    if p.line == [] then [] else FrameOf(p.c, p.key, Line(p))
  }

  function DestBytes(p: Session): Bytes
    requires p.key != [] && Opens(p)
  {
    FrameOf(p.c, p.key, Dest(p))
  }

  lemma FlushAll(p: Session, s: State)
    requires p.key != []
    ensures var k := |s.up.pending|;
            Can(p, s, FlushUp(k)) &&
            Next(p, s, FlushUp(k)) == s.(up := s.up.(wire := s.up.wire + s.up.pending, pending := []))
  {
    assert s.up.pending[..|s.up.pending|] == s.up.pending;
  }

  /** The application sent `pre` together with its request, and the handshake has read it into its buffer. */
  function Begun(pre: Bytes): State {
    START.(client := IDLE.(plainIn := pre, held := pre))
  }

  lemma Begin(p: Session, pre: Bytes) returns (a: seq<Step>)
    requires p.Valid()
    ensures Reaches(p, START, a, Begun(pre))
  {
    hide Inv, Reaches, Lawful;
    StartHolds(p);
    ReachesSelf(p, START);
    var step := Client(Arrive(pre));
    ReachesNext(p, START, [], START, step);
    a := [] + [step];
    var s := Next(p, START, step);
    assert s.client == IDLE.(plainIn := pre, plainBuf := pre) by {
      assert [] + pre == pre;
    }
    ReachesNext(p, START, a, s, Prefetched(|pre|));
    a := a + [Prefetched(|pre|)];
    assert [] + pre[..|pre|] == pre && pre[|pre|..] == [];
  }

  lemma OpenDest(p: Session, pre: Bytes) returns (a: seq<Step>, t: State)
    requires p.Valid() && Opens(p)
    ensures Reaches(p, START, a, t)
    ensures t == Begun(pre).(cphase := SentDest, up := FRESH.(sent := [Dest(p)], wire := DestBytes(p)))
  {
    hide Inv, Reaches, FrameOf, Lawful, Encodable, Fits;
    a := Begin(p, pre);
    ReachesNext(p, START, a, Begun(pre), WriteDest(0));
    a := a + [WriteDest(0)];
    var s := Next(p, Begun(pre), WriteDest(0));
    FlushAll(p, s);
    ReachesNext(p, START, a, s, FlushUp(|s.up.pending|));
    a, t := a + [FlushUp(|s.up.pending|)], Next(p, s, FlushUp(|s.up.pending|));
    assert [] + DestBytes(p) == DestBytes(p);
  }

  /** The client has written its opening frames. */
  function Introduced(p: Session, pre: Bytes): State
    requires p.key != [] && Opens(p)
  {
    Begun(pre).(cphase := Pre, up := FRESH.(sent := Introduction(p), wire := DestBytes(p) + LineBytes(p)))
  }

  lemma OpenLine(p: Session, pre: Bytes) returns (a: seq<Step>)
    requires p.Valid() && Opens(p)
    ensures Reaches(p, START, a, Introduced(p, pre))
  {
    hide Inv, Reaches, FrameOf, Lawful, Encodable, Fits;
    var s;
    a, s := OpenDest(p, pre);
    if p.line == [] {
      assert DestBytes(p) + [] == DestBytes(p);
    } else {
      ReachesNext(p, START, a, s, WriteLine(0));
      a, s := a + [WriteLine(0)], Next(p, s, WriteLine(0));
      assert s.up.sent == Introduction(p);
      FlushAll(p, s);
      ReachesNext(p, START, a, s, FlushUp(|s.up.pending|));
      a, s := a + [FlushUp(|s.up.pending|)], Next(p, s, FlushUp(|s.up.pending|));
    }
    ReachesNext(p, START, a, s, Opened);
    a := a + [Opened];
  }

  /** The client relays; the application has got its reply. */
  function Greeted(p: Session, pre: Bytes): State
    requires p.key != [] && Opens(p)
  {
    Introduced(p, pre).(cphase := ClientRelay, client := IDLE.(plainIn := pre, held := pre, plainOut := p.reply))
  }

  lemma Greet(p: Session, pre: Bytes) returns (a: seq<Step>)
    requires p.Valid() && Opens(p)
    ensures Reaches(p, START, a, Greeted(p, pre))
  {
    hide Inv, Reaches, FrameOf, Lawful, Encodable, Fits, LineBytes, DestBytes;
    a := OpenLine(p, pre);
    var s := Introduced(p, pre);
    ReachesNext(p, START, a, s, PreFn);
    a, s := a + [PreFn], Next(p, s, PreFn);
    var k := |p.reply|;
    ReachesNext(p, START, a, s, FlushApp(k));
    a, s := a + [FlushApp(k)], Next(p, s, FlushApp(k));
    assert s.client.plainOut == p.reply by {
      assert [] + p.reply[..k] == p.reply;
    }
    ReachesNext(p, START, a, s, PreFnReturned);
    a := a + [PreFnReturned];
  }

  lemma TakeSome(p: Session, s: State, k: nat)
    requires p.key != [] && ServerReads(s) && s.server.enc != Done && CanTake(s.up, k)
    ensures Can(p, s, TakeUp(k))
    ensures Next(p, s, TakeUp(k)) == s.(up := s.up.(inbox := s.up.inbox + s.up.wire[..k], wire := s.up.wire[k..]))
  {
    hide Wanted;
  }

  /** The header says how long the destination frame is. */
  lemma HeaderKnown(p: Session)
    requires p.key != [] && Opens(p)
    ensures var f := DestBytes(p); |f| >= 6 && Wanted([]) == 6 && Wanted(f[..6]) == |f| && HoldsFrame(f)
  {
    hide FrameOf, Uint32, Uint16, Encodable, Fits;
    FrameParts(p.c, p.key, Dest(p), []);
    var f := DestBytes(p);
    assert f + [] == f && f[..6][..4] == f[..4];
  }

  /** The server has the whole destination frame. */
  function Arrived(p: Session, pre: Bytes): State
    requires p.key != [] && Opens(p)
  {
    var s := Greeted(p, pre);
    s.(up := s.up.(inbox := DestBytes(p), wire := LineBytes(p)))
  }

  lemma Fetch(p: Session, pre: Bytes) returns (a: seq<Step>)
    requires p.Valid() && Opens(p)
    ensures Reaches(p, START, a, Arrived(p, pre))
  {
    hide Inv, Reaches, Can, Next, FrameOf, Lawful, Encodable, Fits, LineBytes, DestBytes, Wanted, HoldsFrame;
    a := Greet(p, pre);
    HeaderKnown(p);
    var f, l := DestBytes(p), LineBytes(p);
    var s := Greeted(p, pre);
    TakeSome(p, s, 6);
    ReachesNext(p, START, a, s, TakeUp(6));
    a, s := a + [TakeUp(6)], Next(p, s, TakeUp(6));
    assert s.up.inbox == f[..6] by {
      assert [] + (f + l)[..6] == f[..6];
    }
    assert s.up.wire == f[6..] + l by {
      assert (f + l)[6..] == f[6..] + l;
    }
    var k := |f| - 6;
    TakeSome(p, s, k);
    ReachesNext(p, START, a, s, TakeUp(k));
    a := a + [TakeUp(k)];
    assert f[..6] + (f[6..] + l)[..k] == f && (f[6..] + l)[k..] == l;
  }

  /** Both nodes relay. */
  function Open(p: Session, pre: Bytes): State
    requires p.key != [] && Opens(p)
  {
    var s := Arrived(p, pre);
    s.(up := s.up.(inbox := [], got := 1), sphase := ServerRelay, serverDest := Some(p.dest))
  }

  lemma Dial(p: Session, pre: Bytes) returns (a: seq<Step>)
    requires p.Valid() && Opens(p)
    ensures Reaches(p, START, a, Open(p, pre))
  {
    hide Inv, Can, Next, FrameOf, Lawful, Encodable, Fits, LineBytes, DestBytes, HoldsFrame, Links.LinkInv, Leads;
    a := Fetch(p, pre);
    var s := Arrived(p, pre);
    HeaderKnown(p);
    LinksHold(p, s);
    TakenExactlyWhen(p.c, p.key, s.up);
    ParseKeeps(p.c, p.key, s.up);
    FirstStep(p, s);
    ReachesNext(p, START, a, s, Step.FirstFrame);
    a, s := a + [Step.FirstFrame], Next(p, s, Step.FirstFrame);
    DialStep(p, s);
    ReachesNext(p, START, a, s, Dialed);
    a := a + [Dialed];
  }

  lemma FirstStep(p: Session, s: State)
    requires p.key != [] && s.sphase == ReadDest && CanParse(p.c, p.key, s.up)
    ensures Can(p, s, Step.FirstFrame)
    ensures var (payload, up') := Parse(p.c, p.key, s.up);
            Next(p, s, Step.FirstFrame) == s.(sphase := Dialing, serverDest := Some(payload), up := up')
  {
    hide Links.CanParse, Links.Parse;
  }

  lemma DialStep(p: Session, s: State)
    requires p.key != [] && s.sphase == Dialing
    ensures Can(p, s, Dialed) && Next(p, s, Dialed) == s.(sphase := ServerRelay)
  {
  }

  /** Bytes arrive at one end. */
  lemma ArriveStep(p: Session, s: State, w: Way, b: Bytes)
    requires p.key != [] && Healthy(p, s, w) && From(s, w).dec != Done && To(s, w).enc != Done
    ensures var step := Sending(w, Arrive(b));
            Can(p, s, step) && Healthy(p, Next(p, s, step), w) &&
            From(Next(p, s, step), w).plainIn == From(s, w).plainIn + b
  {
    hide Fits;
  }

  lemma OpenIsHealthy(p: Session, pre: Bytes, w: Way)
    requires p.key != [] && Opens(p)
    ensures Healthy(p, Open(p, pre), w) && From(Open(p, pre), w).plainIn == if w.Upload? then pre else []
  {
    hide Fits, Encodable, FrameOf;
  }

  /** From the start, whatever the application sends with its request and whatever either end sends later, there are
      steps after which the server has dialed the destination and exactly those bytes have come out at the other end,
      after the line or the reply, provided the opening frames fit. */
  lemma SessionPossible(p: Session, w: Way, pre: Bytes, b: Bytes) returns (steps: seq<Step>, t: State)
    requires p.Valid() && Opens(p)
    ensures Leads(p, START, steps, t) && t.serverDest == Some(p.dest)
    ensures To(t, w).plainOut == Intro(p, w) + ((if w.Upload? then pre else []) + b)
  {
    hide Inv, Can, Next, Healthy, Leads, Settled, Fits, Encodable;
    steps := Dial(p, pre);
    OpenIsHealthy(p, pre, w);
    var s := Open(p, pre);
    ArriveStep(p, s, w, b);
    ReachesNext(p, START, steps, s, Sending(w, Arrive(b)));
    steps, s := steps + [Sending(w, Arrive(b))], Next(p, s, Sending(w, Arrive(b)));
    var more;
    more, t := Settle(p, s, w);
    LeadsBoth(p, START, steps, s, more, t);
    steps := steps + more;
    SettledIsDelivered(p, t, w);
    DialedIs(p, t, w);
  }

  lemma DialedIs(p: Session, t: State, w: Way)
    requires p.Valid() && Inv(p, t) && Healthy(p, t, w)
    ensures t.serverDest == Some(p.dest)
  {
    hide Links.LinkInv, SendInv, RecvInv, OpeningInv, Fits;
  }

  // ----- what cancelling lets through -----

  /** From a state in which the upload is healthy everything it still holds gets through. */
  lemma GetsThrough(p: Session, s: State) returns (after: seq<Step>, t: State)
    requires p.Valid() && Inv(p, s) && Healthy(p, s, Upload)
    ensures Leads(p, s, after, t) && t.server.plainOut == p.line + s.client.plainIn
  {
    hide Inv, Leads, Healthy, Settled;
    after, t := Settle(p, s, Upload);
    SettledIsDelivered(p, t, Upload);
  }

  /** The client's decoding loop has failed, right after the opening. */
  function Failing(p: Session, pre: Bytes): State
    requires p.key != [] && Opens(p)
  {
    var s := Open(p, pre);
    s.(client := s.client.(dec := Ended))
  }

  lemma FailStep(p: Session, s: State)
    requires p.key != [] && s.cphase == ClientRelay && s.client.dec == Reading
    ensures Can(p, s, Client(DecodeError)) && Next(p, s, Client(DecodeError)) == s.(client := s.client.(dec := Ended))
  {
  }

  lemma DoneStep(p: Session, s: State)
    requires p.key != [] && s.cphase == ClientRelay && s.client.dec == Ended
    ensures Can(p, s, Client(DecDone)) && Next(p, s, Client(DecDone)) == s.(client := s.client.(dec := Done))
  {
  }

  lemma FailingIsHealthy(p: Session, pre: Bytes)
    requires p.key != [] && Opens(p)
    ensures var s := Failing(p, pre); Healthy(p, s.(client := s.client.(dec := Done)), Upload)
  {
    hide Fits, Encodable, FrameOf;
  }

  lemma CancelClient(p: Session, pre: Bytes) returns (before: seq<Step>)
    requires p.Valid() && Opens(p)
    ensures var s := Failing(p, pre);
            && Leads(p, START, before, s) && Can(p, s, Client(DecDone))
            && Inv(p, Next(p, s, Client(DecDone))) && Healthy(p, Next(p, s, Client(DecDone)), Upload)
            && Next(p, s, Client(DecDone)).client.plainIn == pre
  {
    hide Inv, Can, Next, Leads, FrameOf, Fits, Encodable, LineBytes, DestBytes, Healthy;
    before := Dial(p, pre);
    var s := Failing(p, pre);
    FailStep(p, Open(p, pre));
    ReachesNext(p, START, before, Open(p, pre), Client(DecodeError));
    before := before + [Client(DecodeError)];
    DoneStep(p, s);
    StepKeeps(p, s, Client(DecDone));
    FailingIsHealthy(p, pre);
  }

  lemma FailingCarries(p: Session, pre: Bytes)
    requires p.key != [] && Opens(p)
    ensures var s := Failing(p, pre); s.client.held == pre && Carried(s.up, |s.up.sent|, 1) == p.line
  {
    hide Fits, Encodable, FrameOf, LineBytes, DestBytes;
    var l := Failing(p, pre).up;
    assert l.sent[..|l.sent|] == Introduction(p);
    IntroductionCarries(p);
  }

  lemma IntroductionCarries(p: Session)
    ensures Payloads(Data(Introduction(p), 1)) == p.line
  {
    if p.line != [] {
      assert Data(Introduction(p), 1) == [Line(p)] && [Line(p)][1..] == [];
    }
  }

  /** The bound of a cancelled upload is reached: for every session and all bytes that came with the request there is a
      run in which the client's decoding loop ends, and so sets its deadline, before anything but the opening frames
      was sent, and all those bytes still come out at the target. */
  lemma HeldGetsThrough(p: Session, pre: Bytes) returns (before: seq<Step>, s: State, after: seq<Step>, t: State)
    requires p.Valid() && Opens(p)
    ensures Leads(p, START, before, s) && Can(p, s, Client(DecDone))
    ensures Leads(p, Next(p, s, Client(DecDone)), after, t)
    ensures s.client.held == pre && Carried(s.up, |s.up.sent|, 1) == p.line
    ensures t.server.plainOut == Carried(s.up, |s.up.sent|, 1) + s.client.held
  {
    hide Inv, Can, Next, Leads, Healthy, Failing, Carried;
    s := Failing(p, pre);
    before := CancelClient(p, pre);
    FailingCarries(p, pre);
    after, t := GetsThrough(p, Next(p, s, Client(DecDone)));
  }

  // ----- a cancelled receiver and its read buffer -----

  /** The state with the two nodes and the link of one direction replaced. */
  function Put(s: State, w: Way, from: Node, to: Node, l: Link): State {
    if w.Upload? then s.(client := from, server := to, up := l) else s.(server := from, client := to, down := l)
  }

  function SideOf(s: State, w: Way): Relay {
    if w.Upload? then ClientSide(s) else ServerSide(s)
  }

  function Filling(w: Way, k: nat): Step {
    if w.Upload? then FillUp(k) else FillDown(k)
  }

  function Cap(p: Session, w: Way): nat {
    if w.Upload? then p.upCap else p.downCap
  }

  lemma SendStep(p: Session, s: State, w: Way, rs: RelayStep)
    requires p.key != [] && Relaying(s) && RelayCan(p.c, p.key, SideOf(s, w), rs)
    requires rs.Arrive? || rs.ReadChunk? || rs.WireWrote?
    ensures Can(p, s, Sending(w, rs))
    ensures var r := RelayNext(p.c, p.key, SideOf(s, w), rs);
            Next(p, s, Sending(w, rs)) == Put(s, w, r.node, To(s, w), r.out)
  {
    hide Links.CanBegin, Links.Begin, AfterRead;
  }

  lemma FlushStep(p: Session, s: State, w: Way)
    requires p.key != []
    ensures var l := Lane(s, w); var step := Flushing(w, |l.pending|);
            && Can(p, s, step)
            && Next(p, s, step) ==
               Put(s, w, From(s, w), To(s, w), l.(wire := l.wire + l.pending, pending := []))
  {
    var l := Lane(s, w);
    assert l.pending[..|l.pending|] == l.pending;
  }

  lemma FillStep(p: Session, s: State, w: Way)
    requires p.key != [] && Relaying(s) && To(s, w).dec == Reading && To(s, w).enc != Done
    requires Lane(s, w).buffer == [] && |Lane(s, w).wire| <= Cap(p, w)
    ensures var l := Lane(s, w); var step := Filling(w, |l.wire|);
            && Can(p, s, step)
            && Next(p, s, step) == Put(s, w, From(s, w), To(s, w), l.(buffer := l.wire, wire := []))
  {
    var l := Lane(s, w);
    assert [] + l.wire[..|l.wire|] == l.wire;
  }

  lemma EndStep(p: Session, s: State, w: Way)
    requires p.key != [] && Relaying(s) && To(s, w).enc == Reading && To(s, w).held == []
    ensures var step := Receiving(w, ReadError(0));
            && Can(p, s, step)
            && Next(p, s, step) == Put(s, w, From(s, w), To(s, w).(enc := Ended, dropped := []), Lane(s, w))
  {
  }

  lemma EncDoneStep(p: Session, s: State, w: Way)
    requires p.key != [] && Relaying(s) && To(s, w).enc == Ended
    ensures var step := Receiving(w, EncDone);
            && Can(p, s, step)
            && Next(p, s, step) == Put(s, w, From(s, w), To(s, w).(enc := Done), Lane(s, w))
  {
  }

  /** One chunk has been sent, and all that is on the wire is in the receiver's buffer. */
  function Sent(p: Session, w: Way, b: Bytes): State
    requires p.key != [] && Opens(p) && Encodable(p.c, Message(b, 0))
  {
    var s, m := Open(p, []), Message(b, 0);
    Put(s, w, From(s, w).(plainIn := b), To(s, w),
        Lane(s, w).(sent := Lane(s, w).sent + [m], wire := [], buffer := Lane(s, w).wire + FrameOf(p.c, p.key, m)))
  }

  lemma ChunkStep(c: Compressor, key: Bytes, r: Relay, b: Bytes)
    requires Lawful(c) && key != [] && 0 < |b| <= 65536
    requires r.node.enc == Reading && r.node.dec == Reading && r.node.held == [] && r.node.plainBuf == b
    requires !r.out.broken && r.out.pending == []
    ensures Encodable(c, Message(b, 0)) && RelayCan(c, key, r, ReadChunk(|b|, 0))
    ensures RelayNext(c, key, r, ReadChunk(|b|, 0)) ==
            r.(node := r.node.(enc := Writing, plainBuf := []),
               out := r.out.(sent := r.out.sent + [Message(b, 0)], pending := FrameOf(c, key, Message(b, 0))))
  {
    hide FrameOf, Lawful;
    ChunksFit(c, Message(b, 0));
    assert b[..|b|] == b;
  }

  lemma SendOne(p: Session, w: Way, b: Bytes) returns (a: seq<Step>, s: State)
    requires p.Valid() && Opens(p) && 0 < |b| <= 65536
    ensures Encodable(p.c, Message(b, 0)) && Reaches(p, START, a, s) && Relaying(s)
    ensures var o, m := Open(p, []), Message(b, 0);
            s == Put(o, w, From(o, w).(plainIn := b), To(o, w),
                     Lane(o, w).(sent := Lane(o, w).sent + [m], wire := Lane(o, w).wire + FrameOf(p.c, p.key, m)))
  {
    hide Inv, Can, Next, Reaches, FrameOf, Lawful, Encodable, Fits, LineBytes, DestBytes;
    a := Dial(p, []);
    s := Open(p, []);
    SendStep(p, s, w, Arrive(b));
    ReachesNext(p, START, a, s, Sending(w, Arrive(b)));
    a, s := a + [Sending(w, Arrive(b))], Next(p, s, Sending(w, Arrive(b)));
    assert [] + b == b;
    ChunkStep(p.c, p.key, SideOf(s, w), b);
    SendStep(p, s, w, ReadChunk(|b|, 0));
    ReachesNext(p, START, a, s, Sending(w, ReadChunk(|b|, 0)));
    a, s := a + [Sending(w, ReadChunk(|b|, 0))], Next(p, s, Sending(w, ReadChunk(|b|, 0)));
    FlushStep(p, s, w);
    var k := |Lane(s, w).pending|;
    ReachesNext(p, START, a, s, Flushing(w, k));
    a, s := a + [Flushing(w, k)], Next(p, s, Flushing(w, k));
    SendStep(p, s, w, WireWrote);
    ReachesNext(p, START, a, s, Sending(w, WireWrote));
    a, s := a + [Sending(w, WireWrote)], Next(p, s, Sending(w, WireWrote));
  }

  lemma FillAndFail(p: Session, w: Way, b: Bytes) returns (before: seq<Step>, s: State)
    requires p.Valid() && Opens(p) && 0 < |b| <= 65536 && Encodable(p.c, Message(b, 0))
    requires |Lane(Sent(p, w, b), w).buffer| <= Cap(p, w)
    ensures Reaches(p, START, before, s) && Relaying(s)
    ensures var f := Sent(p, w, b); s == Put(f, w, From(f, w), To(f, w).(enc := Ended, dropped := []), Lane(f, w))
  {
    hide Inv, Can, Next, Reaches, FrameOf, Lawful, Encodable, Fits, LineBytes, DestBytes;
    before, s := SendOne(p, w, b);
    FillStep(p, s, w);
    var k := |Lane(s, w).wire|;
    ReachesNext(p, START, before, s, Filling(w, k));
    before, s := before + [Filling(w, k)], Next(p, s, Filling(w, k));
    EndStep(p, s, w);
    ReachesNext(p, START, before, s, Receiving(w, ReadError(0)));
    before, s := before + [Receiving(w, ReadError(0))], Next(p, s, Receiving(w, ReadError(0)));
  }

  lemma SentIsHealthy(p: Session, w: Way, b: Bytes)
    requires p.Valid() && Opens(p) && 0 < |b| <= 65536 && Encodable(p.c, Message(b, 0))
    ensures var s := Sent(p, w, b);
            Healthy(p, Put(s, w, From(s, w), To(s, w).(enc := Done, dropped := []), Lane(s, w)), w)
    ensures var s := Sent(p, w, b);
            && From(s, w).plainIn == b && To(s, w).plainOut == (if w.Upload? then [] else p.reply)
            && |Lane(s, w).buffer| == (if w.Upload? then |LineBytes(p)| else 0) + 6 + |p.c.zip(b)|
  {
    hide Fits, Encodable, Lawful;
    ChunksFit(p.c, Message(b, 0));
    hide FrameOf, LineBytes, DestBytes;
  }

  /** The bound of a cancelled receiver is reached, in both directions: for every session and every chunk whose frame
      fits the receiver's read buffer there is a run in which its encoding loop ends, and so sets its deadline, before
      any of the chunk was decoded, and the whole chunk still comes out. */
  lemma BufferedGetsThrough(p: Session, w: Way, b: Bytes)
      returns (before: seq<Step>, s: State, after: seq<Step>, t: State)
    requires p.Valid() && Opens(p) && 0 < |b| <= 65536
    requires (if w.Upload? then |LineBytes(p)| else 0) + 6 + |p.c.zip(b)| <= Cap(p, w)
    ensures Leads(p, START, before, s) && Can(p, s, Receiving(w, EncDone))
    ensures Leads(p, Next(p, s, Receiving(w, EncDone)), after, t)
    ensures To(s, w).plainOut == if w.Upload? then [] else p.reply
    ensures To(t, w).plainOut == Intro(p, w) + b
  {
    hide Inv, Can, Next, Leads, FrameOf, Lawful, Encodable, Fits, LineBytes, DestBytes, Healthy, Settled;
    ChunksFit(p.c, Message(b, 0));
    SentIsHealthy(p, w, b);
    before, s := FillAndFail(p, w, b);
    EncDoneStep(p, s, w);
    StepKeeps(p, s, Receiving(w, EncDone));
    after, t := Settle(p, Next(p, s, Receiving(w, EncDone)), w);
    SettledIsDelivered(p, t, w);
  }

  lemma StepDials(p: Session, s: State, step: Step)
    requires p.Valid() && Inv(p, s) && Can(p, s, step)
    requires s.serverDest.None? && Next(p, s, step).serverDest.Some?
    ensures Encodable(p.c, Dest(p)) && Fits(p.c, Dest(p))
  {
    hide Links.LinkInv, SendInv, RecvInv, Fits, Protocol.ReadFrame, FrameOf, HoldsFrame, Encodable;
    assert step.FirstFrame?;
    LinksHold(p, s);
    TakenExactlyWhen(p.c, p.key, s.up);
    SentEncodable(p.c, p.key, s.up);
    SamePayload(p.c, s.up.sent[0], Dest(p));
  }

  lemma SentEncodable(c: Compressor, key: Bytes, l: Link)
    requires key != [] && LinkInv(c, key, l)
    ensures AllEncodable(c, l.sent)
  {
  }

  lemma SamePayload(c: Compressor, m: Message, n: Message)
    requires m.payload == n.payload && n.coin < 99 && Encodable(c, m) && Fits(c, m)
    ensures Encodable(c, n) && Fits(c, n)
  {
  }

  /** The condition is needed: in no run does the server dial when the destination frame is too long. */
  lemma {:induction false} DialedFits(p: Session, run: seq<State>, steps: seq<Step>, i: nat)
    requires p.Valid() && IsRun(p, run, steps) && i < |run| && run[i].serverDest.Some?
    ensures Encodable(p.c, Dest(p)) && Fits(p.c, Dest(p))
  {
    hide Can, Next, Inv, Encodable, Fits;
    if i > 0 {
      if run[i - 1].serverDest.Some? {
        DialedFits(p, run, steps, i - 1);
      } else {
        RunInv(p, run, steps, i - 1);
        StepDials(p, run[i - 1], steps[i - 1]);
      }
    }
  }
}
