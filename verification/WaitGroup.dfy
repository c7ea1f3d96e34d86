/** The shutdown wait group: what each accepted connection does to the counter, in every interleaving. */
module WaitGroup {

  /** The life of an accepted connection. */
  datatype Phase =
    | Handling        // wg.Add(1) done; the listener's handle is reading from it
    | FrameFailed     // server mode: the first frame could not be read; wg.Done
    | Refused         // mixed mode: peek, handshake or command failed, or a UDP association ended
    | Queued          // a context with PostFn is in the tunnel's channel
    | Opening         // handleTCPConn before PostFn is deferred: resolving, dialling, opening frames
    | Abandoned       // handleTCPConn returned early
    | Relaying        // PostFn is deferred
    | Finished        // PostFn has run; wg.Done
  {
    predicate Counted() { FrameFailed? || Finished? }
    predicate Leaked() { Refused? || Abandoned? }
  }

  datatype Mode = Server | Mixed

  datatype State = State(counter: int, conns: seq<Phase>, dones: seq<nat>)

  datatype Step =
    | Accept
    | FirstFrameError(i: nat)
    | HandshakeError(i: nat)
    | Enqueue(i: nat)
    | Dequeue(i: nat)
    | EarlyReturn(i: nat)
    | DeferPostFn(i: nat)
    | PostFn(i: nat)

  const START := State(0, [], [])

  predicate Can(mode: Mode, s: State, step: Step) {
    match step
    case Accept => true
    case FirstFrameError(i) => mode == Server && i < |s.conns| && s.conns[i] == Handling
    case HandshakeError(i) => mode == Mixed && i < |s.conns| && s.conns[i] == Handling
    case Enqueue(i) => i < |s.conns| && s.conns[i] == Handling
    case Dequeue(i) => i < |s.conns| && s.conns[i] == Queued
    case EarlyReturn(i) => i < |s.conns| && s.conns[i] == Opening
    case DeferPostFn(i) => i < |s.conns| && s.conns[i] == Opening
    case PostFn(i) => i < |s.conns| && s.conns[i] == Relaying
  }

  function Next(mode: Mode, s: State, step: Step): State
    requires Can(mode, s, step)
  {
    match step
    case Accept => State(s.counter + 1, s.conns + [Handling], s.dones)
    case FirstFrameError(i) => State(s.counter - 1, s.conns[i := FrameFailed], s.dones + [i])
    case HandshakeError(i) => s.(conns := s.conns[i := Refused])
    case Enqueue(i) => s.(conns := s.conns[i := Queued])
    case Dequeue(i) => s.(conns := s.conns[i := Opening])
    case EarlyReturn(i) => s.(conns := s.conns[i := Abandoned])
    case DeferPostFn(i) => s.(conns := s.conns[i := Relaying])
    case PostFn(i) => State(s.counter - 1, s.conns[i := Finished], s.dones + [i])
  }

  /** How many connections have not been counted done. */
  function Outstanding(conns: seq<Phase>): nat {
    if conns == [] then 0
    else Outstanding(conns[..|conns| - 1]) + (if conns[|conns| - 1].Counted() then 0 else 1)
  }

  lemma {:induction false} OutstandingUpdate(conns: seq<Phase>, i: nat, p: Phase)
    requires i < |conns|
    ensures Outstanding(conns[i := p]) ==
            Outstanding(conns) + (if p.Counted() then 0 else 1) - (if conns[i].Counted() then 0 else 1)
  {
    var front := conns[..|conns| - 1];
    if i == |conns| - 1 {
      assert conns[i := p][..|conns| - 1] == front;
    } else {
      OutstandingUpdate(front, i, p);
      assert conns[i := p][..|conns| - 1] == front[i := p];
    }
  }

  lemma {:induction false} OutstandingZero(conns: seq<Phase>)
    ensures Outstanding(conns) == 0 <==> forall i :: 0 <= i < |conns| ==> conns[i].Counted()
  {
    if conns != [] {
      OutstandingZero(conns[..|conns| - 1]);
      assert forall i :: 0 <= i < |conns| - 1 ==> conns[i] == conns[..|conns| - 1][i];
    }
  }

  /** The counter is the accepted connections less the calls of Done, each connection made at most one such
      call, and exactly the counted ones made it. */
  ghost predicate Inv(s: State) {
    && s.counter == Outstanding(s.conns)
    && s.counter == |s.conns| - |s.dones|
    && (forall a, b :: 0 <= a < b < |s.dones| ==> s.dones[a] != s.dones[b])
    && (forall a {:trigger s.dones[a]} :: 0 <= a < |s.dones| ==>
          s.dones[a] < |s.conns| && s.conns[s.dones[a]].Counted())
    && (forall i {:trigger s.conns[i]} :: 0 <= i < |s.conns| && s.conns[i].Counted() ==> i in s.dones)
  }

  lemma StepKeeps(mode: Mode, s: State, step: Step)
    requires Inv(s) && Can(mode, s, step)
    ensures Inv(Next(mode, s, step))
  {
    hide Outstanding;
    match step
    case Accept =>
      assert (s.conns + [Handling])[..|s.conns|] == s.conns;
      OutstandingSnoc(s.conns);
    case FirstFrameError(i) => OutstandingUpdate(s.conns, i, FrameFailed);
    case HandshakeError(i) => OutstandingUpdate(s.conns, i, Refused);
    case Enqueue(i) => OutstandingUpdate(s.conns, i, Queued);
    case Dequeue(i) => OutstandingUpdate(s.conns, i, Opening);
    case EarlyReturn(i) => OutstandingUpdate(s.conns, i, Abandoned);
    case DeferPostFn(i) => OutstandingUpdate(s.conns, i, Relaying);
    case PostFn(i) => OutstandingUpdate(s.conns, i, Finished);
  }

  lemma OutstandingSnoc(conns: seq<Phase>)
    ensures Outstanding(conns + [Handling]) == Outstanding(conns) + 1
  {
    assert (conns + [Handling])[..|conns|] == conns;
  }

  ghost predicate IsRun(mode: Mode, run: seq<State>, steps: seq<Step>) {
    && |run| == |steps| + 1 && run[0] == START
    && forall i :: 0 <= i < |steps| ==> Can(mode, run[i], steps[i]) && run[i + 1] == Next(mode, run[i], steps[i])
  }

  lemma {:induction false} RunInv(mode: Mode, run: seq<State>, steps: seq<Step>, i: nat)
    requires IsRun(mode, run, steps) && i < |run|
    ensures Inv(run[i])
  {
    if i > 0 {
      RunInv(mode, run, steps, i - 1);
      StepKeeps(mode, run[i - 1], steps[i - 1]);
    }
  }

  /** The connection that a step counts done. */
  function DoneBy(step: Step): seq<nat> {
    if step.FirstFrameError? || step.PostFn? then [step.i] else []
  }

  function Accepts(steps: seq<Step>): nat {
    if steps == [] then 0 else Accepts(steps[..|steps| - 1]) + (if steps[|steps| - 1].Accept? then 1 else 0)
  }

  /** The connections counted done by some steps, in order. */
  function Dones(steps: seq<Step>): seq<nat> {
    if steps == [] then [] else Dones(steps[..|steps| - 1]) + DoneBy(steps[|steps| - 1])
  }

  lemma {:induction false} StepsCount(mode: Mode, run: seq<State>, steps: seq<Step>, i: nat)
    requires IsRun(mode, run, steps) && i < |run|
    ensures |run[i].conns| == Accepts(steps[..i]) && run[i].dones == Dones(steps[..i])
  {
    if i > 0 {
      StepsCount(mode, run, steps, i - 1);
      assert steps[..i][..i - 1] == steps[..i - 1];
    }
  }

  /** In every run the counter is the accepted connections less those that ran PostFn or failed the server's
      first frame, each counted once; it is never negative, and it is zero, so that a shutdown can finish,
      exactly when every accepted connection ended in one of these two ways. All of it is read off the steps. */
  lemma CounterIsOutstanding(mode: Mode, run: seq<State>, steps: seq<Step>, i: nat)
    requires IsRun(mode, run, steps) && i < |run|
    ensures var s, done := run[i], Dones(steps[..i]);
            && s.counter == Accepts(steps[..i]) - |done| && s.counter >= 0
            && |s.conns| == Accepts(steps[..i])
            && (forall a, b :: 0 <= a < b < |done| ==> done[a] != done[b])
            && (forall c :: 0 <= c < |s.conns| ==> (c in done <==> s.conns[c].Counted()))
            && (s.counter == 0 <==> forall c :: 0 <= c < |s.conns| ==> c in done)
  {
    RunInv(mode, run, steps, i);
    OutstandingZero(run[i].conns);
    StepsCount(mode, run, steps, i);
  }

  lemma {:induction false} LeakStays(mode: Mode, run: seq<State>, steps: seq<Step>, i: nat, j: nat, c: nat)
    requires IsRun(mode, run, steps) && i <= j < |run| && c < |run[i].conns| && run[i].conns[c].Leaked()
    ensures c < |run[j].conns| && run[j].conns[c] == run[i].conns[c]
    decreases j
  {
    if i < j {
      LeakStays(mode, run, steps, i, j - 1, c);
    }
  }

  /** A connection that took an early return before PostFn was deferred, or whose handshake failed, keeps the
      counter above zero for ever after: a graceful shutdown then waits until its timeout. */
  lemma EarlyReturnsBlockShutdown(mode: Mode, run: seq<State>, steps: seq<Step>, i: nat, j: nat)
    requires IsRun(mode, run, steps) && i < j < |run| && (steps[i].EarlyReturn? || steps[i].HandshakeError?)
    ensures run[j].counter > 0
  {
    LeakStays(mode, run, steps, i + 1, j, steps[i].i);
    CounterIsOutstanding(mode, run, steps, j);
  }

  /** A connection that fails while its listener handles it is counted done by the server and never by the mixed
      listener: there it blocks every shutdown from then on. */
  lemma FailureWhileHandling(mode: Mode, run: seq<State>, steps: seq<Step>, i: nat, c: nat)
    requires IsRun(mode, run, steps) && i < |run| && c < |run[i].conns| && run[i].conns[c] == Handling
    ensures mode == Server <==> Can(mode, run[i], FirstFrameError(c))
    ensures mode == Mixed <==> Can(mode, run[i], HandshakeError(c))
    ensures mode == Server ==> Next(mode, run[i], FirstFrameError(c)).counter == run[i].counter - 1
    ensures mode == Mixed ==>
              forall more, t :: Leads(mode, Next(mode, run[i], HandshakeError(c)), more, t) ==> t.counter > 0
  {
    RunInv(mode, run, steps, i);
    if mode == Mixed {
      var s := Next(mode, run[i], HandshakeError(c));
      StepKeeps(mode, run[i], HandshakeError(c));
      forall more, t | Leads(mode, s, more, t) ensures t.counter > 0 {
        LeadsKeepsLeak(mode, s, more, t, c);
      }
    }
  }

  // ----- exactly when a shutdown can finish -----

  /** These steps lead from one state to the other. */
  ghost predicate Leads(mode: Mode, s: State, steps: seq<Step>, t: State)
    decreases |steps|
  {
    if steps == [] then t == s
    else Can(mode, s, steps[0]) && Leads(mode, Next(mode, s, steps[0]), steps[1..], t)
  }

  function PhaseLeft(p: Phase): nat {
    match p
    case Handling => 4
    case Queued => 3
    case Opening => 2
    case Relaying => 1
    case _ => 0
  }

  function AllLeft(conns: seq<Phase>): nat {
    if conns == [] then 0 else AllLeft(conns[..|conns| - 1]) + PhaseLeft(conns[|conns| - 1])
  }

  lemma {:induction false} LeftUpdate(conns: seq<Phase>, i: nat, p: Phase)
    requires i < |conns|
    ensures AllLeft(conns[i := p]) == AllLeft(conns) + PhaseLeft(p) - PhaseLeft(conns[i])
  {
    var front := conns[..|conns| - 1];
    if i == |conns| - 1 {
      assert conns[i := p][..|conns| - 1] == front;
    } else {
      LeftUpdate(front, i, p);
      assert conns[i := p][..|conns| - 1] == front[i := p];
    }
  }

  predicate NoneLeaked(s: State) {
    forall c :: 0 <= c < |s.conns| ==> !s.conns[c].Leaked()
  }

  /** A connection that has not leaked can be taken one phase further. */
  lemma Forward(mode: Mode, s: State, c: nat) returns (step: Step)
    requires NoneLeaked(s) && c < |s.conns| && !s.conns[c].Counted()
    ensures Can(mode, s, step) && NoneLeaked(Next(mode, s, step))
    ensures AllLeft(Next(mode, s, step).conns) < AllLeft(s.conns)
  {
    assert !s.conns[c].Leaked();
    match s.conns[c] {
      case Handling =>
        step := Enqueue(c);
        LeftUpdate(s.conns, c, Queued);
      case Queued =>
        step := Dequeue(c);
        LeftUpdate(s.conns, c, Opening);
      case Opening =>
        step := DeferPostFn(c);
        LeftUpdate(s.conns, c, Relaying);
      case Relaying =>
        step := PostFn(c);
        LeftUpdate(s.conns, c, Finished);
    }
  }

  lemma {:induction false} Finish(mode: Mode, s: State) returns (steps: seq<Step>, t: State)
    requires Inv(s) && NoneLeaked(s)
    ensures Leads(mode, s, steps, t) && t.counter == 0
    decreases AllLeft(s.conns)
  {
    if c :| 0 <= c < |s.conns| && !s.conns[c].Counted() {
      hide Inv, Can, Next, NoneLeaked;
      var step := Forward(mode, s, c);
      StepKeeps(mode, s, step);
      steps, t := Finish(mode, Next(mode, s, step));
      assert ([step] + steps)[1..] == steps;
      steps := [step] + steps;
    } else {
      OutstandingZero(s.conns);
      steps, t := [], s;
    }
  }

  lemma {:induction false} LeadsKeepsLeak(mode: Mode, s: State, steps: seq<Step>, t: State, c: nat)
    requires Inv(s) && Leads(mode, s, steps, t) && c < |s.conns| && s.conns[c].Leaked()
    ensures Inv(t) && t.counter > 0
    decreases |steps|
  {
    if steps == [] {
      OutstandingZero(s.conns);
    } else {
      StepKeeps(mode, s, steps[0]);
      LeadsKeepsLeak(mode, Next(mode, s, steps[0]), steps[1..], t, c);
    }
  }

  lemma {:induction false} LeakedByStep(mode: Mode, run: seq<State>, steps: seq<Step>, i: nat, c: nat)
    requires IsRun(mode, run, steps) && i < |run| && c < |run[i].conns| && run[i].conns[c].Leaked()
    ensures exists j :: 0 <= j < i && (steps[j].EarlyReturn? || steps[j].HandshakeError?)
  {
    if i > 0 && !(steps[i - 1].EarlyReturn? || steps[i - 1].HandshakeError?) {
      assert c < |run[i - 1].conns| && run[i - 1].conns[c] == run[i].conns[c];
      LeakedByStep(mode, run, steps, i - 1, c);
    }
  }

  /** The counter can still come to zero if and only if no connection has returned early or failed its handshake. */
  lemma ShutdownExactlyWhen(mode: Mode, run: seq<State>, steps: seq<Step>, i: nat)
    requires IsRun(mode, run, steps) && i < |run|
    ensures (exists more, t :: Leads(mode, run[i], more, t) && t.counter == 0) <==>
            forall j :: 0 <= j < i ==> !steps[j].EarlyReturn? && !steps[j].HandshakeError?
  {
    hide Can, Next, Inv, Leads;
    RunInv(mode, run, steps, i);
    if j :| 0 <= j < i && (steps[j].EarlyReturn? || steps[j].HandshakeError?) {
      var c := LeakedAfter(mode, run, steps, j, i);
      forall more, t | Leads(mode, run[i], more, t) ensures t.counter > 0 {
        LeadsKeepsLeak(mode, run[i], more, t, c);
      }
    } else {
      forall c | 0 <= c < |run[i].conns| ensures !run[i].conns[c].Leaked() {
        if run[i].conns[c].Leaked() {
          LeakedByStep(mode, run, steps, i, c);
        }
      }
      var more, t := Finish(mode, run[i]);
    }
  }

  lemma LeakedAfter(mode: Mode, run: seq<State>, steps: seq<Step>, j: nat, i: nat) returns (c: nat)
    requires IsRun(mode, run, steps) && j < i < |run| && (steps[j].EarlyReturn? || steps[j].HandshakeError?)
    ensures c < |run[i].conns| && run[i].conns[c].Leaked()
  {
    c := steps[j].i;
    LeakStays(mode, run, steps, j + 1, i, c);
  }
}
