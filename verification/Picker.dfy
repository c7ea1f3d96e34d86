/** First success among concurrent jobs: the picker, and the DNS batch exchange built on it. */
module Picker {
  import opened Bytes

  /** A goroutine started by `Go`: running `f`, back from `f`, through its once-gate, done with the wait group. */
  datatype Job<V, E> =
    | Running
    | Returned(out: Result<V, E>)
    | Recorded(out: Result<V, E>)
    | Finished(out: Result<V, E>)
  {
    predicate Gated() { Recorded? || Finished? }
  }

  /** `gates`: the outcomes in the order in which their jobs went through the two once-gates. */
  datatype State<V, E> = State(jobs: seq<Job<V, E>>, result: Option<V>, err: Option<E>,
                               gates: seq<(nat, Result<V, E>)>, waited: Option<Option<V>>)

  datatype Step<V, E> =
    | Go
    | Return(i: nat, out: Result<V, E>)
    | Gate(i: nat)
    | Finish(i: nat)
    | Wait

  function Start<V, E>(): State<V, E> {
    State([], None, None, [], None)
  }

  predicate Can<V, E>(s: State<V, E>, step: Step<V, E>) {
    match step
    case Go => s.waited.None?
    case Return(i, _) => i < |s.jobs| && s.jobs[i].Running?
    case Gate(i) => i < |s.jobs| && s.jobs[i].Returned?
    case Finish(i) => i < |s.jobs| && s.jobs[i].Recorded?
    case Wait => s.waited.None? && forall i :: 0 <= i < |s.jobs| ==> s.jobs[i].Finished?
  }

  function Next<V, E>(s: State<V, E>, step: Step<V, E>): State<V, E>
    requires Can(s, step)
  {
    match step
    case Go => s.(jobs := s.jobs + [Running])
    case Return(i, out) => s.(jobs := s.jobs[i := Returned(out)])
    case Gate(i) =>
      var out := s.jobs[i].out;
      s.(jobs := s.jobs[i := Recorded(out)],
         gates := s.gates + [(i, out)],
         result := if out.Ok? && s.result.None? then Some(out.value) else s.result,
         err := if out.Err? && s.err.None? then Some(out.error) else s.err)
    case Finish(i) => s.(jobs := s.jobs[i := Finished(s.jobs[i].out)])
    case Wait => s.(waited := Some(s.result))
  }

  // ----- the reference: the first success and the first failure of the gate order -----

  function FirstOk<V, E>(gates: seq<(nat, Result<V, E>)>): (r: Option<V>)
    ensures r.None? <==> forall i :: 0 <= i < |gates| ==> gates[i].1.Err?
  {
    if gates == [] then None
    else if gates[0].1.Ok? then Some(gates[0].1.value)
    else
      assert forall i :: 0 < i < |gates| ==> gates[i] == gates[1..][i - 1];
      assert forall i :: 0 <= i < |gates| - 1 ==> gates[1..][i] == gates[i + 1];
      FirstOk(gates[1..])
  }

  function FirstErr<V, E>(gates: seq<(nat, Result<V, E>)>): Option<E> {
    if gates == [] then None
    else if gates[0].1.Err? then Some(gates[0].1.error)
    else FirstErr(gates[1..])
  }

  lemma {:induction false} FirstsSnoc<V, E>(gates: seq<(nat, Result<V, E>)>, g: (nat, Result<V, E>))
    ensures FirstOk(gates + [g]) ==
            if FirstOk(gates).Some? then FirstOk(gates) else if g.1.Ok? then Some(g.1.value) else None
    ensures FirstErr(gates + [g]) ==
            if FirstErr(gates).Some? then FirstErr(gates) else if g.1.Err? then Some(g.1.error) else None
  {
    if gates == [] {
      assert [g][1..] == [];
    } else {
      assert (gates + [g])[1..] == gates[1..] + [g];
      FirstsSnoc(gates[1..], g);
    }
  }

  /** The gate log holds exactly the gated jobs, each once, with their outcomes. */
  ghost predicate Logged<V, E>(s: State<V, E>) {
    && (forall j {:trigger s.gates[j]} :: 0 <= j < |s.gates| ==>
          s.gates[j].0 < |s.jobs| && s.jobs[s.gates[j].0].Gated() && s.jobs[s.gates[j].0].out == s.gates[j].1)
    && (forall a, b :: 0 <= a < b < |s.gates| ==> s.gates[a].0 != s.gates[b].0)
    && (forall i {:trigger s.jobs[i]} :: 0 <= i < |s.jobs| && s.jobs[i].Gated() ==> (i, s.jobs[i].out) in s.gates)
  }

  ghost predicate Inv<V, E>(s: State<V, E>) {
    && Logged(s)
    && s.result == FirstOk(s.gates)
    && s.err == FirstErr(s.gates)
    && (s.waited.Some? ==> s.waited.value == s.result && forall i :: 0 <= i < |s.jobs| ==> s.jobs[i].Finished?)
  }

  lemma StepKeeps<V, E>(s: State<V, E>, step: Step<V, E>)
    requires Inv(s) && Can(s, step)
    ensures Inv(Next(s, step))
  {
    hide FirstOk, FirstErr;
    match step
    case Gate(i) =>
      hide Logged;
      FirstsSnoc(s.gates, (i, s.jobs[i].out));
      GateKeepsLog(s, i);
    case _ =>
  }

  lemma GateKeepsLog<V, E>(s: State<V, E>, i: nat)
    requires Logged(s) && Can(s, Gate(i))
    ensures Logged(Next(s, Gate(i)))
  {
    var s' := Next(s, Gate(i));
    assert s'.gates[|s.gates|] == (i, s.jobs[i].out);
    forall k | 0 <= k < |s'.jobs| && s'.jobs[k].Gated() ensures (k, s'.jobs[k].out) in s'.gates {
      if k != i {
        assert (k, s.jobs[k].out) in s.gates;
      }
    }
  }

  ghost predicate IsRun<V, E>(run: seq<State<V, E>>, steps: seq<Step<V, E>>) {
    && |run| == |steps| + 1 && run[0] == Start()
    && forall i :: 0 <= i < |steps| ==> Can(run[i], steps[i]) && run[i + 1] == Next(run[i], steps[i])
  }

  lemma {:induction false} RunInv<V, E>(run: seq<State<V, E>>, steps: seq<Step<V, E>>, i: nat)
    requires IsRun(run, steps) && i < |run|
    ensures Inv(run[i])
  {
    if i > 0 {
      RunInv(run, steps, i - 1);
      StepKeeps(run[i - 1], steps[i - 1]);
    }
  }

  /** The outcomes of the jobs in the order in which the first `k` steps took them through their gates. */
  ghost function GateLog<V, E>(run: seq<State<V, E>>, steps: seq<Step<V, E>>, k: nat): seq<(nat, Result<V, E>)>
    requires IsRun(run, steps) && k <= |steps|
  {
    if k == 0 then []
    else
      GateLog(run, steps, k - 1) +
      if steps[k - 1].Gate? then [(steps[k - 1].i, run[k - 1].jobs[steps[k - 1].i].out)] else []
  }

  lemma {:induction false} GatesAreSteps<V, E>(run: seq<State<V, E>>, steps: seq<Step<V, E>>, k: nat)
    requires IsRun(run, steps) && k <= |steps|
    ensures run[k].gates == GateLog(run, steps, k)
  {
    if k > 0 {
      GatesAreSteps(run, steps, k - 1);
      assert run[k] == Next(run[k - 1], steps[k - 1]);
    }
  }

  /** What a job returned is what came back from it. */
  lemma {:induction false} OutcomesWereReturned<V, E>(run: seq<State<V, E>>, steps: seq<Step<V, E>>, i: nat, k: nat)
    requires IsRun(run, steps) && i < |run| && k < |run[i].jobs| && !run[i].jobs[k].Running?
    ensures exists j :: 0 <= j < i && steps[j] == Step.Return(k, run[i].jobs[k].out)
  {
    if i > 0 && steps[i - 1] != Step.Return(k, run[i].jobs[k].out) {
      assert run[i] == Next(run[i - 1], steps[i - 1]);
      OutcomesWereReturned(run, steps, i - 1, k);
    }
  }

  /** In every interleaving, what `Wait` returns is the value of the first job to go through the success gate, and
      it returns nil exactly when every job failed; `Error` is that of the first job to go through the other. Every
      job went through one of them once, with what it had returned. */
  lemma WaitReturnsFirst<V, E>(run: seq<State<V, E>>, steps: seq<Step<V, E>>, i: nat)
    requires IsRun(run, steps) && i < |run| && run[i].waited.Some?
    ensures var s, log := run[i], GateLog(run, steps, i);
            && (s.waited.value.Some? ==>
                  exists a :: 0 <= a < |log| && log[a].1 == Ok(s.waited.value.value) &&
                              forall b :: 0 <= b < a ==> log[b].1.Err?)
            && (s.err.Some? ==>
                  exists a :: 0 <= a < |log| && log[a].1 == Err(s.err.value) && forall b :: 0 <= b < a ==> log[b].1.Ok?)
            && (forall a, b :: 0 <= a < b < |log| ==> log[a].0 != log[b].0)
            && (forall k :: 0 <= k < |s.jobs| ==> s.jobs[k].Finished? && (k, s.jobs[k].out) in log)
            && (s.waited.value.None? <==> forall k :: 0 <= k < |s.jobs| ==> s.jobs[k].out.Err?)
            && (s.err.None? <==> forall k :: 0 <= k < |s.jobs| ==> s.jobs[k].out.Ok?)
            && (s.waited.value.Some? ==> exists k :: 0 <= k < |s.jobs| && s.jobs[k].out == Ok(s.waited.value.value))
  {
    hide FirstOk, FirstErr;
    RunInv(run, steps, i);
    GatesAreSteps(run, steps, i);
    var s := run[i];
    FirstIsThere(s.gates);
    FirstErrIsThere(s.gates);
  }

  lemma {:induction false} FirstIsThere<V, E>(gates: seq<(nat, Result<V, E>)>)
    ensures FirstOk(gates).Some? ==>
              exists a :: 0 <= a < |gates| && gates[a].1 == Ok(FirstOk(gates).value) &&
                          forall b :: 0 <= b < a ==> gates[b].1.Err?
  {
    if gates != [] && gates[0].1.Err? {
      FirstIsThere(gates[1..]);
      if FirstOk(gates).Some? {
        var a :| 0 <= a < |gates| - 1 && gates[1..][a].1 == Ok(FirstOk(gates).value) &&
                 forall b :: 0 <= b < a ==> gates[1..][b].1.Err?;
        assert gates[a + 1].1 == Ok(FirstOk(gates).value);
        assert forall b :: 0 < b < a + 1 ==> gates[b] == gates[1..][b - 1];
      }
    } else if gates != [] {
      assert gates[0].1 == Ok(FirstOk(gates).value);
    }
  }

  lemma {:induction false} FirstErrIsThere<V, E>(gates: seq<(nat, Result<V, E>)>)
    ensures FirstErr(gates).Some? ==>
              exists a :: 0 <= a < |gates| && gates[a].1 == Err(FirstErr(gates).value) &&
                          forall b :: 0 <= b < a ==> gates[b].1.Ok?
    ensures FirstErr(gates).None? ==> forall a :: 0 <= a < |gates| ==> gates[a].1.Ok?
  {
    if gates != [] && gates[0].1.Ok? {
      FirstErrIsThere(gates[1..]);
      assert forall b :: 0 < b < |gates| ==> gates[b] == gates[1..][b - 1];
      if FirstErr(gates).Some? {
        var a :| 0 <= a < |gates| - 1 && gates[1..][a].1 == Err(FirstErr(gates).value) &&
                 forall b :: 0 <= b < a ==> gates[1..][b].1.Ok?;
        assert gates[a + 1].1 == Err(FirstErr(gates).value);
      }
    } else if gates != [] {
      assert gates[0].1 == Err(FirstErr(gates).value);
    }
  }

  // ----- the batch exchange -----

  const SERVER_FAILURE: nat := 2
  const REFUSED: nat := 5

  /** What the job of one DNS client returns: an answer of server failure or refusal counts as an error. */
  function Judged<M, E>(answer: Result<M, E>, rcode: M -> nat, failure: E): Result<M, E> {
    if answer.Ok? && (rcode(answer.value) == SERVER_FAILURE || rcode(answer.value) == REFUSED) then Err(failure)
    else answer
  }

  /** `batchExchange`: an error, with the first failure if there was any job, or the picked reply. */
  function BatchExchange<M, E>(s: State<M, E>): Result<M, Option<E>>
    requires s.waited.Some?
  {
    match s.waited.value
    case None => Err(s.err)
    case Some(m) => Ok(m)
  }

  /** The jobs of the run are those of the batch exchange: each returns what its client's answer is judged. */
  ghost predicate Exchanges<M, E>(steps: seq<Step<M, E>>, answers: seq<Result<M, E>>, rcode: M -> nat, failure: E) {
    forall j {:trigger steps[j]} :: 0 <= j < |steps| && steps[j].Return? && steps[j].i < |answers| ==>
      steps[j].out == Judged(answers[steps[j].i], rcode, failure)
  }

  lemma {:induction false} OutcomesAreJudged<M, E>(run: seq<State<M, E>>, steps: seq<Step<M, E>>, i: nat,
                                                   answers: seq<Result<M, E>>, rcode: M -> nat, failure: E)
    requires IsRun(run, steps) && i < |run| && Exchanges(steps, answers, rcode, failure)
    ensures forall k {:trigger run[i].jobs[k]} ::
              0 <= k < |run[i].jobs| && k < |answers| && !run[i].jobs[k].Running? ==>
              run[i].jobs[k].out == Judged(answers[k], rcode, failure)
  {
    hide Judged;
    if i > 0 {
      OutcomesAreJudged(run, steps, i - 1, answers, rcode, failure);
      assert run[i] == Next(run[i - 1], steps[i - 1]);
    }
  }

  /** In every interleaving of the clients, a reply that is returned was given by one of them and its RCODE
      (section 4.1.1 of RFC 1035) is neither server failure nor refused; an error is returned exactly when
      all of them failed in that sense, and carries a failure unless there were no clients. */
  lemma BatchPicksGoodReply<M, E>(run: seq<State<M, E>>, steps: seq<Step<M, E>>, i: nat,
                                  answers: seq<Result<M, E>>, rcode: M -> nat, failure: E)
    requires IsRun(run, steps) && i < |run| && run[i].waited.Some? && |answers| == |run[i].jobs|
    requires Exchanges(steps, answers, rcode, failure)
    ensures var r := BatchExchange(run[i]);
            && (r.Ok? ==> rcode(r.value) != 2 && rcode(r.value) != 5 && Ok(r.value) in answers)
            && (r.Err? <==>
                forall k :: 0 <= k < |answers| ==> answers[k].Err? || rcode(answers[k].value) in [2, 5])
            && (r.Err? ==> (r.error.None? <==> answers == []))
  {
    WaitReturnsFirst(run, steps, i);
    OutcomesAreJudged(run, steps, i, answers, rcode, failure);
    var s := run[i];
    forall k | 0 <= k < |s.jobs|
      ensures s.jobs[k].out == Judged(answers[k], rcode, failure)
      ensures s.jobs[k].out.Err? <==> answers[k].Err? || rcode(answers[k].value) in [2, 5]
    {
      assert !s.jobs[k].Running?;
    }
    if s.waited.value.Some? {
      var k :| 0 <= k < |s.jobs| && s.jobs[k].out == Ok(s.waited.value.value);
      assert answers[k] == Ok(s.waited.value.value);
    } else {
      RunInv(run, steps, i);
      if answers != [] {
        assert (0, s.jobs[0].out) in s.gates;
      }
    }
  }

  // ----- waiting always ends -----

  /** These steps lead from one state to the other. */
  ghost predicate Leads<V, E>(s: State<V, E>, steps: seq<Step<V, E>>, t: State<V, E>)
    decreases |steps|
  {
    if steps == [] then t == s else Can(s, steps[0]) && Leads(Next(s, steps[0]), steps[1..], t)
  }

  function JobLeft<V, E>(j: Job<V, E>): nat {
    match j
    case Running => 3
    case Returned(_) => 2
    case Recorded(_) => 1
    case Finished(_) => 0
  }

  function JobsLeft<V, E>(jobs: seq<Job<V, E>>): nat {
    if jobs == [] then 0 else JobsLeft(jobs[..|jobs| - 1]) + JobLeft(jobs[|jobs| - 1])
  }

  lemma {:induction false} LeftUpdate<V, E>(jobs: seq<Job<V, E>>, i: nat, j: Job<V, E>)
    requires i < |jobs|
    ensures JobsLeft(jobs[i := j]) == JobsLeft(jobs) + JobLeft(j) - JobLeft(jobs[i])
  {
    var front := jobs[..|jobs| - 1];
    if i == |jobs| - 1 {
      assert jobs[i := j][..|jobs| - 1] == front;
    } else {
      LeftUpdate(front, i, j);
      assert jobs[i := j][..|jobs| - 1] == front[i := j];
    }
  }

  lemma Forward<V, E>(s: State<V, E>, i: nat, out: Result<V, E>) returns (step: Step<V, E>)
    requires i < |s.jobs| && !s.jobs[i].Finished?
    ensures Can(s, step) && !step.Wait? && JobsLeft(Next(s, step).jobs) < JobsLeft(s.jobs)
    ensures Next(s, step).waited == s.waited
  {
    match s.jobs[i] {
      case Running =>
        step := Return(i, out);
        LeftUpdate(s.jobs, i, Returned(out));
      case Returned(o) =>
        step := Gate(i);
        LeftUpdate(s.jobs, i, Recorded(o));
      case Recorded(o) =>
        step := Finish(i);
        LeftUpdate(s.jobs, i, Finished(o));
    }
  }

  /** As long as nobody has waited yet, whatever the jobs still running come to return, there are steps after which
      `Wait` has returned: it needs every job to go through its gate, and every job can. */
  lemma {:induction false} WaitPossible<V, E>(s: State<V, E>, out: Result<V, E>)
      returns (steps: seq<Step<V, E>>, t: State<V, E>)
    requires s.waited.None?
    ensures Leads(s, steps, t) && t.waited.Some?
    decreases JobsLeft(s.jobs)
  {
    if i :| 0 <= i < |s.jobs| && !s.jobs[i].Finished? {
      hide Can, Next;
      var step := Forward(s, i, out);
      steps, t := WaitPossible(Next(s, step), out);
      assert ([step] + steps)[1..] == steps;
      steps := [step] + steps;
    } else {
      steps, t := [Step.Wait], Next(s, Step.Wait);
      assert [Step<V, E>.Wait][1..] == [];
    }
  }
}
