/** When the resolver takes the process down: `putMsgToCache` looks at the first question of a reply. */
module ResolverCrash {
  import opened Bytes
  import opened LruSpec
  import opened Resolver
  import opened ResolverSafety

  /** A reply to this fetch that waits to be stored. */
  predicate Awaits(s: State, fid: nat) {
    fid in s.flights && s.flights[fid].stage.Replied? && s.flights[fid].stage.id in s.heap
  }

  function Awaiting(s: State, fid: nat): Msg
    requires Awaits(s, fid)
  {
    s.heap[s.flights[fid].stage.id]
  }

  /** A step crashes the process exactly when it stores a reply without a question. */
  lemma CrashStep(s: State, step: Step)
    requires Can(s, step)
    ensures Next(s, step).crashed <==> step.Store? && Awaiting(s, step.fid).questions == []
  {
    hide SetWithExpire, GetEntry, SetTtl, Cacheable, FirstTtl, Expiry;
  }

  lemma ReplyIsHeld(s: State, fid: nat)
    requires Inv(s) && fid in s.flights && s.flights[fid].stage.Replied?
    ensures Awaits(s, fid) && s.flights[fid].stage.id in s.role && s.role[s.flights[fid].stage.id] == InFlight(fid)
  {
    hide GenuineInv, CacheInv, CallsInv;
    assert ReplyHeld(s, fid);
  }

  /** Only its `Reply` makes a fetch wait to be stored, and no other step takes it back to waiting upstream. */
  lemma StageStep(s: State, step: Step, fid: nat)
    requires Can(s, step) && fid in Next(s, step).flights && step != Store(fid)
    ensures var f := Next(s, step).flights[fid];
            || (step.Reply? && step.fid == fid)
            || (f.stage.Replied? ==> fid in s.flights && s.flights[fid].stage == f.stage)
    ensures fid in s.flights && Next(s, step).flights[fid].stage == Waiting ==> s.flights[fid].stage == Waiting
  {
    hide SetWithExpire, GetEntry, SetTtl, Cacheable, FirstTtl, Expiry;
  }

  lemma FlightsRemain(s: State, step: Step, fid: nat)
    requires Can(s, step) && fid in s.flights
    ensures fid in Next(s, step).flights
  {
    hide SetWithExpire, GetEntry, SetTtl, Cacheable, FirstTtl, Expiry;
  }

  lemma ReplyStep(s: State, fid: nat, msg: Msg)
    requires Can(s, Step.Reply(fid, msg))
    ensures var t := Next(s, Step.Reply(fid, msg)); Awaits(t, fid) && Awaiting(t, fid) == msg
  {
  }

  /** A waiting reply keeps its contents until it is stored. */
  lemma AwaitingStays(s: State, step: Step, fid: nat)
    requires Inv(s) && Can(s, step) && step != Store(fid) && !(step.Reply? && step.fid == fid)
    requires fid in Next(s, step).flights && Next(s, step).flights[fid].stage.Replied?
    ensures Awaits(s, fid) && Awaits(Next(s, step), fid) && Awaiting(Next(s, step), fid) == Awaiting(s, fid)
  {
    hide Can, Next, GenuineInv, CacheInv, FlightsInv, CallsInv;
    StageStep(s, step, fid);
    ReplyIsHeld(s, fid);
    if step.Rewrite? || step.Mutate? {
      Writer(s, step);
    }
    ContentsStay(s, step, s.flights[fid].stage.id);
  }

  lemma Writer(s: State, step: Step)
    requires Inv(s) && Can(s, step) && (step.Rewrite? || step.Mutate?)
    ensures step.cid in s.calls && (s.calls[step.cid].pc.Copied? || s.calls[step.cid].pc.Got?)
    ensures Owns(s, step.cid, s.calls[step.cid].pc.own)
  {
    hide GenuineInv, CacheInv, FlightsInv, CallsInv;
    OwnerOf(s, step.cid);
  }

  /** What waits to be stored is what upstream replied. */
  lemma {:induction false} AwaitingIsReply(run: seq<State>, steps: seq<Step>, k: nat, j: nat, fid: nat, msg: Msg)
    requires IsRun(run, steps) && k < j < |run| && steps[k] == Step.Reply(fid, msg)
    ensures fid in run[j].flights && run[j].flights[fid].stage != Waiting
    ensures run[j].flights[fid].stage.Replied? ==> Awaits(run[j], fid) && Awaiting(run[j], fid) == msg
    decreases j
  {
    hide Inv, Can, Next, Awaits, Awaiting;
    if j == k + 1 {
      ReplyStep(run[k], fid, msg);
      Replied(run[j], fid);
    } else {
      AwaitingIsReply(run, steps, k, j - 1, fid, msg);
      var s, step := run[j - 1], steps[j - 1];
      RunInv(run, steps, j - 1);
      FlightsRemain(s, step, fid);
      if step == Store(fid) {
        AfterStore(s, fid);
      } else {
        NotAgain(s, step, fid);
        StageStep(s, step, fid);
        if run[j].flights[fid].stage.Replied? {
          AwaitingStays(s, step, fid);
        }
      }
    }
  }

  lemma Replied(s: State, fid: nat)
    requires Awaits(s, fid)
    ensures fid in s.flights && s.flights[fid].stage != Waiting
  {
  }

  lemma AfterStore(s: State, fid: nat)
    requires Can(s, Store(fid))
    ensures var t := Next(s, Store(fid)); fid in t.flights && t.flights[fid].stage != Waiting
    ensures var t := Next(s, Store(fid));
            t.flights[fid].stage.Replied? ==> Awaits(t, fid) && Awaits(s, fid) && Awaiting(t, fid) == Awaiting(s, fid)
    ensures s.flights[fid].stage.Replied?
  {
    hide SetWithExpire, Cacheable, FirstTtl, Expiry;
  }

  lemma NotAgain(s: State, step: Step, fid: nat)
    requires Can(s, step) && fid in s.flights && s.flights[fid].stage != Waiting
    ensures !(step.Reply? && step.fid == fid)
  {
  }

  /** And there was such a reply. */
  lemma {:induction false} AwaitingWasReplied(run: seq<State>, steps: seq<Step>, j: nat, fid: nat) returns (k: nat)
    requires IsRun(run, steps) && j < |run| && fid in run[j].flights && run[j].flights[fid].stage.Replied?
    ensures k < j && steps[k].Reply? && steps[k].fid == fid
  {
    hide Inv, Can, Next;
    if j == 0 {
      assert false;
    } else {
      var s, step := run[j - 1], steps[j - 1];
      if step == Store(fid) {
        AfterStore(s, fid);
        k := AwaitingWasReplied(run, steps, j - 1, fid);
      } else {
        StageStep(s, step, fid);
        if step.Reply? && step.fid == fid {
          k := j - 1;
        } else {
          k := AwaitingWasReplied(run, steps, j - 1, fid);
        }
      }
    }
  }

  /** Step `j` stores a reply that upstream gave without a question. */
  ghost predicate StoresUnasked(steps: seq<Step>, j: nat)
    requires j < |steps|
  {
    steps[j].Store? &&
    exists k :: 0 <= k < j && steps[k].Reply? && steps[k].fid == steps[j].fid && steps[k].msg.questions == []
  }

  lemma CrashIsUnasked(run: seq<State>, steps: seq<Step>, j: nat)
    requires IsRun(run, steps) && j < |steps|
    ensures run[j + 1].crashed <==> StoresUnasked(steps, j)
  {
    hide Inv, Next;
    CrashStep(run[j], steps[j]);
    if steps[j].Store? {
      var fid := steps[j].fid;
      forall k | 0 <= k < j && steps[k].Reply? && steps[k].fid == fid ensures steps[k].msg == Awaiting(run[j], fid) {
        AwaitingIsReply(run, steps, k, j, fid, steps[k].msg);
      }
      var k := AwaitingWasReplied(run, steps, j, fid);
    }
  }

  /** In every run the process has died exactly when some fetch stored an upstream reply that carries no question;
      this is then the last step. */
  lemma CrashExactlyWhen(run: seq<State>, steps: seq<Step>, i: nat)
    requires IsRun(run, steps) && i < |run|
    ensures run[i].crashed <==> exists j :: 0 <= j < i && StoresUnasked(steps, j)
    ensures run[i].crashed ==> i == |steps|
  {
    hide Inv, Next, StoresUnasked;
    AliveBeforeEnd(run, steps, i);
    if run[i].crashed {
      assert i > 0;
      CrashIsUnasked(run, steps, i - 1);
    } else {
      forall j | 0 <= j < i ensures !StoresUnasked(steps, j) {
        CrashIsUnasked(run, steps, j);
        AliveBeforeEnd(run, steps, j + 1);
      }
    }
  }

  lemma AliveBeforeEnd(run: seq<State>, steps: seq<Step>, i: nat)
    requires IsRun(run, steps) && i < |run|
    ensures i < |steps| ==> !run[i].crashed
  {
    if i < |steps| {
      assert Can(run[i], steps[i]);
    }
  }
}
