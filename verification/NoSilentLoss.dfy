/** No enqueued batch disappears silently, in any run of the pipeline, except by the one step that
    acknowledges a batch which could neither be ingested nor saved as failed. */
module NoSilentLoss {
  import opened Prelude
  import opened Store
  import opened Pipeline
  import Q = Queue

  /** The batch's failed-ingest row is there and not resolved. */
  ghost predicate AwaitsRetry(s: State, msg: nat) {
    exists r :: 0 <= r < |s.origins| && r < |s.tables.failed| && s.origins[r] == msg && !s.tables.failed[r].resolved
  }

  /** The batch is undelivered, pending, fully inserted at least once, or awaits a retry. */
  ghost predicate Safe(s: State, msg: nat) {
    || s.queue.cursor <= msg
    || msg in s.queue.pending
    || Copied(s.inserts, msg)
    || AwaitsRetry(s, msg)
  }

  /** The step acknowledges `msg` after `SaveFailed` had no effect. */
  ghost predicate GivesUpUnsaved(s: State, step: Step, msg: nat) {
    && step.Advance? && step.outcome != Refused
    && step.job < |s.jobs|
    && var j := s.jobs[step.job]; j.Ingest? && j.msg == msg && j.pc == GivingUp(false)
  }

  /** A row that is there keeps its message safe: resolved rows were copied. */
  lemma {:induction false} RowMakesSafe(s: State, msg: nat)
    requires Inv(s) && HasRow(s.origins, msg)
    ensures Copied(s.inserts, msg) || AwaitsRetry(s, msg)
  {
    var r :| 0 <= r < |s.origins| && s.origins[r] == msg;
    if !s.tables.failed[r].resolved {
      assert AwaitsRetry(s, msg);
    }
  }

  /** An acknowledgement takes the message out of the pending set; everything else a message's safety
      rests on survives every step. */
  lemma {:induction false} SafetyKept(s: State, step: Step, msg: nat)
    requires Inv(s) && Next(s, step).Some? && Safe(s, msg) && msg < |s.queue.entries|
    ensures
      var s' := Next(s, step).value;
      Safe(s', msg)
      || (msg in s.queue.pending && msg !in s'.queue.pending && !Copied(s.inserts, msg) && !HasRow(s.origins, msg))
  {
    var s' := Next(s, step).value;
    NextKeepsInv(s, step);
    CopiedExtends(s.inserts, s'.inserts, msg);
    if HasRow(s.origins, msg) {
      var r :| 0 <= r < |s.origins| && s.origins[r] == msg;
      assert s'.origins[r] == msg;
      RowMakesSafe(s', msg);
    } else if s.queue.cursor <= msg {
      assert s'.queue.cursor <= msg || msg in s'.queue.pending;
    }
  }

  /** Who can take a message out of the pending set. */
  lemma {:induction false} OnlyAcksLeavePending(s: State, step: Step, msg: nat)
    requires Inv(s) && Next(s, step).Some?
    requires msg in s.queue.pending && msg !in Next(s, step).value.queue.pending
    ensures step.Advance? && step.outcome != Refused && step.job < |s.jobs|
    ensures var j := s.jobs[step.job]; j.Ingest? && j.msg == msg && (j.pc.Acking? || j.pc.GivingUp?)
  {
  }

  /** Exactly when a step breaks a message's safety: it acknowledges the message after an unsaved
      give-up, and no other delivery has inserted or saved it. */
  lemma {:induction false} LossIff(s: State, step: Step, msg: nat)
    requires Inv(s) && Next(s, step).Some? && Safe(s, msg) && msg < |s.queue.entries|
    ensures !Safe(Next(s, step).value, msg) <==>
            GivesUpUnsaved(s, step, msg) && !Copied(s.inserts, msg) && !AwaitsRetry(s, msg)
  {
    var s' := Next(s, step).value;
    SafetyKept(s, step, msg);
    if !Safe(s', msg) {
      OnlyAcksLeavePending(s, step, msg);
      assert JobOk(s, s.jobs[step.job]);
    }
    if GivesUpUnsaved(s, step, msg) && !Copied(s.inserts, msg) && !AwaitsRetry(s, msg) {
      assert JobOk(s, s.jobs[step.job]);
      assert s'.inserts == s.inserts && s'.origins == s.origins && s'.tables == s.tables;
      assert msg !in s'.queue.pending && s'.queue.cursor == s.queue.cursor;
    }
  }

  /** No step of the run gives `msg` up unsaved. */
  ghost predicate NeverGivenUpUnsaved(s: State, steps: seq<Step>, msg: nat)
    decreases |steps|
  {
    steps != [] ==>
      var front := steps[..|steps| - 1];
      && NeverGivenUpUnsaved(s, front, msg)
      && (Run(s, front).Some? ==> !GivesUpUnsaved(Run(s, front).value, steps[|steps| - 1], msg))
  }

  /** In every run, under any crashes, failed or unconfirmed calls and acknowledgements, concurrent
      deliveries, retries and erasures, every enqueued batch is safe, provided only that no step
      acknowledged it after its last attempt and its `SaveFailed` had both failed. */
  lemma {:induction false} NoBatchIsLost(steps: seq<Step>, msg: nat)
    requires Run(INIT, steps).Some? && msg < |Run(INIT, steps).value.queue.entries|
    requires NeverGivenUpUnsaved(INIT, steps, msg)
    ensures Safe(Run(INIT, steps).value, msg)
  {
    if steps != [] {
      var front, step := steps[..|steps| - 1], steps[|steps| - 1];
      var mid := Run(INIT, front).value;
      RunKeepsInv(INIT, front);
      if msg < |mid.queue.entries| {
        NoBatchIsLost(front, msg);
        LossIff(mid, step, msg);
      } else {
        assert step.Enqueue?;
      }
    }
  }

  /** The loss is real: four refused attempts, a refused save and an acknowledgement, from the start. */
  lemma {:induction false} LossHappens(req: Request)
    ensures exists steps :: && Run(INIT, steps).Some?
                            && |Run(INIT, steps).value.queue.entries| == 1
                            && !Safe(Run(INIT, steps).value, 0)
  {
    var steps := RefusedSoFar(req, ATTEMPTS - 1);
    Refuses(req, ATTEMPTS - 1);
    steps := Onward(steps, OneJob(req, Delivery(ATTEMPTS - 1), Ingesting(0, 0)), Advance(0, Refused, 0));
    GivesUp(req);
    steps := Onward(steps, OneJob(req, Delivery(ATTEMPTS - 1), Saving), Advance(0, Refused, 0));
    steps := Onward(steps, OneJob(req, Delivery(ATTEMPTS - 1), GivingUp(false)), Advance(0, Ok, 0));
  }

  lemma {:induction false} Onward(steps: seq<Step>, s: State, step: Step) returns (steps': seq<Step>)
    requires Run(INIT, steps) == Some(s) && Next(s, step).Some?
    ensures Run(INIT, steps') == Next(s, step)
  {
    var s';
    s', steps' := Lead(INIT, s, steps, step);
  }

  /** A run in which the first `a` attempts of the only message have been refused. */
  lemma {:induction false} RefusedSoFar(req: Request, a: nat) returns (steps: seq<Step>)
    requires a < ATTEMPTS
    ensures Run(INIT, steps) == Some(OneJob(req, Delivery(a), Ingesting(0, 0)))
  {
    if a == 0 {
      steps := DeliveredFirst(req);
    } else {
      steps := RefusedSoFar(req, a - 1);
      steps := RefusedOnceMore(req, a - 1, steps);
    }
  }

  lemma {:induction false} RefusedOnceMore(req: Request, a: nat, steps: seq<Step>) returns (steps': seq<Step>)
    requires a + 1 < ATTEMPTS && Run(INIT, steps) == Some(OneJob(req, Delivery(a), Ingesting(0, 0)))
    ensures Run(INIT, steps') == Some(OneJob(req, Delivery(a + 1), Ingesting(0, 0)))
  {
    Refuses(req, a);
    steps' := Onward(steps, OneJob(req, Delivery(a), Ingesting(0, 0)), Advance(0, Refused, 0));
  }

  lemma {:induction false} DeliveredFirst(req: Request) returns (steps: seq<Step>)
    ensures Run(INIT, steps) == Some(OneJob(req, Delivery(0), Ingesting(0, 0)))
  {
    Delivers(req);
    steps := Onward([], INIT, Enqueue(req));
    steps := Onward(steps, Next(INIT, Enqueue(req)).value, Read(true));
  }

  lemma {:induction false} Delivers(req: Request)
    ensures Next(INIT, Enqueue(req)).Some?
    ensures Next(Next(INIT, Enqueue(req)).value, Read(true)) == Some(OneJob(req, Delivery(0), Ingesting(0, 0)))
  {
    var s := Next(Next(INIT, Enqueue(req)).value, Read(true)).value;
    assert s.queue == Q.State([req], 1, {0});
    assert s.jobs == [Ingest(Delivery(0), 0, req, Ingesting(0, 0), 0)];
  }

  lemma {:induction false} Refuses(req: Request, a: nat)
    requires a < ATTEMPTS
    ensures Next(OneJob(req, Delivery(a), Ingesting(0, 0)), Advance(0, Refused, 0)) ==
            Some(if a + 1 < ATTEMPTS then OneJob(req, Delivery(a + 1), Ingesting(0, 0)) else OneJob(req, Delivery(a), Saving))
  {
    var s := OneJob(req, Delivery(a), Ingesting(0, 0));
    assert s.jobs[0 := AttemptFailed(s.jobs[0])] == [AttemptFailed(s.jobs[0])];
  }

  lemma {:induction false} GivesUp(req: Request)
    ensures
      var s := OneJob(req, Delivery(ATTEMPTS - 1), Saving);
      var s1 := Next(s, Advance(0, Refused, 0));
      && s1 == Some(OneJob(req, Delivery(ATTEMPTS - 1), GivingUp(false)))
      && var s2 := Next(s1.value, Advance(0, Ok, 0));
         s2.Some? && s2.value.queue == Q.State([req], 1, {}) && !Safe(s2.value, 0)
  {
    var s := OneJob(req, Delivery(ATTEMPTS - 1), Saving);
    assert s.jobs[0 := s.jobs[0].(pc := GivingUp(false))] == [s.jobs[0].(pc := GivingUp(false))];
  }

  /** One message, delivered once, nothing stored. */
  function OneJob(req: Request, work: Work, pc: Pc): State {
    State(Q.State([req], 1, {0}), NO_TABLES, [Ingest(work, 0, req, pc, 0)], [], [], {})
  }

  // ---------------------------------------------------------------------------------------------
  // Failed-ingest rows

  lemma {:induction false} NextOnlyResolves(s: State, step: Step)
    requires Next(s, step).Some?
    ensures OnlyResolves(s.tables.failed, Next(s, step).value.tables.failed)
  {
    if step.Advance? && s.jobs[step.job].Ingest? && s.jobs[step.job].pc.Ingesting? && step.outcome != Refused {
      var j := s.jobs[step.job];
      AppliedKeepsFailed(s.tables, IngestCalls(j.req)[j.pc.k], j.req, if j.pc.k == 0 then step.now else j.pc.now);
    }
  }

  /** Over every run, concurrent retries included: no failed-ingest row goes away or becomes unresolved
      again, and every resolved one has had its whole batch inserted. */
  lemma {:induction false} RetriesOverRuns(steps: seq<Step>, n: nat)
    requires Run(INIT, steps).Some? && n <= |steps|
    ensures
      var s := Run(INIT, steps).value;
      && Run(INIT, steps[..n]).Some?
      && OnlyResolves(Run(INIT, steps[..n]).value.tables.failed, s.tables.failed)
      && |s.origins| == |s.tables.failed|
      && forall r :: 0 <= r < |s.origins| && s.tables.failed[r].resolved ==> Copied(s.inserts, s.origins[r])
    decreases |steps|
  {
    RunKeepsInv(INIT, steps);
    if n == |steps| {
      assert steps[..n] == steps;
    } else {
      var front := steps[..|steps| - 1];
      RetriesOverRuns(front, n);
      assert front[..n] == steps[..n];
      NextOnlyResolves(Run(INIT, front).value, steps[|steps| - 1]);
    }
  }

  /** The step is the resolving write of a retry of row `r`, and it takes effect. */
  ghost predicate ResolvesRow(s: State, step: Step, r: nat) {
    && step.Advance? && step.outcome != Refused && step.job < |s.jobs|
    && var j := s.jobs[step.job]; j.Ingest? && j.pc == Resolving && j.work == Retry(r)
  }

  /** Exactly which step resolves a row. No other row and nothing else of the row is touched by it. */
  lemma {:induction false} ResolvedIff(s: State, step: Step, r: nat)
    requires Inv(s) && Next(s, step).Some? && r < |s.tables.failed|
    ensures
      var failed, failed' := s.tables.failed, Next(s, step).value.tables.failed;
      && r < |failed'| && failed'[r].payload == failed[r].payload && failed'[r].retries == failed[r].retries
      && (failed'[r].resolved <==> failed[r].resolved || ResolvesRow(s, step, r))
  {
    if CallBy(s, step).Some? {
      var c := CallBy(s, step).value;
      CallTakesEffect(s, step);
      AppliedKeepsFailed(s.tables, c.call, c.req, c.now);
    }
  }

  /** What the resolving write of a retry does, besides resolving its row: it ends the retry, successfully
      if it was confirmed. */
  lemma {:induction false} ResolvingEndsRetry(s: State, i: nat, outcome: Outcome, now: int)
    requires i < |s.jobs| && s.jobs[i].Ingest? && s.jobs[i].pc == Resolving && s.jobs[i].work.Retry?
    ensures
      var s' := Next(s, Advance(i, outcome, now));
      && s'.Some? && |s'.value.jobs| == |s.jobs|
      && s'.value.jobs[i] == s.jobs[i].(pc := Finished(if outcome == Ok then Succeeded else Failed))
      && (forall n :: 0 <= n < |s.jobs| && n != i ==> s'.value.jobs[n] == s.jobs[n])
      && s'.value == s.(jobs := s'.value.jobs, tables := s.tables.(failed := s'.value.tables.failed))
  {
  }

  /** Every retry that has succeeded has its row resolved. */
  ghost predicate SuccessesResolved(s: State) {
    forall i :: 0 <= i < |s.jobs| && s.jobs[i].Ingest? && s.jobs[i].work.Retry? && s.jobs[i].pc == Finished(Succeeded) ==>
                  s.jobs[i].work.row < |s.tables.failed| && s.tables.failed[s.jobs[i].work.row].resolved
  }

  lemma {:induction false} NextKeepsSuccesses(s: State, step: Step)
    requires Inv(s) && Next(s, step).Some? && SuccessesResolved(s)
    ensures SuccessesResolved(Next(s, step).value)
  {
    var s' := Next(s, step).value;
    NextOnlyResolves(s, step);
    forall i | 0 <= i < |s'.jobs| && s'.jobs[i].Ingest? && s'.jobs[i].work.Retry? && s'.jobs[i].pc == Finished(Succeeded)
      ensures s'.jobs[i].work.row < |s'.tables.failed| && s'.tables.failed[s'.jobs[i].work.row].resolved
    {
      SuccessCame(s, step, i);
      if ResolvesRow(s, step, s'.jobs[i].work.row) {
        assert JobOk(s, s.jobs[step.job]);
        ResolvedIff(s, step, s'.jobs[i].work.row);
      }
    }
  }

  /** A retry's success was there before, or comes with its resolving write. */
  lemma {:induction false} SuccessCame(s: State, step: Step, i: nat)
    requires Inv(s) && Next(s, step).Some? && i < |Next(s, step).value.jobs|
    requires
      var j := Next(s, step).value.jobs[i];
      j.Ingest? && j.work.Retry? && j.pc == Finished(Succeeded)
    ensures
      || (i < |s.jobs| && s.jobs[i] == Next(s, step).value.jobs[i])
      || ResolvesRow(s, step, Next(s, step).value.jobs[i].work.row)
  {
    if step.Advance? && step.job == i {
      SuccessAdvances(s, i, step.outcome, step.now);
    } else if i < |s.jobs| {
      OthersStay(s, step, i);
    }
  }

  lemma {:induction false} SuccessAdvances(s: State, i: nat, outcome: Outcome, now: int)
    requires i < |s.jobs| && JobOk(s, s.jobs[i]) && AdvanceStep(s, i, outcome, now).Some?
    requires
      var j := AdvanceStep(s, i, outcome, now).value.jobs[i];
      j.Ingest? && j.work.Retry? && j.pc == Finished(Succeeded)
    ensures ResolvesRow(s, Advance(i, outcome, now), AdvanceStep(s, i, outcome, now).value.jobs[i].work.row)
  {
  }

  lemma {:induction false} OthersStay(s: State, step: Step, i: nat)
    requires Next(s, step).Some? && i < |s.jobs| && !(step.Advance? && step.job == i)
    ensures i < |Next(s, step).value.jobs|
    ensures
      var j := Next(s, step).value.jobs[i];
      j == s.jobs[i] || (step == Crash(i) && (j.Ingest? ==> j.pc == Finished(Crashed)))
  {
  }

  /** In every run, a retry that ended in success has resolved its row, and the row's batch has been
      inserted. */
  lemma {:induction false} SuccessfulRetriesResolve(steps: seq<Step>, i: nat)
    requires Run(INIT, steps).Some? && i < |Run(INIT, steps).value.jobs|
    requires
      var j := Run(INIT, steps).value.jobs[i];
      j.Ingest? && j.work.Retry? && j.pc == Finished(Succeeded)
    ensures
      var s := Run(INIT, steps).value;
      var row := s.jobs[i].work.row;
      && row < |s.tables.failed| && s.tables.failed[row].resolved
      && row < |s.origins| && Copied(s.inserts, s.origins[row])
  {
    RunKeepsSuccesses(steps);
    RunKeepsInv(INIT, steps);
  }

  lemma {:induction false} RunKeepsSuccesses(steps: seq<Step>)
    requires Run(INIT, steps).Some?
    ensures SuccessesResolved(Run(INIT, steps).value)
  {
    if steps != [] {
      RunKeepsSuccesses(steps[..|steps| - 1]);
      RunKeepsInv(INIT, steps[..|steps| - 1]);
      NextKeepsSuccesses(Run(INIT, steps[..|steps| - 1]).value, steps[|steps| - 1]);
    }
  }
}
