/** One worker processing one message (internal/worker/service.go), as the code runs it, and its place
    among the runs of the pipeline. */
module Worker {
  import opened Prelude
  import opened Store
  import P = Pipeline
  import Q = Queue
  import Service

  /** The tables after a series of ingest attempts, the i-th of which logged `attempts[i]` and read the
      clock at `clock[i]`. */
  function Attempted(t: Tables, req: Request, clock: seq<int>, attempts: seq<seq<Outcome>>): Option<Tables>
    requires |attempts| <= |clock| && Ingests(req, attempts)
  {
    if attempts == [] then Some(t)
    else
      var n := |attempts| - 1;
      match Attempted(t, req, clock, attempts[..n])
      case None => None
      case Some(mid) => Ingested(mid, req, clock[n], Effective(attempts[n]))
  }

  ghost predicate Ingests(req: Request, attempts: seq<seq<Outcome>>) {
    forall i :: 0 <= i < |attempts| ==> IngestOutcomes(|IngestCalls(req)|, attempts[i])
  }

  predicate Failed(outs: seq<Outcome>)
    requires outs != []
  {
    outs[|outs| - 1] != Ok
  }

  /** What a call of `process` with `left` attempts to go may log: failing attempts, ended by one that
      succeeds or by running out. */
  ghost predicate Tried(req: Request, left: nat, attempts: seq<seq<Outcome>>, ok: bool) {
    && 1 <= |attempts| <= left && Ingests(req, attempts)
    && (forall i :: 0 <= i < |attempts| - 1 ==> Failed(attempts[i]))
    && (ok <==> !Failed(attempts[|attempts| - 1]))
    && (!ok ==> |attempts| == left)
  }

  /** Everything `process` logs in the repository: its attempts, and the saving of the batch if they all
      failed. */
  function Trace(attempts: seq<seq<Outcome>>, ok: bool, save: Outcome): seq<Outcome> {
    Flatten(attempts) + if ok then [] else [save]
  }

  class Processor {
    const svc: Service.SessionService
    const q: Q.Stream<Request>

    constructor (svc: Service.SessionService, q: Q.Stream<Request>)
      ensures this.svc == svc && this.q == q
    {
      this.svc, this.q := svc, q;
    }

    /** `clock[i]` is the reading the i-th attempt takes. The errors of saving the failed batch and of the
        one acknowledgement are not looked at. */
    method Process(msg: nat, req: Request, clock: seq<int>) returns (ok: bool, ghost attempts: seq<seq<Outcome>>, ghost save: Outcome)
      requires |clock| == 4 && q.View().Valid()
      modifies svc.repo, q`pending, q`log
      ensures Tried(req, 4, attempts, ok) && svc.repo.log == old(svc.repo.log) + Trace(attempts, ok, save)
      ensures
        var done := Attempted(old(svc.repo.View()), req, clock, attempts);
        && done.Some?
        && svc.repo.View() == if !ok && save != Refused then Saved(done.value, FailedRow(req, 4, false)) else done.value
      ensures q.View().Valid() && Q.Sends(old(q.log), q.log, Q.Acknowledge(msg))
      ensures q.View() == if q.log[|old(q.log)|].outcome == Refused then old(q.View()) else Q.Acked(old(q.View()), msg)
    {
      ghost var t := svc.repo.View();
      ok, attempts, save := false, [], Ok;
      for attempt := 0 to P.ATTEMPTS
        invariant !ok && |attempts| == attempt && q.View() == old(q.View()) && q.log == old(q.log)
        invariant Ingests(req, attempts) && forall i :: 0 <= i < attempt ==> Failed(attempts[i])
        invariant svc.repo.log == old(svc.repo.log) + Flatten(attempts)
        invariant Attempted(t, req, clock, attempts) == Some(svc.repo.View())
      {
        ghost var log, mid := svc.repo.log, svc.repo.View();
        var err := svc.Ingest(req, clock[attempt]);
        OneMoreAttempt(t, mid, svc.repo.View(), req, clock, attempts, old(svc.repo.log), log, svc.repo.log, err);
        attempts := attempts + [svc.repo.log[|log|..]];
        if !err {
          ok := true;
          var _ := q.Ack(msg);
          return;
        }
      }
      var _ := svc.repo.SaveFailed(FailedRow(req, P.ATTEMPTS, false));
      save := svc.repo.log[|svc.repo.log| - 1];
      var _ := q.Ack(msg);
    }
  }

  lemma {:induction false} OneMoreAttempt(t: Tables, mid: Tables, t': Tables, req: Request, clock: seq<int>, attempts: seq<seq<Outcome>>,
                                          start: seq<Outcome>, log: seq<Outcome>, log': seq<Outcome>, err: bool)
    requires |attempts| < |clock| && Ingests(req, attempts) && Attempted(t, req, clock, attempts) == Some(mid)
    requires log == start + Flatten(attempts) && Service.Ran(mid, t', req, clock[|attempts|], log, log', err)
    ensures
      var more := attempts + [log'[|log|..]];
      && Ingests(req, more) && log' == start + Flatten(more) && Attempted(t, req, clock, more) == Some(t')
      && (err <==> Failed(log'[|log|..]))
  {
    AttemptedMore(t, mid, t', req, clock, attempts, log'[|log|..]);
    LoggedMore(attempts, start, log, log');
  }

  lemma {:induction false} AttemptedMore(t: Tables, mid: Tables, t': Tables, req: Request, clock: seq<int>, attempts: seq<seq<Outcome>>, outs: seq<Outcome>)
    requires |attempts| < |clock| && Ingests(req, attempts) && Attempted(t, req, clock, attempts) == Some(mid)
    requires IngestOutcomes(|IngestCalls(req)|, outs) && Ingested(mid, req, clock[|attempts|], Effective(outs)) == Some(t')
    ensures Ingests(req, attempts + [outs]) && Attempted(t, req, clock, attempts + [outs]) == Some(t')
  {
    assert (attempts + [outs])[..|attempts|] == attempts;
  }

  lemma {:induction false} LoggedMore(attempts: seq<seq<Outcome>>, start: seq<Outcome>, log: seq<Outcome>, log': seq<Outcome>)
    requires log == start + Flatten(attempts) && log <= log'
    ensures log' == start + Flatten(attempts + [log'[|log|..]])
  {
    FlattenSnoc(attempts, log'[|log|..]);
  }

  /** What is logged says what was tried and whether it succeeded: no two outcomes of `process` leave the
      same trace. */
  lemma {:induction false} TraceDecides(req: Request, left: nat, a: seq<seq<Outcome>>, ok: bool, save: Outcome,
                                        b: seq<seq<Outcome>>, ok': bool, save': Outcome)
    requires Tried(req, left, a, ok) && Tried(req, left, b, ok') && Trace(a, ok, save) == Trace(b, ok', save')
    ensures a == b && ok == ok' && (!ok ==> save == save')
    decreases |a|
  {
    var x, y := Trace(a[1..], ok, save), Trace(b[1..], ok', save');
    assert Trace(a, ok, save) == a[0] + x && Trace(b, ok', save') == b[0] + y;
    SameFirst(|IngestCalls(req)|, a[0], x, b[0], y);
    if 1 < |a| && 1 < |b| {
      TraceDecides(req, left - 1, a[1..], ok, save, b[1..], ok', save');
    } else if !ok {
      assert a[1..] == [] && b[1..] == [];
      assert x == [save] && y == [save'];
    }
    assert a == [a[0]] + a[1..] && b == [b[0]] + b[1..];
  }

  lemma {:induction false} SameFirst(n: nat, a: seq<Outcome>, x: seq<Outcome>, b: seq<Outcome>, y: seq<Outcome>)
    requires IngestOutcomes(n, a) && IngestOutcomes(n, b) && a + x == b + y
    ensures a == b && x == y
  {
    assert forall i :: 0 <= i < |a| ==> a[i] == (a + x)[i];
    assert forall i :: 0 <= i < |b| ==> b[i] == (b + y)[i];
    assert x == (a + x)[|a|..] && y == (b + y)[|b|..];
  }

  // ---------------------------------------------------------------------------------------------
  // Duplicates of one delivery

  /** The rows the attempts add: one copy of the batch for each that got past its insert. */
  function Added(req: Request, clock: seq<int>, attempts: seq<seq<Outcome>>): seq<EventRow>
    requires |attempts| <= |clock| && Ingests(req, attempts)
  {
    if attempts == [] then []
    else
      var n := |attempts| - 1;
      Added(req, clock, attempts[..n]) + if Stores(req, attempts[n]) then RowsOf(req, clock[n]) else []
  }

  predicate Stores(req: Request, outs: seq<Outcome>)
    requires outs != []
  {
    |IngestCalls(req)| - 1 <= Effective(outs)
  }

  function CopiesMade(req: Request, attempts: seq<seq<Outcome>>): nat
    requires Ingests(req, attempts)
  {
    if attempts == [] then 0
    else CopiesMade(req, attempts[..|attempts| - 1]) + if Stores(req, attempts[|attempts| - 1]) then 1 else 0
  }

  /** One delivery adds complete copies only: at most four, and at least one if it ends in success. */
  lemma {:induction false} DeliveryAddsCopies(t: Tables, req: Request, clock: seq<int>, attempts: seq<seq<Outcome>>, ok: bool)
    requires |attempts| <= |clock| && Tried(req, P.ATTEMPTS, attempts, ok) && Attempted(t, req, clock, attempts).Some?
    ensures
      var t' := Attempted(t, req, clock, attempts).value;
      t'.events == t.events + Added(req, clock, attempts) && t'.failed == t.failed
    ensures CopiesMade(req, attempts) <= 4 && (ok ==> 1 <= CopiesMade(req, attempts))
  {
    AttemptsAdd(t, req, clock, attempts);
    OneCopyEach(req, attempts);
  }

  lemma {:induction false} OneCopyEach(req: Request, attempts: seq<seq<Outcome>>)
    requires Ingests(req, attempts)
    ensures CopiesMade(req, attempts) <= |attempts|
  {
    if attempts != [] { OneCopyEach(req, attempts[..|attempts| - 1]); }
  }

  lemma {:induction false} AttemptsAdd(t: Tables, req: Request, clock: seq<int>, attempts: seq<seq<Outcome>>)
    requires |attempts| <= |clock| && Ingests(req, attempts)
    requires Attempted(t, req, clock, attempts).Some?
    ensures
      var t' := Attempted(t, req, clock, attempts).value;
      t'.events == t.events + Added(req, clock, attempts) && t'.failed == t.failed
  {
    if attempts != [] {
      var n := |attempts| - 1;
      AttemptsAdd(t, req, clock, attempts[..n]);
      var mid, last := Attempted(t, req, clock, attempts[..n]).value, attempts[n];
      OneAttemptAdds(mid, req, clock[n], Effective(last));
      Appended(t.events, Added(req, clock, attempts[..n]), if Stores(req, last) then RowsOf(req, clock[n]) else []);
    }
  }

  lemma {:induction false} Appended(a: seq<EventRow>, b: seq<EventRow>, c: seq<EventRow>)
    ensures (a + b) + c == a + (b + c)
  {
  }

  lemma {:induction false} OneAttemptAdds(t: Tables, req: Request, now: int, k: nat)
    requires k <= |IngestCalls(req)| && Ingested(t, req, now, k).Some?
    ensures
      var t' := Ingested(t, req, now, k).value;
      && t'.events == t.events + (if |IngestCalls(req)| - 1 <= k then RowsOf(req, now) else [])
      && t'.failed == t.failed
  {
    IngestedSoFar(t, req, now, k);
  }

  // ---------------------------------------------------------------------------------------------
  // The code's runs are runs of the pipeline

  /** The steps are advances of job `i` that end as logged. */
  ghost predicate Follows(steps: seq<P.Step>, i: nat, outs: seq<Outcome>) {
    |steps| == |outs| && forall n :: 0 <= n < |steps| ==> steps[n].Advance? && steps[n].job == i && steps[n].outcome == outs[n]
  }

  lemma {:induction false} FollowsAppend(a: seq<P.Step>, b: seq<P.Step>, i: nat, x: seq<Outcome>, y: seq<Outcome>)
    requires Follows(a, i, x) && Follows(b, i, y)
    ensures Follows(a + b, i, x + y)
  {
  }

  /** Confirmed calls of an ingest that has just begun. */
  lemma {:induction false} ConfirmedCalls(s: P.State, i: nat, now: int, outs: seq<Outcome>) returns (steps: seq<P.Step>, s': P.State)
    requires i < |s.jobs| && s.jobs[i].Ingest? && s.jobs[i].pc == P.Ingesting(0, 0)
    requires |outs| <= |IngestCalls(s.jobs[i].req)| && forall n :: 0 <= n < |outs| ==> outs[n] == Ok
    requires Ingested(s.tables, s.jobs[i].req, now, |outs|).Some?
    ensures P.Run(s, steps) == Some(s') && i < |s'.jobs| && Follows(steps, i, outs)
    ensures s'.tables == Ingested(s.tables, s.jobs[i].req, now, |outs|).value
    ensures
      var j, j', n := s.jobs[i], s'.jobs[i], |outs|;
      && j'.Ingest? && j'.req == j.req && j'.work == j.work
      && j'.pc == if n == 0 then P.Ingesting(0, 0) else if n < |IngestCalls(j.req)| then P.Ingesting(n, now) else if j.work.Delivery? then P.Acking else P.Resolving
  {
    P.SoloIngest(s, i, now, |outs|);
    steps := seq(|outs|, _ => P.Advance(i, Ok, now));
    s' := P.Run(s, steps).value;
  }

  /** The last call of a failed attempt was refused, or took effect unconfirmed. */
  lemma {:induction false} LastOfFailed(t: Tables, req: Request, now: int, outs: seq<Outcome>)
    requires IngestOutcomes(|IngestCalls(req)|, outs) && Failed(outs) && Ingested(t, req, now, Effective(outs)).Some?
    ensures
      var n := |outs| - 1;
      var mid := Ingested(t, req, now, n);
      && mid.Some?
      && Ingested(t, req, now, Effective(outs)) ==
         if outs[n] == Refused then mid else Applied(mid.value, IngestCalls(req)[n], req, now)
  {
  }

  /** What becomes of a job whose attempt failed. */
  ghost predicate AfterFailure(j: P.Job, j': P.Job)
    requires j.Ingest?
  {
    && j'.Ingest? && j'.req == j.req
    && match j.work
       case Delivery(a) =>
         if a + 1 < P.ATTEMPTS then j'.work == P.Delivery(a + 1) && j'.pc == P.Ingesting(0, 0) else j'.pc == P.Saving
       case Retry(_) => j'.pc == P.Finished(P.Failed)
  }

  /** One failed attempt, call by call as logged: a delivery goes on to the next one or to saving the
      batch, a retry is over. */
  lemma {:induction false} FailedAttempt(s: P.State, i: nat, now: int, outs: seq<Outcome>) returns (steps: seq<P.Step>, s': P.State)
    requires i < |s.jobs| && s.jobs[i].Ingest? && s.jobs[i].pc == P.Ingesting(0, 0)
    requires IngestOutcomes(|IngestCalls(s.jobs[i].req)|, outs) && Failed(outs)
    requires Ingested(s.tables, s.jobs[i].req, now, Effective(outs)).Some?
    ensures P.Run(s, steps) == Some(s') && i < |s'.jobs| && Follows(steps, i, outs)
    ensures s'.tables == Ingested(s.tables, s.jobs[i].req, now, Effective(outs)).value
    ensures AfterFailure(s.jobs[i], s'.jobs[i])
  {
    var n := |outs| - 1;
    LastOfFailed(s.tables, s.jobs[i].req, now, outs);
    var calls, mid := ConfirmedCalls(s, i, now, outs[..n]);
    s' := AttemptEnds(mid, i, now, outs[n]);
    steps := LastCall(s, mid, s', calls, i, outs, now);
  }

  /** One attempt that succeeds. */
  lemma {:induction false} SuccessfulAttempt(s: P.State, i: nat, now: int, outs: seq<Outcome>) returns (steps: seq<P.Step>, s': P.State)
    requires i < |s.jobs| && s.jobs[i].Ingest? && s.jobs[i].pc == P.Ingesting(0, 0) && s.jobs[i].work.Delivery?
    requires IngestOutcomes(|IngestCalls(s.jobs[i].req)|, outs) && !Failed(outs)
    requires Ingested(s.tables, s.jobs[i].req, now, Effective(outs)).Some?
    ensures P.Run(s, steps) == Some(s') && i < |s'.jobs| && Follows(steps, i, outs)
    ensures s'.tables == Ingested(s.tables, s.jobs[i].req, now, Effective(outs)).value
    ensures s'.jobs[i].Ingest? && s'.jobs[i].req == s.jobs[i].req && s'.jobs[i].pc == P.Acking
  {
    steps, s' := ConfirmedCalls(s, i, now, outs);
  }

  lemma {:induction false} AttemptEnds(s: P.State, i: nat, now: int, o: Outcome) returns (s': P.State)
    requires i < |s.jobs| && s.jobs[i].Ingest? && s.jobs[i].pc.Ingesting? && o != Ok
    requires s.jobs[i].pc.k < |IngestCalls(s.jobs[i].req)| && (s.jobs[i].pc.k == 0 || s.jobs[i].pc.now == now)
    requires o == Unconfirmed ==> Applied(s.tables, IngestCalls(s.jobs[i].req)[s.jobs[i].pc.k], s.jobs[i].req, now).Some?
    ensures P.Next(s, P.Advance(i, o, now)) == Some(s')
    ensures s'.tables == if o == Refused then s.tables else Applied(s.tables, IngestCalls(s.jobs[i].req)[s.jobs[i].pc.k], s.jobs[i].req, now).value
    ensures |s'.jobs| == |s.jobs|
    ensures AfterFailure(s.jobs[i], s'.jobs[i])
  {
    s' := P.Next(s, P.Advance(i, o, now)).value;
  }

  lemma {:induction false} LastCall(s: P.State, mid: P.State, s': P.State, calls: seq<P.Step>, i: nat, outs: seq<Outcome>, now: int)
    returns (steps: seq<P.Step>)
    requires outs != [] && P.Run(s, calls) == Some(mid) && Follows(calls, i, outs[..|outs| - 1])
    requires P.Next(mid, P.Advance(i, outs[|outs| - 1], now)) == Some(s')
    ensures P.Run(s, steps) == Some(s') && Follows(steps, i, outs)
  {
    RunSnoc(s, calls, mid, P.Advance(i, outs[|outs| - 1], now));
    FollowsOneMore(calls, i, outs, now);
    steps := calls + [P.Advance(i, outs[|outs| - 1], now)];
  }

  lemma {:induction false} FollowsOneMore(calls: seq<P.Step>, i: nat, outs: seq<Outcome>, now: int)
    requires outs != [] && Follows(calls, i, outs[..|outs| - 1])
    ensures Follows(calls + [P.Advance(i, outs[|outs| - 1], now)], i, outs)
  {
    var n := |outs| - 1;
    assert outs == outs[..n] + [outs[n]];
    FollowsAppend(calls, [P.Advance(i, outs[n], now)], i, outs[..n], [outs[n]]);
  }

  lemma {:induction false} RunSnoc(s: P.State, steps: seq<P.Step>, mid: P.State, step: P.Step)
    requires P.Run(s, steps) == Some(mid)
    ensures P.Run(s, steps + [step]) == P.Next(mid, step)
  {
    assert (steps + [step])[..|steps|] == steps;
  }

  lemma {:induction false} OneAttemptMore(s: P.State, mid: P.State, s': P.State, i: nat, attempts: seq<seq<Outcome>>, before: seq<P.Step>, last: seq<P.Step>)
    returns (steps: seq<P.Step>)
    requires attempts != [] && P.Run(s, before) == Some(mid) && Follows(before, i, Flatten(attempts[..|attempts| - 1]))
    requires P.Run(mid, last) == Some(s') && Follows(last, i, attempts[|attempts| - 1])
    ensures P.Run(s, steps) == Some(s') && Follows(steps, i, Flatten(attempts))
  {
    P.RunAppend(s, before, last);
    FollowsFlattened(before, last, i, attempts);
    steps := before + last;
  }

  lemma {:induction false} FollowsFlattened(before: seq<P.Step>, last: seq<P.Step>, i: nat, attempts: seq<seq<Outcome>>)
    requires attempts != [] && Follows(before, i, Flatten(attempts[..|attempts| - 1])) && Follows(last, i, attempts[|attempts| - 1])
    ensures Follows(before + last, i, Flatten(attempts))
  {
    var n := |attempts| - 1;
    FlattenSnoc(attempts[..n], attempts[n]);
    assert attempts == attempts[..n] + [attempts[n]];
    FollowsAppend(before, last, i, Flatten(attempts[..n]), attempts[n]);
  }

  /** The failed attempts of a delivery, one after another. */
  lemma {:induction false} FailedAttempts(s: P.State, i: nat, clock: seq<int>, attempts: seq<seq<Outcome>>)
    returns (steps: seq<P.Step>, s': P.State)
    requires i < |s.jobs| && s.jobs[i].Ingest? && s.jobs[i].pc == P.Ingesting(0, 0) && s.jobs[i].work == P.Delivery(0)
    requires |attempts| <= P.ATTEMPTS && |attempts| <= |clock|
    requires Ingests(s.jobs[i].req, attempts) && forall n :: 0 <= n < |attempts| ==> Failed(attempts[n])
    requires Attempted(s.tables, s.jobs[i].req, clock, attempts).Some?
    ensures P.Run(s, steps) == Some(s') && i < |s'.jobs| && Follows(steps, i, Flatten(attempts))
    ensures s'.tables == Attempted(s.tables, s.jobs[i].req, clock, attempts).value
    ensures s'.jobs[i].Ingest? && s'.jobs[i].req == s.jobs[i].req
    ensures if |attempts| < P.ATTEMPTS then s'.jobs[i].work == P.Delivery(|attempts|) && s'.jobs[i].pc == P.Ingesting(0, 0)
            else s'.jobs[i].pc == P.Saving
    decreases |attempts|
  {
    if attempts == [] {
      steps, s' := [], s;
    } else {
      var n := |attempts| - 1;
      var before, mid := FailedAttempts(s, i, clock, attempts[..n]);
      var last;
      last, s' := FailedAttempt(mid, i, clock[n], attempts[n]);
      steps := OneAttemptMore(s, mid, s', i, attempts, before, last);
    }
  }

  /** The failed attempts and then one that succeeds. */
  lemma {:induction false} SucceedsAtLast(s: P.State, i: nat, clock: seq<int>, attempts: seq<seq<Outcome>>)
    returns (steps: seq<P.Step>, s': P.State)
    requires i < |s.jobs| && s.jobs[i].Ingest? && s.jobs[i].pc == P.Ingesting(0, 0) && s.jobs[i].work == P.Delivery(0)
    requires |clock| == P.ATTEMPTS && Tried(s.jobs[i].req, P.ATTEMPTS, attempts, true)
    requires Attempted(s.tables, s.jobs[i].req, clock, attempts).Some?
    ensures P.Run(s, steps) == Some(s') && i < |s'.jobs| && Follows(steps, i, Flatten(attempts))
    ensures s'.tables == Attempted(s.tables, s.jobs[i].req, clock, attempts).value
    ensures s'.jobs[i].Ingest? && s'.jobs[i].req == s.jobs[i].req && s'.jobs[i].pc == P.Acking
  {
    var n := |attempts| - 1;
    var before, mid := FailedAttempts(s, i, clock, attempts[..n]);
    var last;
    last, s' := SuccessfulAttempt(mid, i, clock[n], attempts[n]);
    steps := OneAttemptMore(s, mid, s', i, attempts, before, last);
  }

  /** The attempts of a delivery, up to the acknowledgement or the saving of the batch. */
  lemma {:induction false} AttemptsAreARun(s: P.State, i: nat, clock: seq<int>, attempts: seq<seq<Outcome>>, ok: bool)
    returns (steps: seq<P.Step>, s': P.State)
    requires i < |s.jobs| && s.jobs[i].Ingest? && s.jobs[i].pc == P.Ingesting(0, 0) && s.jobs[i].work == P.Delivery(0)
    requires |clock| == P.ATTEMPTS && Tried(s.jobs[i].req, P.ATTEMPTS, attempts, ok)
    requires Attempted(s.tables, s.jobs[i].req, clock, attempts).Some?
    ensures P.Run(s, steps) == Some(s') && i < |s'.jobs| && Follows(steps, i, Flatten(attempts))
    ensures s'.tables == Attempted(s.tables, s.jobs[i].req, clock, attempts).value
    ensures s'.jobs[i].Ingest? && s'.jobs[i].req == s.jobs[i].req
    ensures s'.jobs[i].pc == if ok then P.Acking else P.Saving
  {
    if ok {
      steps, s' := SucceedsAtLast(s, i, clock, attempts);
    } else {
      steps, s' := FailedAttempts(s, i, clock, attempts);
    }
  }

  /** What `process` leaves in the tables. */
  function Processed(t: Tables, req: Request, ok: bool, save: Outcome): Tables {
    if !ok && save != Refused then Saved(t, FailedRow(req, P.ATTEMPTS, false)) else t
  }

  /** Whatever a call of `process` logs and does, the run of the pipeline in which its job, and no other,
      advances with just these outcomes does the same, down to the acknowledgement. */
  lemma {:induction false} ProcessIsARun(s: P.State, i: nat, clock: seq<int>, attempts: seq<seq<Outcome>>, ok: bool, save: Outcome, ack: Outcome)
    returns (steps: seq<P.Step>, s': P.State)
    requires i < |s.jobs| && s.jobs[i].Ingest? && s.jobs[i].pc == P.Ingesting(0, 0) && s.jobs[i].work == P.Delivery(0)
    requires |clock| == P.ATTEMPTS && Tried(s.jobs[i].req, P.ATTEMPTS, attempts, ok)
    requires Attempted(s.tables, s.jobs[i].req, clock, attempts).Some?
    ensures P.Run(s, steps) == Some(s') && Follows(steps, i, Trace(attempts, ok, save) + [ack])
    ensures s'.tables == Processed(Attempted(s.tables, s.jobs[i].req, clock, attempts).value, s.jobs[i].req, ok, save)
    ensures s'.queue == if ack == Refused then s.queue else Q.Acked(s.queue, s.jobs[i].msg)
    ensures |s'.jobs| == |s.jobs| && forall n :: 0 <= n < |s.jobs| && n != i ==> s'.jobs[n] == s.jobs[n]
    ensures s'.jobs[i].Ingest? && s'.jobs[i].pc == P.Finished(if ok then P.Succeeded else P.Failed) && s'.erased == s.erased
  {
    var outs := Flatten(attempts);
    steps, s' := AttemptsAreARun(s, i, clock, attempts, ok);
    P.OnlyItsJobMoves(s, steps, i);
    if !ok {
      s', steps := OneMore(s, s', steps, i, outs, save);
      outs := outs + [save];
    }
    P.OnlyItsJobMoves(s, steps, i);
    s', steps := OneMore(s, s', steps, i, outs, ack);
    P.OnlyItsJobMoves(s, steps, i);
    assert Trace(attempts, ok, save) == outs;
  }

  /** The saving of the batch, or the acknowledgement. */
  lemma {:induction false} OneMore(start: P.State, s: P.State, steps: seq<P.Step>, i: nat, outs: seq<Outcome>, o: Outcome)
    returns (s': P.State, steps': seq<P.Step>)
    requires P.Run(start, steps) == Some(s) && Follows(steps, i, outs)
    requires i < |s.jobs| && s.jobs[i].Ingest? && (s.jobs[i].pc.Saving? || s.jobs[i].pc.Acking? || s.jobs[i].pc.GivingUp?)
    ensures P.Run(start, steps') == Some(s') && Follows(steps', i, outs + [o])
    ensures
      var j := s.jobs[i];
      && s'.jobs == s.jobs[i := s'.jobs[i]] && s'.jobs[i].Ingest? && s'.jobs[i].req == j.req && s'.jobs[i].msg == j.msg
      && s'.tables == (if j.pc.Saving? then Processed(s.tables, j.req, false, o) else s.tables)
      && s'.queue == (if j.pc.Saving? || o == Refused then s.queue else Q.Acked(s.queue, j.msg))
      && s'.jobs[i].pc == (if j.pc.Saving? then P.GivingUp(o != Refused) else P.Finished(if j.pc.Acking? then P.Succeeded else P.Failed))
  {
    assert (outs + [o])[..|outs|] == outs;
    s' := LastStep(s, i, o);
    steps' := LastCall(start, s, s', steps, i, outs + [o], 0);
  }

  lemma {:induction false} LastStep(s: P.State, i: nat, o: Outcome) returns (s': P.State)
    requires i < |s.jobs| && s.jobs[i].Ingest? && (s.jobs[i].pc.Saving? || s.jobs[i].pc.Acking? || s.jobs[i].pc.GivingUp?)
    ensures P.Next(s, P.Advance(i, o, 0)) == Some(s')
    ensures
      var j := s.jobs[i];
      && s'.jobs == s.jobs[i := s'.jobs[i]] && s'.jobs[i].Ingest? && s'.jobs[i].req == j.req && s'.jobs[i].msg == j.msg
      && s'.tables == (if j.pc.Saving? then Processed(s.tables, j.req, false, o) else s.tables)
      && s'.queue == (if j.pc.Saving? || o == Refused then s.queue else Q.Acked(s.queue, j.msg))
      && s'.jobs[i].pc == (if j.pc.Saving? then P.GivingUp(o != Refused) else P.Finished(if j.pc.Acking? then P.Succeeded else P.Failed))
  {
    s' := P.Next(s, P.Advance(i, o, 0)).value;
  }

  /** A retry by the reader is a run of the pipeline too: whatever `RetryFailed` does once it has fetched its
      row, the run in which the retry is started and then advances alone with just the outcomes it logged
      does the same, down to the resolving write. */
  lemma {:induction false} RetryIsARun(s: P.State, row: nat, now: int, outs: seq<Outcome>, t': Tables)
    returns (steps: seq<P.Step>, s': P.State)
    requires row < |s.tables.failed| && row < |s.origins|
    requires outs != [] && Service.RetryOutcomes(s.tables.failed[row].payload, [Ok] + outs)
    requires Service.RetryEffect(s.tables, row, now, [Ok] + outs) == Some(t')
    ensures P.Run(s, [P.StartRetry(row)] + steps) == Some(s') && Follows(steps, |s.jobs|, outs)
    ensures s'.tables == t' && s'.queue == s.queue && s'.erased == s.erased
    ensures |s'.jobs| == |s.jobs| + 1 && s'.jobs[..|s.jobs|] == s.jobs
    ensures s'.jobs[|s.jobs|].Ingest? && s'.jobs[|s.jobs|].work == P.Retry(row)
    ensures s'.jobs[|s.jobs|].pc == P.Finished(if outs[|outs| - 1] == Ok then P.Succeeded else P.Failed)
  {
    var i, req, n := |s.jobs|, s.tables.failed[row].payload, |IngestCalls(s.tables.failed[row].payload)|;
    var s0 := P.Next(s, P.StartRetry(row)).value;
    assert s0.jobs[i] == P.Ingest(P.Retry(row), s.origins[row], req, P.Ingesting(0, 0), 0);
    RetrySplit(s.tables, row, now, outs);
    if |outs| == n + 1 {
      steps, s' := RetryCompletes(s0, i, row, now, outs);
    } else {
      steps, s' := FailedAttempt(s0, i, now, outs);
    }
    P.OnlyItsJobMoves(s0, steps, i);
    StartsWith(s, s0, P.StartRetry(row), steps);
    RetryStays(s0, steps, i, row);
  }

  lemma {:induction false} RetryCompletes(s: P.State, i: nat, row: nat, now: int, outs: seq<Outcome>) returns (steps: seq<P.Step>, s': P.State)
    requires i < |s.jobs| && s.jobs[i].Ingest? && s.jobs[i].pc == P.Ingesting(0, 0) && s.jobs[i].work == P.Retry(row)
    requires |outs| == |IngestCalls(s.jobs[i].req)| + 1 && forall k :: 0 <= k < |outs| - 1 ==> outs[k] == Ok
    requires Ingested(s.tables, s.jobs[i].req, now, |outs| - 1).Some?
    ensures P.Run(s, steps) == Some(s') && i < |s'.jobs| && Follows(steps, i, outs)
    ensures
      var done, o := Ingested(s.tables, s.jobs[i].req, now, |outs| - 1).value, outs[|outs| - 1];
      && s'.tables == (if o == Refused then done else Resolved(done, row))
      && s'.jobs[i].Ingest? && s'.jobs[i].pc == P.Finished(if o == Ok then P.Succeeded else P.Failed)
  {
    var n, mid := |outs| - 1, s;
    steps, mid := ConfirmedCalls(s, i, now, outs[..n]);
    s' := ResolvingStep(mid, i, row, outs[n], now);
    steps := LastCall(s, mid, s', steps, i, outs, now);
  }

  lemma {:induction false} RetrySplit(t: Tables, row: nat, now: int, outs: seq<Outcome>)
    requires row < |t.failed| && outs != [] && Service.RetryOutcomes(t.failed[row].payload, [Ok] + outs)
    requires Service.RetryEffect(t, row, now, [Ok] + outs).Some?
    ensures
      var req, t' := t.failed[row].payload, Service.RetryEffect(t, row, now, [Ok] + outs).value;
      var n := |IngestCalls(req)|;
      && |outs| <= n + 1 && (forall k :: 0 <= k < |outs| - 1 ==> outs[k] == Ok)
      && (|outs| == n + 1 ==> Ingested(t, req, now, n).Some?
                              && t' == (if outs[n] == Refused then Ingested(t, req, now, n).value else Resolved(Ingested(t, req, now, n).value, row)))
      && (|outs| < n + 1 ==> IngestOutcomes(n, outs) && Failed(outs) && Ingested(t, req, now, Effective(outs)) == Some(t'))
  {
    var calls := [Ok] + outs;
    assert forall k :: 0 <= k < |outs| ==> outs[k] == calls[k + 1];
    assert calls[|calls| - 1] == outs[|outs| - 1];
  }

  lemma {:induction false} ResolvingStep(s: P.State, i: nat, row: nat, o: Outcome, now: int) returns (s': P.State)
    requires i < |s.jobs| && s.jobs[i].Ingest? && s.jobs[i].pc == P.Resolving && s.jobs[i].work == P.Retry(row)
    ensures P.Next(s, P.Advance(i, o, now)) == Some(s')
    ensures s'.tables == if o == Refused then s.tables else Resolved(s.tables, row)
    ensures s'.queue == s.queue && |s'.jobs| == |s.jobs| && s'.jobs[i].Ingest?
    ensures s'.jobs[i].pc == P.Finished(if o == Ok then P.Succeeded else P.Failed)
  {
    s' := P.Next(s, P.Advance(i, o, now)).value;
  }

  /** A retry stays one, and acknowledges nothing. */
  lemma {:induction false} RetryStays(s: P.State, steps: seq<P.Step>, i: nat, row: nat)
    requires i < |s.jobs| && IsRetry(s.jobs[i], row) && P.OnlyAdvances(steps, i) && P.Run(s, steps).Some?
    ensures
      var s' := P.Run(s, steps).value;
      i < |s'.jobs| && IsRetry(s'.jobs[i], row) && s'.queue == s.queue
  {
    if steps != [] {
      var n := |steps| - 1;
      RetryStays(s, steps[..n], i, row);
      RetryAdvances(P.Run(s, steps[..n]).value, i, row, steps[n].outcome, steps[n].now);
    }
  }

  ghost predicate IsRetry(j: P.Job, row: nat) {
    j.Ingest? && j.work == P.Retry(row) && (j.pc.Ingesting? || j.pc.Resolving? || j.pc.Finished?)
  }

  lemma {:induction false} RetryAdvances(s: P.State, i: nat, row: nat, outcome: Outcome, now: int)
    requires i < |s.jobs| && IsRetry(s.jobs[i], row) && P.AdvanceStep(s, i, outcome, now).Some?
    ensures
      var s' := P.AdvanceStep(s, i, outcome, now).value;
      i < |s'.jobs| && IsRetry(s'.jobs[i], row) && s'.queue == s.queue
  {
  }

  lemma {:induction false} StartsWith(s: P.State, s0: P.State, first: P.Step, steps: seq<P.Step>)
    requires P.Next(s, first) == Some(s0)
    ensures P.Run(s, [first] + steps) == P.Run(s0, steps)
  {
    assert [first][..0] == [];
    assert P.Run(s, [first]) == Some(s0);
    P.RunAppend(s, [first], steps);
  }
}
