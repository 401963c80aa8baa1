/** What the event table and the event counters hold in every run of the pipeline: complete copies of
    batches and nothing else, a bounded number of them, and counters that never run ahead. */
module Accounting {
  import opened Prelude
  import opened Store
  import opened Pipeline
  import Rrweb
  import Q = Queue

  // ---------------------------------------------------------------------------------------------
  // The table is the inserts that took effect

  /** The rows of all inserts, in the order they took effect. */
  function AllRows(inserts: seq<InsertRecord>): seq<EventRow> {
    if inserts == [] then []
    else AllRows(inserts[..|inserts| - 1]) + RowsOf(inserts[|inserts| - 1].req, inserts[|inserts| - 1].now)
  }

  /** For a session never erased, the table holds exactly the rows of its inserts: whole batches, one
      copy per insert. */
  ghost predicate TableIsInserts(s: State, sid: Sid) {
    sid !in s.erased ==> RowsFor(s.tables.events, sid) == RowsFor(AllRows(s.inserts), sid)
  }

  lemma {:induction false} RowsForAllSnoc(inserts: seq<InsertRecord>, x: InsertRecord, sid: Sid)
    ensures RowsFor(AllRows(inserts + [x]), sid) ==
            RowsFor(AllRows(inserts), sid) + if x.req.sid == sid then RowsOf(x.req, x.now) else []
  {
    assert (inserts + [x])[..|inserts|] == inserts;
    RowsForAppend(AllRows(inserts), RowsOf(x.req, x.now), sid);
    RowsForUniform(RowsOf(x.req, x.now), x.req.sid, sid);
  }

  lemma {:induction false} NextKeepsTable(s: State, step: Step, sid: Sid)
    requires Next(s, step).Some? && TableIsInserts(s, sid)
    ensures TableIsInserts(Next(s, step).value, sid)
  {
    if step.Erase? {
      RowsForKept(s.tables.events, step.sids, sid);
    } else if step.Advance? {
      AdvanceKeepsTable(s, step.job, step.outcome, step.now, sid);
    } else {
      OtherStepsStoreNothing(s, step);
    }
  }

  lemma {:induction false} OtherStepsStoreNothing(s: State, step: Step)
    requires Next(s, step).Some? && !step.Erase? && !step.Advance?
    ensures
      var s' := Next(s, step).value;
      s'.tables == s.tables && s'.inserts == s.inserts && s'.erased == s.erased
  {
  }

  lemma {:induction false} AdvanceKeepsTable(s: State, i: nat, outcome: Outcome, now: int, sid: Sid)
    requires i < |s.jobs| && AdvanceStep(s, i, outcome, now).Some? && TableIsInserts(s, sid)
    ensures TableIsInserts(AdvanceStep(s, i, outcome, now).value, sid)
  {
    if s.jobs[i].Purging? {
      RowsForKept(s.tables.events, s.jobs[i].ids, sid);
    } else if AdvanceStep(s, i, outcome, now).value.inserts != s.inserts {
      var x := InsertLogged(s, i, outcome, now);
      RowsForInserted(s.tables, x.req, x.now, sid);
      RowsForAllSnoc(s.inserts, x, sid);
    } else {
      EventsKept(s, i, outcome, now);
    }
  }

  lemma {:induction false} InsertLogged(s: State, i: nat, outcome: Outcome, now: int) returns (x: InsertRecord)
    requires i < |s.jobs| && AdvanceStep(s, i, outcome, now).Some?
    requires AdvanceStep(s, i, outcome, now).value.inserts != s.inserts
    ensures
      var s' := AdvanceStep(s, i, outcome, now).value;
      s'.inserts == s.inserts + [x] && s'.tables == Inserted(s.tables, x.req, x.now) && s'.erased == s.erased
  {
    x := AdvanceStep(s, i, outcome, now).value.inserts[|s.inserts|];
  }

  lemma {:induction false} EventsKept(s: State, i: nat, outcome: Outcome, now: int)
    requires i < |s.jobs| && AdvanceStep(s, i, outcome, now).Some?
    requires AdvanceStep(s, i, outcome, now).value.inserts == s.inserts && !s.jobs[i].Purging?
    ensures AdvanceStep(s, i, outcome, now).value.tables.events == s.tables.events
    ensures AdvanceStep(s, i, outcome, now).value.erased == s.erased
  {
  }

  /** In every run, for every session never erased, the stored rows are one complete copy of the
      batch for each insert that took effect, in order. */
  lemma {:induction false} TableHoldsCompleteCopies(steps: seq<Step>, sid: Sid)
    requires Run(INIT, steps).Some?
    ensures TableIsInserts(Run(INIT, steps).value, sid)
  {
    if steps != [] {
      TableHoldsCompleteCopies(steps[..|steps| - 1], sid);
      NextKeepsTable(Run(INIT, steps[..|steps| - 1]).value, steps[|steps| - 1], sid);
    }
  }

  // ---------------------------------------------------------------------------------------------
  // Duplicates

  function Copies(inserts: seq<InsertRecord>, msg: nat): nat {
    if inserts == [] then 0
    else Copies(inserts[..|inserts| - 1], msg) + if inserts[|inserts| - 1].msg == msg then 1 else 0
  }

  /** A sum over the jobs. */
  function Sum(jobs: seq<Job>, f: Job -> int): int {
    if jobs == [] then 0 else Sum(jobs[..|jobs| - 1], f) + f(jobs[|jobs| - 1])
  }

  lemma {:induction false} SumUpdate(jobs: seq<Job>, f: Job -> int, i: nat, j: Job)
    requires i < |jobs|
    ensures Sum(jobs[i := j], f) == Sum(jobs, f) - f(jobs[i]) + f(j)
  {
    var n := |jobs| - 1;
    if i == n {
      assert jobs[i := j][..n] == jobs[..n];
    } else {
      SumUpdate(jobs[..n], f, i, j);
      assert jobs[i := j][..n] == jobs[..n][i := j];
    }
  }

  lemma {:induction false} SumSnoc(jobs: seq<Job>, f: Job -> int, j: Job)
    ensures Sum(jobs + [j], f) == Sum(jobs, f) + f(j)
  {
    assert (jobs + [j])[..|jobs|] == jobs;
  }

  lemma {:induction false} SumAtMost(jobs: seq<Job>, f: Job -> int, g: Job -> int)
    requires forall i :: 0 <= i < |jobs| ==> f(jobs[i]) <= g(jobs[i])
    ensures Sum(jobs, f) <= Sum(jobs, g)
  {
    if jobs != [] { SumAtMost(jobs[..|jobs| - 1], f, g); }
  }

  function InsertedFor(msg: nat): Job -> int {
    (j: Job) => if j.Ingest? && j.msg == msg then j.inserted else 0
  }

  /** The share of the bound each job brings: four inserts per delivery, one per retry. */
  function BoundFor(msg: nat): Job -> int {
    (j: Job) => if j.Ingest? && j.msg == msg then (if j.work.Delivery? then ATTEMPTS else 1) else 0
  }

  function Deliveries(jobs: seq<Job>, msg: nat): int {
    Sum(jobs, (j: Job) => if j.Ingest? && j.msg == msg && j.work.Delivery? then 1 else 0)
  }

  function Retries(jobs: seq<Job>, msg: nat): int {
    Sum(jobs, (j: Job) => if j.Ingest? && j.msg == msg && j.work.Retry? then 1 else 0)
  }

  /** Whether the job is past the insert of its current ingest. */
  predicate PastInsert(j: Job)
    requires j.Ingest?
  {
    match j.pc
    case Ingesting(k, _) => k == |IngestCalls(j.req)| - 1
    case Acking => true
    case Resolving => true
    case _ => false
  }

  /** One insert per attempt at most, and at least one behind every success. */
  ghost predicate InsertsBounded(j: Job) {
    j.Ingest? ==>
      var attempt := if j.work.Delivery? then j.work.attempt else 0;
      && attempt < ATTEMPTS
      && j.inserted <= attempt + 1
      && (j.pc.Ingesting? && !PastInsert(j) ==> j.inserted <= attempt)
      && (PastInsert(j) || j.pc == Finished(Succeeded) ==> 1 <= j.inserted)
  }

  ghost predicate AllBounded(s: State) {
    forall i :: 0 <= i < |s.jobs| ==> InsertsBounded(s.jobs[i])
  }

  lemma {:induction false} AdvanceKeepsBounded(s: State, i: nat, outcome: Outcome, now: int)
    requires i < |s.jobs| && AdvanceStep(s, i, outcome, now).Some? && InsertsBounded(s.jobs[i])
    ensures
      var s' := AdvanceStep(s, i, outcome, now).value;
      exists j :: s'.jobs == s.jobs[i := j] && InsertsBounded(j)
  {
    if s.jobs[i].Ingest? && s.jobs[i].pc.Ingesting? {
      IngestKeepsBounded(s, i, outcome, now);
    } else {
      var s' := AdvanceStep(s, i, outcome, now).value;
      assert s'.jobs == s.jobs[i := s'.jobs[i]] && InsertsBounded(s'.jobs[i]);
    }
  }

  lemma {:induction false} NextKeepsBounded(s: State, step: Step)
    requires Next(s, step).Some? && AllBounded(s)
    ensures AllBounded(Next(s, step).value)
  {
    if step.Advance? {
      assert InsertsBounded(s.jobs[step.job]);
      AdvanceKeepsBounded(s, step.job, step.outcome, step.now);
    } else {
      OtherStepsStartOrCrash(s, step);
      if step.Crash? {
        assert InsertsBounded(s.jobs[step.job]);
      }
    }
  }

  lemma {:induction false} IngestKeepsBounded(s: State, i: nat, outcome: Outcome, now: int)
    requires i < |s.jobs| && s.jobs[i].Ingest? && s.jobs[i].pc.Ingesting?
    requires s.jobs[i].pc.k < |IngestCalls(s.jobs[i].req)|
    requires IngestStep(s, i, outcome, now).Some? && InsertsBounded(s.jobs[i])
    ensures
      var s' := IngestStep(s, i, outcome, now).value;
      exists j :: s'.jobs == s.jobs[i := j] && InsertsBounded(j)
  {
    var s', j := IngestStep(s, i, outcome, now).value, s.jobs[i];
    var calls := IngestCalls(j.req);
    var call := calls[j.pc.k];
    assert call == Insert <==> j.pc.k == |calls| - 2;
    var j' := s'.jobs[i];
    assert s'.jobs == s.jobs[i := j'] && InsertsBounded(j');
  }

  /** One job changed, and an insert logged exactly when that job's count goes up by one. */
  ghost predicate Logs(s: State, s': State, i: nat)
    requires i < |s.jobs|
  {
    && |s'.jobs| == |s.jobs| && s'.jobs == s.jobs[i := s'.jobs[i]]
    && s'.jobs[i].Ingest? == s.jobs[i].Ingest?
    && (!s.jobs[i].Ingest? ==> s'.inserts == s.inserts)
    && (s.jobs[i].Ingest? ==>
          && s'.jobs[i].msg == s.jobs[i].msg
          && (if s'.jobs[i].inserted == s.jobs[i].inserted then s'.inserts == s.inserts
              else
                && s'.jobs[i].inserted == s.jobs[i].inserted + 1
                && |s'.inserts| == |s.inserts| + 1 && s'.inserts[..|s.inserts|] == s.inserts
                && s'.inserts[|s.inserts|].msg == s.jobs[i].msg))
  }

  lemma {:induction false} IngestLogs(s: State, i: nat, outcome: Outcome, now: int)
    requires i < |s.jobs| && s.jobs[i].Ingest? && s.jobs[i].pc.Ingesting?
    requires s.jobs[i].pc.k < |IngestCalls(s.jobs[i].req)|
    requires IngestStep(s, i, outcome, now).Some?
    ensures Logs(s, IngestStep(s, i, outcome, now).value, i)
  {
  }

  lemma {:induction false} AdvanceLogs(s: State, i: nat, outcome: Outcome, now: int)
    requires i < |s.jobs| && AdvanceStep(s, i, outcome, now).Some?
    ensures Logs(s, AdvanceStep(s, i, outcome, now).value, i)
  {
    if s.jobs[i].Ingest? && s.jobs[i].pc.Ingesting? {
      IngestLogs(s, i, outcome, now);
    }
  }

  lemma {:induction false} AdvanceKeepsCopies(s: State, i: nat, outcome: Outcome, now: int, msg: nat)
    requires i < |s.jobs| && AdvanceStep(s, i, outcome, now).Some?
    requires Copies(s.inserts, msg) == Sum(s.jobs, InsertedFor(msg))
    ensures
      var s' := AdvanceStep(s, i, outcome, now).value;
      Copies(s'.inserts, msg) == Sum(s'.jobs, InsertedFor(msg))
  {
    AdvanceLogs(s, i, outcome, now);
    SumUpdate(s.jobs, InsertedFor(msg), i, AdvanceStep(s, i, outcome, now).value.jobs[i]);
  }

  /** A step that is not an advance leaves the jobs alone, crashes one, or appends one that has not
      done anything yet. */
  lemma {:induction false} OtherStepsStartOrCrash(s: State, step: Step)
    requires Next(s, step).Some? && !step.Advance?
    ensures
      var s' := Next(s, step).value;
      && s'.inserts == s.inserts
      && (|| s'.jobs == s.jobs
          || (|s'.jobs| == |s.jobs| + 1 && s'.jobs == s.jobs + [s'.jobs[|s.jobs|]] && !step.Crash?
              && var j := s'.jobs[|s.jobs|]; j.Ingest? ==> j.inserted == 0 && j.pc == Ingesting(0, 0) && (j.work.Delivery? ==> j.work.attempt == 0))
          || (step.Crash? && step.job < |s.jobs| == |s'.jobs| && s'.jobs == s.jobs[step.job := s'.jobs[step.job]]
              && var j, j' := s.jobs[step.job], s'.jobs[step.job];
                 j'.Ingest? == j.Ingest? && (j.Ingest? ==> j' == j.(pc := Finished(Crashed)))))
  {
  }

  /** Every insert that took effect is accounted to the job that made it. */
  lemma {:induction false} NextKeepsCopies(s: State, step: Step, msg: nat)
    requires Next(s, step).Some? && Copies(s.inserts, msg) == Sum(s.jobs, InsertedFor(msg))
    ensures Copies(Next(s, step).value.inserts, msg) == Sum(Next(s, step).value.jobs, InsertedFor(msg))
  {
    if step.Advance? {
      AdvanceKeepsCopies(s, step.job, step.outcome, step.now, msg);
    } else {
      var jobs' := Next(s, step).value.jobs;
      OtherStepsStartOrCrash(s, step);
      if step.Crash? {
        SumUpdate(s.jobs, InsertedFor(msg), step.job, jobs'[step.job]);
      } else if jobs' != s.jobs {
        SumSnoc(s.jobs, InsertedFor(msg), jobs'[|s.jobs|]);
      }
    }
  }

  lemma {:induction false} RunCounts(steps: seq<Step>, msg: nat)
    requires Run(INIT, steps).Some?
    ensures AllBounded(Run(INIT, steps).value)
    ensures Copies(Run(INIT, steps).value.inserts, msg) == Sum(Run(INIT, steps).value.jobs, InsertedFor(msg))
  {
    if steps != [] {
      RunCounts(steps[..|steps| - 1], msg);
      NextKeepsBounded(Run(INIT, steps[..|steps| - 1]).value, steps[|steps| - 1]);
      NextKeepsCopies(Run(INIT, steps[..|steps| - 1]).value, steps[|steps| - 1], msg);
    }
  }

  lemma {:induction false} BoundSplits(jobs: seq<Job>, msg: nat)
    ensures Sum(jobs, BoundFor(msg)) == ATTEMPTS * Deliveries(jobs, msg) + Retries(jobs, msg)
  {
    if jobs != [] { BoundSplits(jobs[..|jobs| - 1], msg); }
  }

  /** Bounded duplication: in every run a batch is stored at most four times per delivery and once per
      retry, and any delivery or retry that ended in success stored it at least once. */
  lemma {:induction false} BoundedDuplication(steps: seq<Step>, msg: nat, i: nat)
    requires Run(INIT, steps).Some?
    ensures
      var s := Run(INIT, steps).value;
      && Copies(s.inserts, msg) <= 4 * Deliveries(s.jobs, msg) + Retries(s.jobs, msg)
      && (i < |s.jobs| && s.jobs[i].Ingest? ==>
            && s.jobs[i].inserted <= (if s.jobs[i].work.Delivery? then 4 else 1)
            && (s.jobs[i].pc == Finished(Succeeded) ==> 1 <= s.jobs[i].inserted))
  {
    var s := Run(INIT, steps).value;
    RunCounts(steps, msg);
    SumAtMost(s.jobs, InsertedFor(msg), BoundFor(msg));
    BoundSplits(s.jobs, msg);
  }

  // ---------------------------------------------------------------------------------------------
  // The event counters

  /** The events a job has inserted for the session and not counted yet. */
  function Uncounted(sid: Sid): Job -> int {
    (j: Job) =>
      if j.Ingest? && j.pc.Ingesting? && PastInsert(j) && j.req.sid == sid then |j.req.events| else 0
  }

  function CountOf(t: Tables, sid: Sid): int {
    if sid in t.sessions then t.sessions[sid].eventCount else 0
  }

  /** Counted and about-to-be-counted events never exceed the stored ones. */
  ghost predicate CounterSafe(s: State, sid: Sid) {
    0 <= CountOf(s.tables, sid) && CountOf(s.tables, sid) + Sum(s.jobs, Uncounted(sid)) <= |RowsFor(s.tables.events, sid)|
  }

  lemma {:induction false} SumNonNegative(jobs: seq<Job>, sid: Sid)
    ensures 0 <= Sum(jobs, Uncounted(sid))
  {
    if jobs != [] { SumNonNegative(jobs[..|jobs| - 1], sid); }
  }

  lemma {:induction false} IngestKeepsCounter(s: State, i: nat, outcome: Outcome, now: int, sid: Sid)
    requires i < |s.jobs| && s.jobs[i].Ingest? && s.jobs[i].pc.Ingesting?
    requires s.jobs[i].pc.k < |IngestCalls(s.jobs[i].req)|
    requires IngestStep(s, i, outcome, now).Some? && CounterSafe(s, sid)
    ensures CounterSafe(IngestStep(s, i, outcome, now).value, sid)
  {
    var s', f, j := IngestStep(s, i, outcome, now).value, Uncounted(sid), s.jobs[i];
    SumUpdate(s.jobs, f, i, s'.jobs[i]);
    IngestMoves(s, i, outcome, now, sid);
  }

  /** An ingest step adds at least as many stored events as it adds counted and uncounted ones. */
  lemma {:induction false} IngestMoves(s: State, i: nat, outcome: Outcome, now: int, sid: Sid)
    requires i < |s.jobs| && s.jobs[i].Ingest? && s.jobs[i].pc.Ingesting?
    requires s.jobs[i].pc.k < |IngestCalls(s.jobs[i].req)|
    requires IngestStep(s, i, outcome, now).Some?
    requires 0 <= CountOf(s.tables, sid)
    ensures
      var s', f := IngestStep(s, i, outcome, now).value, Uncounted(sid);
      && |s'.jobs| == |s.jobs| && s'.jobs == s.jobs[i := s'.jobs[i]] && s'.erased == s.erased
      && 0 <= CountOf(s'.tables, sid)
      && CountOf(s'.tables, sid) + f(s'.jobs[i]) - CountOf(s.tables, sid) - f(s.jobs[i])
         <= |RowsFor(s'.tables.events, sid)| - |RowsFor(s.tables.events, sid)|
  {
    IngestJobMoves(s, i, outcome, now, sid);
    if outcome != Refused {
      var j := s.jobs[i];
      var call, at := IngestCalls(j.req)[j.pc.k], if j.pc.k == 0 then now else j.pc.now;
      if call == Insert {
        InsertMoves(s.tables, j.req, at, sid);
      } else {
        CallMovesCount(s.tables, call, j.req, at, sid);
      }
    }
  }

  lemma {:induction false} InsertMoves(t: Tables, req: Request, now: int, sid: Sid)
    ensures
      var t' := Inserted(t, req, now);
      && CountOf(t', sid) == CountOf(t, sid)
      && |RowsFor(t'.events, sid)| == |RowsFor(t.events, sid)| + if req.sid == sid then |req.events| else 0
  {
    RowsForInserted(t, req, now, sid);
  }

  /** The job's uncounted events before and after: they appear with a confirmed insert and disappear
      with the call after it. */
  lemma {:induction false} IngestJobMoves(s: State, i: nat, outcome: Outcome, now: int, sid: Sid)
    requires i < |s.jobs| && s.jobs[i].Ingest? && s.jobs[i].pc.Ingesting?
    requires s.jobs[i].pc.k < |IngestCalls(s.jobs[i].req)|
    requires IngestStep(s, i, outcome, now).Some?
    ensures
      var s', j := IngestStep(s, i, outcome, now).value, s.jobs[i];
      var call, mine := IngestCalls(j.req)[j.pc.k], if j.req.sid == sid then |j.req.events| else 0;
      && Uncounted(sid)(j) == (if call == AddCount then mine else 0)
      && i < |s'.jobs|
      && Uncounted(sid)(s'.jobs[i]) == (if call == Insert && outcome == Ok then mine else 0)
  {
    var j := s.jobs[i];
    var calls := IngestCalls(j.req);
    assert calls[j.pc.k] == Insert <==> j.pc.k == |calls| - 2;
    assert calls[j.pc.k] == AddCount <==> j.pc.k == |calls| - 1;
  }

  lemma {:induction false} CallMovesCount(t: Tables, call: Call, req: Request, now: int, sid: Sid)
    requires call == SetMeta ==> req.client.Some?
    requires call != Insert && Applied(t, call, req, now).Some?
    ensures
      var t' := Applied(t, call, req, now).value;
      && t'.events == t.events
      && (sid in t.sessions ==> sid in t'.sessions)
      && (call == AddCount && req.sid == sid && sid in t.sessions ==> CountOf(t', sid) == CountOf(t, sid) + |req.events|)
      && (call == AddCount && (req.sid != sid || sid !in t.sessions) ==> CountOf(t', sid) == CountOf(t, sid))
      && (call == Upsert && req.sid == sid ==> CountOf(t', sid) == 0)
      && (call == Upsert && req.sid != sid ==> CountOf(t', sid) == CountOf(t, sid))
      && (call == SetToken || call == SetMeta ==> CountOf(t', sid) == CountOf(t, sid))
  {
  }

  lemma {:induction false} AdvanceKeepsCounter(s: State, i: nat, outcome: Outcome, now: int, sid: Sid)
    requires i < |s.jobs| && AdvanceStep(s, i, outcome, now).Some? && CounterSafe(s, sid) && !s.jobs[i].Purging?
    ensures CounterSafe(AdvanceStep(s, i, outcome, now).value, sid)
  {
    if s.jobs[i].Ingest? && s.jobs[i].pc.Ingesting? {
      IngestKeepsCounter(s, i, outcome, now, sid);
    } else {
      OtherAdvances(s, i, outcome, now, sid);
      SumUpdate(s.jobs, Uncounted(sid), i, AdvanceStep(s, i, outcome, now).value.jobs[i]);
    }
  }

  /** An advance outside an ingest moves neither events nor counters. */
  lemma {:induction false} OtherAdvances(s: State, i: nat, outcome: Outcome, now: int, sid: Sid)
    requires i < |s.jobs| && AdvanceStep(s, i, outcome, now).Some?
    requires !s.jobs[i].Purging? && (s.jobs[i].Ingest? ==> !s.jobs[i].pc.Ingesting?)
    ensures
      var s' := AdvanceStep(s, i, outcome, now).value;
      && s'.tables.events == s.tables.events && s'.erased == s.erased
      && s'.tables.sessions.Keys == s.tables.sessions.Keys
      && CountOf(s'.tables, sid) == CountOf(s.tables, sid)
      && |s'.jobs| == |s.jobs| && s'.jobs == s.jobs[i := s'.jobs[i]]
      && Uncounted(sid)(s.jobs[i]) == 0 == Uncounted(sid)(s'.jobs[i])
  {
  }

  /** The session's row and rows are gone after a step that erases it; jobs keep their uncounted
      events. */
  lemma {:induction false} ErasureClears(s: State, step: Step, sid: Sid)
    requires Next(s, step).Some? && sid in ErasedBy(s, step)
    ensures
      var s' := Next(s, step).value;
      && sid !in s'.tables.sessions && RowsFor(s'.tables.events, sid) == []
      && s'.queue == s.queue && |s'.jobs| == |s.jobs|
      && (forall i :: 0 <= i < |s.jobs| && s.jobs[i].Ingest? ==> s'.jobs[i] == s.jobs[i])
      && Sum(s'.jobs, Uncounted(sid)) == Sum(s.jobs, Uncounted(sid))
  {
    RowsForKept(s.tables.events, ErasedBy(s, step), sid);
    if step.Advance? {
      SumUpdate(s.jobs, Uncounted(sid), step.job, s.jobs[step.job].(over := true));
    }
  }

  /** A purge that leaves the session alone, or whose delete is refused, moves nothing of it. */
  lemma {:induction false} PurgeElsewhere(s: State, i: nat, outcome: Outcome, sid: Sid)
    requires i < |s.jobs| && s.jobs[i].Purging? && !s.jobs[i].over
    requires sid !in ErasedBy(s, Advance(i, outcome, 0))
    ensures
      var s' := PurgeStep(s, i, outcome);
      && CountOf(s'.tables, sid) == CountOf(s.tables, sid)
      && RowsFor(s'.tables.events, sid) == RowsFor(s.tables.events, sid)
      && Sum(s'.jobs, Uncounted(sid)) == Sum(s.jobs, Uncounted(sid))
  {
    RowsForKept(s.tables.events, s.jobs[i].ids, sid);
    SumUpdate(s.jobs, Uncounted(sid), i, s.jobs[i].(over := true));
  }

  /** Every step keeps the counter behind the stored events, erasures included if no ingest of the
      session stands between its insert and its count. */
  lemma {:induction false} NextKeepsCounter(s: State, step: Step, sid: Sid)
    requires Next(s, step).Some? && CounterSafe(s, sid)
    requires sid in ErasedBy(s, step) ==> Sum(s.jobs, Uncounted(sid)) == 0
    ensures CounterSafe(Next(s, step).value, sid)
  {
    if sid in ErasedBy(s, step) {
      ErasureClears(s, step, sid);
    } else if step.Advance? {
      if s.jobs[step.job].Purging? {
        PurgeElsewhere(s, step.job, step.outcome, sid);
      } else {
        AdvanceKeepsCounter(s, step.job, step.outcome, step.now, sid);
      }
    } else {
      var s' := Next(s, step).value;
      OtherStepsStartOrCrash(s, step);
      if step.Erase? {
        RowsForKept(s.tables.events, step.sids, sid);
      } else if step.Crash? {
        SumUpdate(s.jobs, Uncounted(sid), step.job, s'.jobs[step.job]);
      } else if s'.jobs != s.jobs {
        SumSnoc(s.jobs, Uncounted(sid), s'.jobs[|s.jobs|]);
      }
    }
  }

  /** Whenever a step of the run erases the session, no ingest of it stands between its insert and its
      count. */
  ghost predicate ErasesQuietly(s: State, steps: seq<Step>, sid: Sid)
    decreases |steps|
  {
    steps != [] ==>
      var front, step := steps[..|steps| - 1], steps[|steps| - 1];
      && ErasesQuietly(s, front, sid)
      && (Run(s, front).Some? && sid in ErasedBy(Run(s, front).value, step) ==>
            Sum(Run(s, front).value.jobs, Uncounted(sid)) == 0)
  }

  lemma {:induction false} RunKeepsCounter(s: State, steps: seq<Step>, sid: Sid)
    requires Run(s, steps).Some? && CounterSafe(s, sid) && ErasesQuietly(s, steps, sid)
    ensures CounterSafe(Run(s, steps).value, sid)
  {
    if steps != [] {
      RunKeepsCounter(s, steps[..|steps| - 1], sid);
      NextKeepsCounter(Run(s, steps[..|steps| - 1]).value, steps[|steps| - 1], sid);
    }
  }

  /** The counter lies between zero and the number of stored events. */
  ghost predicate CounterHolds(s: State, sid: Sid) {
    0 <= CountOf(s.tables, sid) <= |RowsFor(s.tables.events, sid)|
  }

  /** In every interleaving, with failed, unconfirmed and crashed calls, erasures and purges, the
      `event_count` of a session lies between zero and the number of its stored events, provided it is
      only erased while none of its ingests stands between its insert and its count. */
  lemma {:induction false} CounterNeverAhead(steps: seq<Step>, sid: Sid)
    requires Run(INIT, steps).Some? && ErasesQuietly(INIT, steps, sid)
    ensures CounterHolds(Run(INIT, steps).value, sid)
  {
    RunKeepsCounter(INIT, steps, sid);
    SumNonNegative(Run(INIT, steps).value.jobs, sid);
  }

  /** A session that is never erased is in particular erased quietly. */
  lemma {:induction false} NeverErasedIsQuiet(s: State, steps: seq<Step>, sid: Sid)
    requires Run(s, steps).Some? && sid !in Run(s, steps).value.erased
    ensures sid !in s.erased && ErasesQuietly(s, steps, sid)
  {
    if steps != [] {
      var mid := Run(s, steps[..|steps| - 1]).value;
      ErasedGrows(mid, steps[|steps| - 1]);
      NeverErasedIsQuiet(s, steps[..|steps| - 1], sid);
    }
  }

  lemma {:induction false} ErasedGrows(s: State, step: Step)
    requires Next(s, step).Some?
    ensures Next(s, step).value.erased == s.erased + ErasedBy(s, step)
  {
  }

  // ---------------------------------------------------------------------------------------------
  // What the counter is

  /** The sum of the counts that took effect on the session's row in a run, since its last upsert or
      erasure. */
  function CountedSince(s: State, steps: seq<Step>, sid: Sid): int {
    if steps == [] then CountOf(s.tables, sid)
    else
      var front, step := steps[..|steps| - 1], steps[|steps| - 1];
      match Run(s, front)
      case None => 0
      case Some(mid) =>
        var c := CallBy(mid, step);
        if sid in ErasedBy(mid, step) || (c.Some? && c.value.call == Upsert && c.value.req.sid == sid) then 0
        else if c.Some? && c.value.call == AddCount && c.value.req.sid == sid && sid in mid.tables.sessions
        then CountedSince(s, front, sid) + |c.value.req.events|
        else CountedSince(s, front, sid)
  }

  lemma {:induction false} NextMovesCount(s: State, step: Step, sid: Sid)
    requires Next(s, step).Some?
    ensures
      var n, n', c := CountOf(s.tables, sid), CountOf(Next(s, step).value.tables, sid), CallBy(s, step);
      if sid in ErasedBy(s, step) || (c.Some? && c.value.call == Upsert && c.value.req.sid == sid) then n' == 0
      else if c.Some? && c.value.call == AddCount && c.value.req.sid == sid && sid in s.tables.sessions
      then n' == n + |c.value.req.events|
      else n' == n
  {
    if sid in ErasedBy(s, step) {
      ErasureRemoves(s, step, sid);
    } else if CallBy(s, step).Some? {
      var c := CallBy(s, step).value;
      CallTakesEffect(s, step);
      if c.call != Insert {
        CallMovesCount(s.tables, c.call, c.req, c.now, sid);
      }
    } else {
      OtherwiseKept(s, step, sid);
    }
  }

  /** In every run, with any failures, erasures and interleavings, the counter is exactly that sum. */
  lemma {:induction false} CounterIsSum(s: State, steps: seq<Step>, sid: Sid)
    requires Run(s, steps).Some?
    ensures CountOf(Run(s, steps).value.tables, sid) == CountedSince(s, steps, sid)
  {
    if steps != [] {
      CounterIsSum(s, steps[..|steps| - 1], sid);
      NextMovesCount(Run(s, steps[..|steps| - 1]).value, steps[|steps| - 1], sid);
    }
  }

  // ---------------------------------------------------------------------------------------------
  // Which erasures break the counter

  lemma {:induction false} UncountedJob(jobs: seq<Job>, sid: Sid) returns (i: nat)
    requires 0 < Sum(jobs, Uncounted(sid))
    ensures i < |jobs| && 0 < Uncounted(sid)(jobs[i])
  {
    var n := |jobs| - 1;
    if 0 < Uncounted(sid)(jobs[n]) {
      i := n;
    } else {
      i := UncountedJob(jobs[..n], sid);
    }
  }

  /** One more step of a run that erases nothing of the session. */
  lemma {:induction false} LeadQuietly(start: State, s: State, steps: seq<Step>, step: Step, sid: Sid)
    returns (s': State, steps': seq<Step>)
    requires Run(start, steps) == Some(s) && ErasesQuietly(start, steps, sid)
    requires Next(s, step).Some? && sid !in ErasedBy(s, step)
    ensures s' == Next(s, step).value && Run(start, steps') == Some(s') && ErasesQuietly(start, steps', sid)
  {
    s', steps' := Lead(start, s, steps, step);
    assert steps'[..|steps'| - 1] == steps;
  }

  /** Delivering everything that is left, with every answer lost. */
  lemma {:induction false} Drained(start: State, sid: Sid) returns (s: State, steps: seq<Step>)
    requires start.queue.cursor <= |start.queue.entries|
    ensures Run(start, steps) == Some(s) && ErasesQuietly(start, steps, sid)
    ensures s == start.(queue := s.queue) && s.queue.entries == start.queue.entries && s.queue.cursor == |s.queue.entries|
  {
    s, steps := start, [];
    while s.queue.cursor < |s.queue.entries|
      invariant Run(start, steps) == Some(s) && ErasesQuietly(start, steps, sid)
      invariant s == start.(queue := s.queue) && s.queue.entries == start.queue.entries
      invariant s.queue.cursor <= |s.queue.entries|
      decreases |s.queue.entries| - s.queue.cursor
    {
      s, steps := LeadQuietly(start, s, steps, Read(false), sid);
    }
  }

  /** A new delivery of a batch, ready for its upsert. */
  lemma {:induction false} Redelivered(start: State, req: Request, sid: Sid) returns (s: State, steps: seq<Step>)
    requires start.queue.cursor <= |start.queue.entries|
    ensures Run(start, steps) == Some(s) && ErasesQuietly(start, steps, sid) && s.tables == start.tables
    ensures |s.jobs| == |start.jobs| + 1 && s.jobs[..|start.jobs|] == start.jobs
    ensures var j := s.jobs[|start.jobs|]; j.Ingest? && j.work == Delivery(0) && j.req == req && j.pc == Ingesting(0, 0)
  {
    s, steps := Drained(start, sid);
    s, steps := LeadQuietly(start, s, steps, Enqueue(req), sid);
    s, steps := LeadQuietly(start, s, steps, Read(true), sid);
  }

  /** With an ingest of the session about to count and nothing stored, a new batch creates the session
      again and the count runs ahead. */
  lemma {:induction false} CountsAhead(start: State, sid: Sid, i: nat) returns (steps: seq<Step>)
    requires start.queue.cursor <= |start.queue.entries|
    requires i < |start.jobs| && 0 < Uncounted(sid)(start.jobs[i])
    requires RowsFor(start.tables.events, sid) == []
    ensures Run(start, steps).Some? && ErasesQuietly(start, steps, sid) && !CounterHolds(Run(start, steps).value, sid)
  {
    var j, n := start.jobs[i], |start.jobs|;
    var s;
    s, steps := Redelivered(start, j.req, sid);
    assert s.jobs[i] == start.jobs[i];
    s, steps := LeadQuietly(start, s, steps, Advance(n, Ok, 0), sid);
    assert s.jobs[i] == j && sid in s.tables.sessions && s.tables.sessions[sid].eventCount == 0;
    assert IngestCalls(j.req)[j.pc.k] == AddCount;
    s, steps := LeadQuietly(start, s, steps, Advance(i, Ok, 0), sid);
    assert CountOf(s.tables, sid) == |j.req.events|;
  }

  /** The counter holds in every state that can follow. */
  ghost predicate HoldsFromNowOn(s: State, sid: Sid) {
    forall steps :: Run(s, steps).Some? && ErasesQuietly(s, steps, sid) ==> CounterHolds(Run(s, steps).value, sid)
  }

  /** The exact condition, for any erasure or purge of a session in any state the pipeline can reach:
      the counter holds in everything that can follow if and only if no ingest of the session stands
      between its insert and its count. Further erasures are held to the same condition. */
  lemma {:induction false} ErasureSafeIff(s: State, step: Step, sid: Sid)
    requires Inv(s) && Next(s, step).Some? && sid in ErasedBy(s, step)
    ensures HoldsFromNowOn(Next(s, step).value, sid) <==> Sum(s.jobs, Uncounted(sid)) == 0
  {
    var s' := Next(s, step).value;
    ErasureClears(s, step, sid);
    if Sum(s.jobs, Uncounted(sid)) == 0 {
      forall steps | Run(s', steps).Some? && ErasesQuietly(s', steps, sid)
        ensures CounterHolds(Run(s', steps).value, sid)
      {
        RunKeepsCounter(s', steps, sid);
        SumNonNegative(Run(s', steps).value.jobs, sid);
      }
    } else {
      SumNonNegative(s.jobs, sid);
      var i := UncountedJob(s.jobs, sid);
      assert s'.jobs[i] == s.jobs[i];
      var steps := CountsAhead(s', sid, i);
      assert Run(s', steps).Some? && ErasesQuietly(s', steps, sid);
    }
  }

  lemma {:induction false} TwoDeliveries(req: Request) returns (s: State, steps: seq<Step>)
    ensures Run(INIT, steps) == Some(s) && s.tables == NO_TABLES
    ensures s.jobs == [Ingest(Delivery(0), 0, req, Ingesting(0, 0), 0), Ingest(Delivery(0), 1, req, Ingesting(0, 0), 0)]
  {
    s, steps := Lead(INIT, INIT, [], Enqueue(req));
    s, steps := Lead(INIT, s, steps, Enqueue(req));
    assert s == INIT.(queue := Q.State([req, req], 0, {}));
    s, steps := Lead(INIT, s, steps, Read(true));
    assert s == INIT.(queue := Q.State([req, req], 1, {0}), jobs := [Ingest(Delivery(0), 0, req, Ingesting(0, 0), 0)]);
    s, steps := Lead(INIT, s, steps, Read(true));
  }

  lemma {:induction false} FirstUpserted(req: Request, s: State, steps: seq<Step>) returns (s': State, steps': seq<Step>)
    requires IngestCalls(req) == [Upsert, Insert, AddCount] && Run(INIT, steps) == Some(s)
    requires s.jobs == [Ingest(Delivery(0), 0, req, Ingesting(0, 0), 0), Ingest(Delivery(0), 1, req, Ingesting(0, 0), 0)]
    ensures Run(INIT, steps') == Some(s') && req.sid in s'.tables.sessions
    ensures s'.jobs == [Ingest(Delivery(0), 0, req, Ingesting(1, 0), 0), Ingest(Delivery(0), 1, req, Ingesting(0, 0), 0)]
  {
    s', steps' := Lead(INIT, s, steps, Advance(0, Ok, 0));
  }

  lemma {:induction false} FirstInserted(req: Request, s: State, steps: seq<Step>) returns (s': State, steps': seq<Step>)
    requires IngestCalls(req) == [Upsert, Insert, AddCount] && Run(INIT, steps) == Some(s) && req.sid in s.tables.sessions
    requires s.jobs == [Ingest(Delivery(0), 0, req, Ingesting(1, 0), 0), Ingest(Delivery(0), 1, req, Ingesting(0, 0), 0)]
    ensures Run(INIT, steps') == Some(s')
    ensures s'.jobs == [Ingest(Delivery(0), 0, req, Ingesting(2, 0), 1), Ingest(Delivery(0), 1, req, Ingesting(0, 0), 0)]
  {
    s', steps' := Lead(INIT, s, steps, Advance(0, Ok, 0));
  }

  /** One session with one event, its ingest between the insert and the count, and the same batch
      about to be ingested once more; then the session is erased. */
  lemma {:induction false} ErasedMidIngest(req: Request) returns (s: State, steps: seq<Step>)
    requires IngestCalls(req) == [Upsert, Insert, AddCount]
    ensures Run(INIT, steps) == Some(s)
    ensures s.jobs == [Ingest(Delivery(0), 0, req, Ingesting(2, 0), 1), Ingest(Delivery(0), 1, req, Ingesting(0, 0), 0)]
    ensures req.sid !in s.tables.sessions && RowsFor(s.tables.events, req.sid) == []
  {
    s, steps := TwoDeliveries(req);
    s, steps := FirstUpserted(req, s, steps);
    s, steps := FirstInserted(req, s, steps);
    RowsForKept(s.tables.events, {req.sid}, req.sid);
    s, steps := Lead(INIT, s, steps, Erase({req.sid}));
  }

  /** Such an erasure is reachable: a run from the start in which the counter runs ahead. An ingest
      between its insert and its count survives the erasure of its rows and then counts them on the
      session that a later batch has created again. */
  lemma {:induction false} ErasureBreaksCounter(e: Rrweb.RawEvent, info: Info)
    ensures exists steps, sid ::
              && Run(INIT, steps).Some?
              && var t := Run(INIT, steps).value.tables;
                 sid in t.sessions && |RowsFor(t.events, sid)| < t.sessions[sid].eventCount
  {
    var req := Request("s", info, "", None, [e]);
    assert IngestCalls(req) == [Upsert, Insert, AddCount];
    var s, steps := ErasedMidIngest(req);
    s, steps := Lead(INIT, s, steps, Advance(1, Ok, 0));
    s, steps := Lead(INIT, s, steps, Advance(0, Ok, 0));
    assert req.sid in s.tables.sessions && s.tables.sessions[req.sid].eventCount == 1;
  }
}
