/** The ingest pipeline as a protocol: the writer, any number of worker processes, the reader's
    retries and share links, and erasures, interleaved step by step (internal/worker/service.go,
    internal/queue/queue.go, internal/session/service.go).

    Every repository or queue call is one atomic step. It may be refused with no effect, or take
    effect and still report an error; a process may crash between any two steps. */
module Pipeline {
  import opened Prelude
  import opened Store
  import Q = Queue

  // ---------------------------------------------------------------------------------------------
  // State

  /** `process` of a delivered message, in its n-th attempt counted from zero, or `RetryFailed` of a
      failed-ingest row. */
  datatype Work = Delivery(attempt: nat) | Retry(row: nat)

  datatype End = Succeeded | Failed | Crashed

  /** Where a job stands: before call `k` of an ingest whose clock reading is `now`, before the
      acknowledgement after a success, before saving the failed batch, before the acknowledgement
      after giving up, before marking the row resolved, or over. */
  datatype Pc =
    | Ingesting(k: nat, now: int)
    | Acking
    | Saving
    | GivingUp(saved: bool)
    | Resolving
    | Finished(end: End)

  /** A running or finished call of `process` or `RetryFailed`, of `CreateShareToken` once it has found
      no stored token, or of `PurgeOlderThan` once it has queried the ids. `msg` is the message the
      batch came from; `inserted` counts the job's event inserts that took effect. */
  datatype Job =
    | Ingest(work: Work, msg: nat, req: Request, pc: Pc, inserted: nat)
    | Sharing(sid: Sid, token: string, done: bool)
    | Purging(ids: set<Sid>, over: bool)

  /** One event insert that took effect. */
  datatype InsertRecord = InsertRecord(job: nat, msg: nat, req: Request, now: int)

  /** `origins` says for each failed-ingest row which message it came from, `inserts` which inserts
      took effect, `erased` which sessions have been deleted or purged; the rest is what the system
      stores. */
  datatype State = State(queue: Q.State<Request>, tables: Tables, jobs: seq<Job>,
                         origins: seq<nat>, inserts: seq<InsertRecord>, erased: set<Sid>)

  const INIT := State(Q.State([], 0, {}), NO_TABLES, [], [], [], {})

  const ATTEMPTS := 4

  // ---------------------------------------------------------------------------------------------
  // Steps

  /** An ingest call that took effect. */
  datatype Done = Done(call: Call, req: Request, now: int)

  datatype Step =
    | Enqueue(req: Request)
    | Read(answered: bool)
    | Reclaim(msg: nat)
    | StartRetry(row: nat)
    | StartShare(sid: Sid, token: string)
    | StartPurge(cutoff: int)
    | Advance(job: nat, outcome: Outcome, now: int)
    | Crash(job: nat)
    | Erase(sids: set<Sid>)

  function NewDelivery(s: State, msg: nat): Job
    requires msg < |s.queue.entries|
  {
    Ingest(Delivery(0), msg, s.queue.entries[msg], Ingesting(0, 0), 0)
  }

  function WithJob(s: State, i: nat, job: Job): State
    requires i < |s.jobs|
  {
    s.(jobs := s.jobs[i := job])
  }

  /** A failed attempt: another one, or saving the batch after the last; a retry just fails. */
  function AttemptFailed(j: Job): Job
    requires j.Ingest?
  {
    match j.work
    case Delivery(a) =>
      if a + 1 < ATTEMPTS then j.(work := Delivery(a + 1), pc := Ingesting(0, 0)) else j.(pc := Saving)
    case Retry(_) => j.(pc := Finished(Failed))
  }

  /** The job after call `k` of its ingest succeeded. */
  function CallDone(j: Job, k: nat, now: int): Job
    requires j.Ingest?
  {
    if k + 1 < |IngestCalls(j.req)| then j.(pc := Ingesting(k + 1, now))
    else j.(pc := if j.work.Delivery? then Acking else Resolving)
  }

  /** One repository call of an ingest. */
  function IngestStep(s: State, i: nat, outcome: Outcome, now: int): Option<State>
    requires i < |s.jobs| && s.jobs[i].Ingest? && s.jobs[i].pc.Ingesting?
    requires s.jobs[i].pc.k < |IngestCalls(s.jobs[i].req)|
  {
    var j := s.jobs[i];
    var k, at := j.pc.k, if j.pc.k == 0 then now else j.pc.now;
    var call := IngestCalls(j.req)[k];
    if outcome == Refused then Some(WithJob(s, i, AttemptFailed(j)))
    else
      match Applied(s.tables, call, j.req, at)
      case None => None
      case Some(t) =>
        var j' := if call == Insert then j.(inserted := j.inserted + 1) else j;
        var s' := s.(tables := t,
                     inserts := if call == Insert then s.inserts + [InsertRecord(i, j.msg, j.req, at)] else s.inserts);
        Some(WithJob(s', i, if outcome == Ok then CallDone(j', k, at) else AttemptFailed(j')))
  }

  /** The acknowledgement of a job's message; its error is ignored. */
  function AckStep(s: State, i: nat, outcome: Outcome, end: End): State
    requires i < |s.jobs| && s.jobs[i].Ingest?
  {
    var j := s.jobs[i];
    WithJob(if outcome == Refused then s else s.(queue := Q.Acked(s.queue, j.msg)), i, j.(pc := Finished(end)))
  }

  /** `saveFailed`: an error is logged and forgotten. */
  function SaveStep(s: State, i: nat, outcome: Outcome): State
    requires i < |s.jobs| && s.jobs[i].Ingest?
  {
    var j := s.jobs[i];
    if outcome == Refused then WithJob(s, i, j.(pc := GivingUp(false)))
    else WithJob(s.(tables := Saved(s.tables, FailedRow(j.req, ATTEMPTS, false)), origins := s.origins + [j.msg]),
                 i, j.(pc := GivingUp(true)))
  }

  function ResolveStep(s: State, i: nat, outcome: Outcome): State
    requires i < |s.jobs| && s.jobs[i].Ingest? && s.jobs[i].work.Retry?
  {
    var j := s.jobs[i];
    WithJob(if outcome == Refused then s else s.(tables := Resolved(s.tables, j.work.row)),
            i, j.(pc := Finished(if outcome == Ok then Succeeded else Failed)))
  }

  /** The write of `CreateShareToken`, after the read that found no token. */
  function ShareStep(s: State, i: nat, outcome: Outcome): Option<State>
    requires i < |s.jobs| && s.jobs[i].Sharing?
  {
    var j := s.jobs[i];
    if outcome == Refused then Some(WithJob(s, i, j.(done := true)))
    else if TokenFree(s.tables, j.sid, j.token)
    then Some(WithJob(s.(tables := TokenSet(s.tables, j.sid, j.token)), i, j.(done := true)))
    else None
  }

  /** The delete of a purge: the ids of its query, whatever has happened to them since. */
  function PurgeStep(s: State, i: nat, outcome: Outcome): State
    requires i < |s.jobs| && s.jobs[i].Purging?
  {
    var j := s.jobs[i];
    WithJob(if outcome == Refused then s else s.(tables := Erased(s.tables, j.ids), erased := s.erased + j.ids),
            i, j.(over := true))
  }

  /** The next call of job `i`. */
  function AdvanceStep(s: State, i: nat, outcome: Outcome, now: int): Option<State>
    requires i < |s.jobs|
  {
    match s.jobs[i]
    case Sharing(_, _, done) => if done then None else ShareStep(s, i, outcome)
    case Purging(_, over) => if over then None else Some(PurgeStep(s, i, outcome))
    case Ingest(work, _, req, pc, _) =>
      match pc
      case Ingesting(k, _) => if k < |IngestCalls(req)| then IngestStep(s, i, outcome, now) else None
      case Acking => Some(AckStep(s, i, outcome, Succeeded))
      case Saving => Some(SaveStep(s, i, outcome))
      case GivingUp(_) => Some(AckStep(s, i, outcome, Failed))
      case Resolving => if work.Retry? then Some(ResolveStep(s, i, outcome)) else None
      case Finished(_) => None
  }

  function CrashStep(s: State, i: nat): Option<State>
    requires i < |s.jobs|
  {
    match s.jobs[i]
    case Sharing(_, _, _) => Some(WithJob(s, i, s.jobs[i].(done := true)))
    case Purging(_, _) => Some(WithJob(s, i, s.jobs[i].(over := true)))
    case Ingest(_, _, _, pc, _) => if pc.Finished? then None else Some(WithJob(s, i, s.jobs[i].(pc := Finished(Crashed))))
  }

  /** Whether `CreateShareToken` finds a session without a token and goes on to write one. */
  predicate NeedsToken(s: State, sid: Sid) {
    && sid in s.tables.sessions
    && (s.tables.sessions[sid].token.None? || s.tables.sessions[sid].token.value == "")
  }

  /** The state after a step, if the step is possible. */
  function Next(s: State, step: Step): Option<State> {
    match step
    case Enqueue(req) => Some(s.(queue := Q.Added(s.queue, req)))
    case Read(answered) =>
      if |s.queue.entries| <= s.queue.cursor then None
      else
        var s' := s.(queue := Q.Delivered(s.queue));
        Some(if answered then s'.(jobs := s.jobs + [NewDelivery(s, s.queue.cursor)]) else s')
    case Reclaim(msg) =>
      if msg in s.queue.pending && msg < |s.queue.entries|
      then Some(s.(jobs := s.jobs + [NewDelivery(s, msg)]))
      else None
    case StartRetry(row) =>
      if row < |s.tables.failed| && row < |s.origins|
      then Some(s.(jobs := s.jobs + [Ingest(Retry(row), s.origins[row], s.tables.failed[row].payload, Ingesting(0, 0), 0)]))
      else None
    case StartShare(sid, token) =>
      if NeedsToken(s, sid) && token != "" then Some(s.(jobs := s.jobs + [Sharing(sid, token, false)])) else None
    case StartPurge(cutoff) => Some(s.(jobs := s.jobs + [Purging(Expired(s.tables, cutoff), false)]))
    case Advance(i, outcome, now) => if i < |s.jobs| then AdvanceStep(s, i, outcome, now) else None
    case Crash(i) => if i < |s.jobs| then CrashStep(s, i) else None
    case Erase(sids) => Some(s.(tables := Erased(s.tables, sids), erased := s.erased + sids))
  }

  /** The sessions a step deletes: by an erasure, or by the delete of a purge. */
  function ErasedBy(s: State, step: Step): set<Sid> {
    match step
    case Erase(sids) => sids
    case Advance(i, outcome, _) =>
      if i < |s.jobs| && s.jobs[i].Purging? && !s.jobs[i].over && outcome != Refused then s.jobs[i].ids else {}
    case _ => {}
  }

  /** The ingest call that takes effect in a possible step, if it is one. */
  function CallBy(s: State, step: Step): Option<Done> {
    match step
    case Advance(i, outcome, now) =>
      if i < |s.jobs| && s.jobs[i].Ingest? && s.jobs[i].pc.Ingesting? && s.jobs[i].pc.k < |IngestCalls(s.jobs[i].req)| && outcome != Refused
      then
        var j := s.jobs[i];
        Some(Done(IngestCalls(j.req)[j.pc.k], j.req, if j.pc.k == 0 then now else j.pc.now))
      else None
    case _ => None
  }

  lemma {:induction false} CallTakesEffect(s: State, step: Step)
    requires Next(s, step).Some? && CallBy(s, step).Some?
    ensures
      var c := CallBy(s, step).value;
      && (c.call == SetMeta ==> c.req.client.Some?)
      && Applied(s.tables, c.call, c.req, c.now) == Some(Next(s, step).value.tables)
      && ErasedBy(s, step) == {}
  {
  }

  /** A step that is neither an ingest call nor an erasure of the session may at most write its token. */
  lemma {:induction false} OtherwiseKept(s: State, step: Step, sid: Sid)
    requires Next(s, step).Some? && CallBy(s, step).None? && sid !in ErasedBy(s, step)
    ensures
      var t, t' := s.tables, Next(s, step).value.tables;
      && (sid in t'.sessions <==> sid in t.sessions)
      && (sid in t.sessions ==> t'.sessions[sid] == t.sessions[sid].(token := t'.sessions[sid].token))
  {
  }

  lemma {:induction false} ErasureRemoves(s: State, step: Step, sid: Sid)
    requires Next(s, step).Some? && sid in ErasedBy(s, step)
    ensures sid !in Next(s, step).value.tables.sessions
  {
  }

  /** The state after a run, if every step of it is possible. */
  function Run(s: State, steps: seq<Step>): Option<State> {
    if steps == [] then Some(s)
    else
      match Run(s, steps[..|steps| - 1])
      case None => None
      case Some(mid) => Next(mid, steps[|steps| - 1])
  }

  // ---------------------------------------------------------------------------------------------
  // What every run keeps

  /** Some insert of the message's whole batch took effect. */
  ghost predicate Copied(inserts: seq<InsertRecord>, msg: nat) {
    exists j :: 0 <= j < |inserts| && inserts[j].msg == msg
  }

  /** Some failed-ingest row came from the message. */
  ghost predicate HasRow(origins: seq<nat>, msg: nat) {
    exists r :: 0 <= r < |origins| && origins[r] == msg
  }

  ghost predicate JobOk(s: State, j: Job) {
    j.Ingest? ==>
      && j.msg < s.queue.cursor <= |s.queue.entries| && j.req == s.queue.entries[j.msg]
      && (j.work.Delivery? ==> j.work.attempt < ATTEMPTS)
      && (j.work.Retry? ==> j.work.row < |s.origins| && s.origins[j.work.row] == j.msg)
      && match j.pc
         case Ingesting(k, _) => k < |IngestCalls(j.req)| && (k == |IngestCalls(j.req)| - 1 ==> Copied(s.inserts, j.msg))
         case Acking => j.work.Delivery? && Copied(s.inserts, j.msg)
         case Saving => j.work.Delivery?
         case GivingUp(saved) => j.work.Delivery? && (saved ==> HasRow(s.origins, j.msg))
         case Resolving => j.work.Retry? && Copied(s.inserts, j.msg)
         case Finished(_) => true
  }

  ghost predicate RowsOk(s: State) {
    && |s.origins| == |s.tables.failed|
    && s.queue.cursor <= |s.queue.entries|
    && forall r :: 0 <= r < |s.origins| ==>
                     && s.origins[r] < s.queue.cursor
                     && s.tables.failed[r].payload == s.queue.entries[s.origins[r]]
                     && (s.tables.failed[r].resolved ==> Copied(s.inserts, s.origins[r]))
  }

  ghost predicate InsertsOk(s: State) {
    s.queue.cursor <= |s.queue.entries|
    && forall j :: 0 <= j < |s.inserts| ==>
                     s.inserts[j].msg < s.queue.cursor && s.inserts[j].req == s.queue.entries[s.inserts[j].msg]
  }

  ghost predicate JobsOk(s: State) {
    forall i :: 0 <= i < |s.jobs| ==> JobOk(s, s.jobs[i])
  }

  ghost predicate Inv(s: State) {
    s.queue.Valid() && RowsOk(s) && InsertsOk(s) && JobsOk(s)
  }

  /** Nothing a job relies on is taken back: messages, deliveries, failed rows and inserts only grow. */
  ghost predicate Extends(s: State, s': State) {
    && s.queue.entries <= s'.queue.entries
    && s.queue.cursor <= s'.queue.cursor
    && s.origins <= s'.origins
    && s.inserts <= s'.inserts
  }

  lemma {:induction false} JobOkExtends(s: State, s': State, j: Job)
    requires JobOk(s, j) && Extends(s, s') && s'.queue.cursor <= |s'.queue.entries|
    ensures JobOk(s', j)
  {
    if j.Ingest? {
      CopiedExtends(s.inserts, s'.inserts, j.msg);
      if HasRow(s.origins, j.msg) {
        var r :| 0 <= r < |s.origins| && s.origins[r] == j.msg;
        assert s'.origins[r] == j.msg;
      }
    }
  }

  lemma {:induction false} CopiedExtends(inserts: seq<InsertRecord>, inserts': seq<InsertRecord>, msg: nat)
    requires inserts <= inserts'
    ensures Copied(inserts, msg) ==> Copied(inserts', msg)
  {
    if Copied(inserts, msg) {
      var j :| 0 <= j < |inserts| && inserts[j].msg == msg;
      assert inserts'[j].msg == msg;
    }
  }

  /** Enough to carry the jobs over a step that changes or adds at most one of them. */
  lemma {:induction false} JobsCarry(s: State, s': State, i: nat)
    requires JobsOk(s) && Extends(s, s') && s'.queue.cursor <= |s'.queue.entries|
    requires i < |s'.jobs| <= |s.jobs| + 1 && JobOk(s', s'.jobs[i])
    requires forall n :: 0 <= n < |s'.jobs| && n != i ==> n < |s.jobs| && s'.jobs[n] == s.jobs[n]
    ensures JobsOk(s')
  {
    forall n | 0 <= n < |s'.jobs|
      ensures JobOk(s', s'.jobs[n])
    {
      var j := s'.jobs[n];
      if n != i { JobOkExtends(s, s', j); }
    }
  }

  lemma {:induction false} JobsCarryAll(s: State, s': State)
    requires JobsOk(s) && Extends(s, s') && s'.queue.cursor <= |s'.queue.entries| && s'.jobs == s.jobs
    ensures JobsOk(s')
  {
    forall n | 0 <= n < |s'.jobs|
      ensures JobOk(s', s'.jobs[n])
    {
      JobOkExtends(s, s', s.jobs[n]);
    }
  }

  lemma {:induction false} RowsCarry(s: State, s': State)
    requires RowsOk(s) && Extends(s, s') && s'.queue.cursor <= |s'.queue.entries|
    requires s'.origins == s.origins && s'.tables.failed == s.tables.failed
    ensures RowsOk(s')
  {
    forall r | 0 <= r < |s.origins| && s.tables.failed[r].resolved
      ensures Copied(s'.inserts, s.origins[r])
    {
      CopiedExtends(s.inserts, s'.inserts, s.origins[r]);
    }
  }

  lemma {:induction false} AppliedKeepsFailed(t: Tables, call: Call, req: Request, now: int)
    requires call == SetMeta ==> req.client.Some?
    requires Applied(t, call, req, now).Some?
    ensures Applied(t, call, req, now).value.failed == t.failed
  {
  }

  lemma {:induction false} AttemptFailedOk(s: State, j: Job)
    requires j.Ingest? && JobOk(s, j)
    ensures JobOk(s, AttemptFailed(j))
  {
  }

  /** The job of an ingest step is fit for the state after it. */
  lemma {:induction false} IngestJobOk(s: State, i: nat, outcome: Outcome, now: int)
    requires Inv(s) && i < |s.jobs| && s.jobs[i].Ingest? && s.jobs[i].pc.Ingesting?
    requires s.jobs[i].pc.k < |IngestCalls(s.jobs[i].req)|
    requires IngestStep(s, i, outcome, now).Some?
    ensures
      var s' := IngestStep(s, i, outcome, now).value;
      Extends(s, s') && |s'.jobs| == |s.jobs| && JobOk(s', s'.jobs[i])
  {
    var s', j := IngestStep(s, i, outcome, now).value, s.jobs[i];
    assert JobOk(s, j);
    JobOkExtends(s, s', j);
    if outcome == Refused {
      AttemptFailedOk(s', j);
      return;
    }
    var calls := IngestCalls(j.req);
    if calls[j.pc.k] == Insert {
      assert s'.inserts[|s.inserts|].msg == j.msg;
      assert Copied(s'.inserts, j.msg);
      AttemptFailedOk(s', j.(inserted := j.inserted + 1));
    } else {
      assert j.pc.k != |calls| - 2;
      AttemptFailedOk(s', j);
    }
  }

  lemma {:induction false} IngestKeepsInv(s: State, i: nat, outcome: Outcome, now: int)
    requires Inv(s) && i < |s.jobs| && s.jobs[i].Ingest? && s.jobs[i].pc.Ingesting?
    requires s.jobs[i].pc.k < |IngestCalls(s.jobs[i].req)|
    requires IngestStep(s, i, outcome, now).Some?
    ensures Inv(IngestStep(s, i, outcome, now).value)
    ensures Extends(s, IngestStep(s, i, outcome, now).value)
  {
    var s', j := IngestStep(s, i, outcome, now).value, s.jobs[i];
    assert JobOk(s, j);
    if outcome != Refused {
      AppliedKeepsFailed(s.tables, IngestCalls(j.req)[j.pc.k], j.req, if j.pc.k == 0 then now else j.pc.now);
    }
    IngestJobOk(s, i, outcome, now);
    RowsCarry(s, s');
    JobsCarry(s, s', i);
  }

  lemma {:induction false} AdvanceKeepsInv(s: State, i: nat, outcome: Outcome, now: int)
    requires Inv(s) && i < |s.jobs| && AdvanceStep(s, i, outcome, now).Some?
    ensures Inv(AdvanceStep(s, i, outcome, now).value)
    ensures Extends(s, AdvanceStep(s, i, outcome, now).value)
  {
    var s', j := AdvanceStep(s, i, outcome, now).value, s.jobs[i];
    if j.Ingest? && j.pc.Ingesting? {
      IngestKeepsInv(s, i, outcome, now);
    } else {
      assert JobOk(s, j);
      if j.Ingest? && j.pc.Saving? {
        SaveKeepsInv(s, i, outcome);
      } else if j.Ingest? && j.pc.Resolving? {
        ResolveKeepsInv(s, i, outcome);
      } else {
        JobsCarry(s, s', i);
      }
    }
  }

  lemma {:induction false} ResolveKeepsInv(s: State, i: nat, outcome: Outcome)
    requires Inv(s) && i < |s.jobs| && s.jobs[i].Ingest? && s.jobs[i].pc.Resolving? && s.jobs[i].work.Retry?
    ensures Inv(ResolveStep(s, i, outcome))
    ensures Extends(s, ResolveStep(s, i, outcome))
  {
    assert JobOk(s, s.jobs[i]);
    JobsCarry(s, ResolveStep(s, i, outcome), i);
  }

  lemma {:induction false} SaveKeepsInv(s: State, i: nat, outcome: Outcome)
    requires Inv(s) && i < |s.jobs| && s.jobs[i].Ingest? && s.jobs[i].pc.Saving?
    ensures Inv(SaveStep(s, i, outcome))
    ensures Extends(s, SaveStep(s, i, outcome))
  {
    var s', j := SaveStep(s, i, outcome), s.jobs[i];
    assert JobOk(s, j);
    JobOkExtends(s, s', j);
    if outcome != Refused {
      assert s'.origins[|s.origins|] == j.msg;
    }
    JobsCarry(s, s', i);
  }

  lemma {:induction false} NextKeepsInv(s: State, step: Step)
    requires Inv(s) && Next(s, step).Some?
    ensures Inv(Next(s, step).value) && Extends(s, Next(s, step).value)
  {
    var s' := Next(s, step).value;
    match step {
      case Enqueue(_) => RowsCarry(s, s'); JobsCarryAll(s, s');
      case Read(answered) =>
        RowsCarry(s, s');
        if answered { JobsCarry(s, s', |s.jobs|); } else { JobsCarryAll(s, s'); }
      case Reclaim(_) => JobsCarry(s, s', |s.jobs|);
      case StartRetry(_) => JobsCarry(s, s', |s.jobs|);
      case StartShare(_, _) => JobsCarry(s, s', |s.jobs|);
      case StartPurge(_) => JobsCarry(s, s', |s.jobs|);
      case Advance(i, outcome, now) => AdvanceKeepsInv(s, i, outcome, now);
      case Crash(i) => assert JobOk(s, s.jobs[i]); JobsCarry(s, s', i);
      case Erase(_) => JobsCarryAll(s, s');
    }
  }

  lemma {:induction false} RunKeepsInv(s: State, steps: seq<Step>)
    requires Inv(s) && Run(s, steps).Some?
    ensures Inv(Run(s, steps).value) && Extends(s, Run(s, steps).value)
  {
    if steps != [] {
      RunKeepsInv(s, steps[..|steps| - 1]);
      NextKeepsInv(Run(s, steps[..|steps| - 1]).value, steps[|steps| - 1]);
    }
  }

  /** A crash is possible for any job that is not over, ends it for good, and changes nothing else. */
  lemma {:induction false} CrashEnds(s: State, i: nat, outcome: Outcome, now: int)
    requires i < |s.jobs|
    ensures Next(s, Crash(i)).None? ==> Next(s, Advance(i, outcome, now)).None?
    ensures Next(s, Crash(i)).Some? ==>
              var s' := Next(s, Crash(i)).value;
              && s' == s.(jobs := s'.jobs) && |s'.jobs| == |s.jobs|
              && (forall n :: 0 <= n < |s.jobs| && n != i ==> s'.jobs[n] == s.jobs[n])
              && Next(s', Advance(i, outcome, now)).None?
  {
  }

  /** One more step of a run. */
  lemma {:induction false} Lead(start: State, s: State, steps: seq<Step>, step: Step) returns (s': State, steps': seq<Step>)
    requires Run(start, steps) == Some(s) && Next(s, step).Some?
    ensures s' == Next(s, step).value && steps' == steps + [step] && Run(start, steps') == Some(s')
  {
    s', steps' := Next(s, step).value, steps + [step];
    assert (steps + [step])[..|steps|] == steps;
  }

  lemma {:induction false} RunAppend(s: State, a: seq<Step>, b: seq<Step>)
    ensures Run(s, a + b) == if Run(s, a).None? then None else Run(Run(s, a).value, b)
    decreases |b|
  {
    if b == [] {
      assert a + b == a;
    } else {
      RunAppend(s, a, b[..|b| - 1]);
      assert (a + b)[..|a + b| - 1] == a + b[..|b| - 1];
    }
  }

  // ---------------------------------------------------------------------------------------------
  // One job alone

  /** A job that runs its ingest with no one in between and whose first `n` calls succeed changes the
      tables exactly as the sequential ingest does. */
  lemma {:induction false} SoloIngest(s: State, i: nat, now: int, n: nat)
    requires i < |s.jobs| && s.jobs[i].Ingest? && s.jobs[i].pc == Ingesting(0, 0)
    requires n <= |IngestCalls(s.jobs[i].req)|
    ensures
      var req := s.jobs[i].req;
      var run := Run(s, seq(n, _ => Advance(i, Ok, now)));
      && (run.Some? <==> Ingested(s.tables, req, now, n).Some?)
      && (run.Some? ==>
            && run.value.tables == Ingested(s.tables, req, now, n).value
            && i < |run.value.jobs| && run.value.jobs[i].Ingest? && run.value.jobs[i].req == req
            && run.value.jobs[i].work == s.jobs[i].work
            && run.value.jobs[i].pc ==
               if n == 0 then Ingesting(0, 0)
               else if n < |IngestCalls(req)| then Ingesting(n, now)
               else if s.jobs[i].work.Delivery? then Acking else Resolving)
  {
    if 0 < n {
      SoloIngest(s, i, now, n - 1);
      var steps := seq(n, _ => Advance(i, Ok, now));
      assert steps[..n - 1] == seq(n - 1, _ => Advance(i, Ok, now));
      var mid := Run(s, steps[..n - 1]);
      if mid.Some? {
        CallAdvances(mid.value, i, now);
      }
    }
  }

  /** One confirmed call of an ingest. */
  lemma {:induction false} CallAdvances(s: State, i: nat, now: int)
    requires i < |s.jobs| && s.jobs[i].Ingest? && s.jobs[i].pc.Ingesting? && s.jobs[i].pc.k < |IngestCalls(s.jobs[i].req)|
    requires s.jobs[i].pc.k == 0 || s.jobs[i].pc.now == now
    ensures
      var j, k := s.jobs[i], s.jobs[i].pc.k;
      var t', s' := Applied(s.tables, IngestCalls(j.req)[k], j.req, now), Next(s, Advance(i, Ok, now));
      && (s'.Some? <==> t'.Some?)
      && (s'.Some? ==>
            && s'.value.tables == t'.value && i < |s'.value.jobs|
            && s'.value.jobs[i].Ingest? && s'.value.jobs[i].req == j.req && s'.value.jobs[i].work == j.work
            && s'.value.jobs[i].pc ==
               if k + 1 < |IngestCalls(j.req)| then Ingesting(k + 1, now) else if j.work.Delivery? then Acking else Resolving)
  {
  }

  /** What a run that only advances the ingest job `i` leaves alone. */
  ghost predicate OnlyJob(s: State, s': State, i: nat) {
    && |s'.jobs| == |s.jobs| && (forall n :: 0 <= n < |s.jobs| && n != i ==> s'.jobs[n] == s.jobs[n])
    && i < |s.jobs| && s.jobs[i].Ingest? && s'.jobs[i].Ingest? && s'.jobs[i].msg == s.jobs[i].msg && s'.jobs[i].req == s.jobs[i].req
    && (!s'.jobs[i].pc.Finished? ==> s'.queue == s.queue)
    && s'.erased == s.erased
  }

  ghost predicate OnlyAdvances(steps: seq<Step>, i: nat) {
    forall n :: 0 <= n < |steps| ==> steps[n].Advance? && steps[n].job == i
  }

  lemma {:induction false} OnlyItsJobMoves(s: State, steps: seq<Step>, i: nat)
    requires i < |s.jobs| && s.jobs[i].Ingest?
    requires OnlyAdvances(steps, i) && Run(s, steps).Some?
    ensures OnlyJob(s, Run(s, steps).value, i)
  {
    if steps != [] {
      var n := |steps| - 1;
      OnlyItsJobMoves(s, steps[..n], i);
      OneAdvance(Run(s, steps[..n]).value, i, steps[n].outcome, steps[n].now);
    }
  }

  lemma {:induction false} OneAdvance(s: State, i: nat, outcome: Outcome, now: int)
    requires i < |s.jobs| && s.jobs[i].Ingest? && AdvanceStep(s, i, outcome, now).Some?
    ensures !s.jobs[i].pc.Finished? && OnlyJob(s, AdvanceStep(s, i, outcome, now).value, i)
  {
  }
}
