/** The retention purge over every run of the pipeline. Its id query and its delete are two statements
    (internal/session/repository.go), with anything in between. */
module Retention {
  import opened Prelude
  import opened Store
  import opened Pipeline
  import Q = Queue

  /** The step's upsert of the session, if it is one that takes effect. */
  function UpsertBy(s: State, step: Step, sid: Sid): Option<Done> {
    var c := CallBy(s, step);
    if c.Some? && c.value.call == Upsert && c.value.req.sid == sid then c else None
  }

  /** The last upsert of the session that took effect in a run. */
  function LastUpsert(s: State, steps: seq<Step>, sid: Sid): Option<Done> {
    if steps == [] then None
    else
      var front := steps[..|steps| - 1];
      match Run(s, front)
      case None => None
      case Some(mid) =>
        var u := UpsertBy(mid, steps[|steps| - 1], sid);
        if u.Some? then u else LastUpsert(s, front, sid)
  }

  /** Two rows agree in the columns an upsert writes, but for the counter. */
  ghost predicate SameColumns(a: Session, b: Session) {
    && a.info == b.info && a.startedAt == b.startedAt && a.createdAt == b.createdAt
    && a.endedAt == b.endedAt && a.durationMs == b.durationMs
  }

  lemma {:induction false} CallMovesColumns(t: Tables, call: Call, req: Request, now: int, sid: Sid)
    requires call == SetMeta ==> req.client.Some?
    requires Applied(t, call, req, now).Some?
    ensures
      var t' := Applied(t, call, req, now).value;
      && (call == Upsert && req.sid == sid ==> sid in t'.sessions && ColumnsOf(t'.sessions[sid], req, now))
      && (!(call == Upsert && req.sid == sid) && sid in t'.sessions ==>
            sid in t.sessions && SameColumns(t'.sessions[sid], t.sessions[sid]))
  {
  }

  /** Only an upsert writes these columns, or creates the session. */
  lemma {:induction false} NextMovesColumns(s: State, step: Step, sid: Sid)
    requires Next(s, step).Some? && sid in Next(s, step).value.tables.sessions
    ensures
      var row, u := Next(s, step).value.tables.sessions[sid], UpsertBy(s, step, sid);
      if u.Some? then ColumnsOf(row, u.value.req, u.value.now)
      else sid in s.tables.sessions && SameColumns(row, s.tables.sessions[sid])
  {
    if CallBy(s, step).Some? {
      var c := CallBy(s, step).value;
      CallTakesEffect(s, step);
      CallMovesColumns(s.tables, c.call, c.req, c.now, sid);
    } else {
      if sid in ErasedBy(s, step) {
        ErasureRemoves(s, step, sid);
      } else {
        OtherwiseKept(s, step, sid);
      }
    }
  }

  /** In every run, what a session's row says about its origin and its start is what its last upsert
      wrote, column by column. */
  lemma {:induction false} RowIsLastUpsert(s: State, steps: seq<Step>, sid: Sid)
    requires Run(s, steps).Some? && sid in Run(s, steps).value.tables.sessions
    ensures
      var row, u := Run(s, steps).value.tables.sessions[sid], LastUpsert(s, steps, sid);
      if u.Some? then ColumnsOf(row, u.value.req, u.value.now) && u.value.req.sid == sid
      else sid in s.tables.sessions && SameColumns(row, s.tables.sessions[sid])
  {
    if steps != [] {
      var front := steps[..|steps| - 1];
      NextMovesColumns(Run(s, front).value, steps[|steps| - 1], sid);
      if UpsertBy(Run(s, front).value, steps[|steps| - 1], sid).None? {
        RowIsLastUpsert(s, front, sid);
      }
    }
  }

  lemma {:induction false} NextKeepsIds(s: State, step: Step, i: nat)
    requires Next(s, step).Some? && i < |s.jobs| && s.jobs[i].Purging?
    ensures var s' := Next(s, step).value; i < |s'.jobs| && s'.jobs[i].Purging? && s'.jobs[i].ids == s.jobs[i].ids
  {
  }

  /** A purge holds on to the ids of its query. */
  lemma {:induction false} RunKeepsIds(s: State, steps: seq<Step>, i: nat)
    requires Run(s, steps).Some? && i < |s.jobs| && s.jobs[i].Purging?
    ensures var s' := Run(s, steps).value; i < |s'.jobs| && s'.jobs[i].Purging? && s'.jobs[i].ids == s.jobs[i].ids
  {
    if steps != [] {
      RunKeepsIds(s, steps[..|steps| - 1], i);
      NextKeepsIds(Run(s, steps[..|steps| - 1]).value, steps[|steps| - 1], i);
    }
  }

  /** A purge: the state at the query, the run up to the delete, and the state just before it. */
  ghost predicate Purge(queried: State, cutoff: int, between: seq<Step>, before: State) {
    && Run(Next(queried, StartPurge(cutoff)).value, between) == Some(before)
    && |queried.jobs| < |before.jobs| && before.jobs[|queried.jobs|].Purging? && !before.jobs[|queried.jobs|].over
  }

  /** What the delete removes: of the sessions there are by then, exactly those the query found too
      old. Everything else of the tables stays as it is. */
  lemma {:induction false} PurgeRemoves(queried: State, cutoff: int, between: seq<Step>, before: State, outcome: Outcome, sid: Sid)
    requires Purge(queried, cutoff, between, before) && outcome != Refused
    ensures
      var after := Next(before, Advance(|queried.jobs|, outcome, 0));
      && after.Some?
      && (sid in before.tables.sessions && sid !in after.value.tables.sessions <==>
          sid in before.tables.sessions && sid in Expired(queried.tables, cutoff))
      && (sid in after.value.tables.sessions ==> after.value.tables.sessions[sid] == before.tables.sessions[sid])
      && RowsFor(after.value.tables.events, sid) ==
         (if sid in Expired(queried.tables, cutoff) then [] else RowsFor(before.tables.events, sid))
      && after.value.tables.failed == before.tables.failed
  {
    var s0 := Next(queried, StartPurge(cutoff)).value;
    assert s0.jobs[|queried.jobs|] == Purging(Expired(queried.tables, cutoff), false);
    RunKeepsIds(s0, between, |queried.jobs|);
    RowsForKept(before.tables.events, Expired(queried.tables, cutoff), sid);
  }

  /** Exactly when a purge removes a recent session: the query found the session too old, and the last
      upsert of it that took effect before the delete carries a reading at or after the cutoff. */
  lemma {:induction false} PurgeRemovesRecentIff(queried: State, cutoff: int, between: seq<Step>, before: State, outcome: Outcome, sid: Sid)
    requires Purge(queried, cutoff, between, before) && outcome != Refused
    requires sid in before.tables.sessions
    ensures
      var after := Next(before, Advance(|queried.jobs|, outcome, 0));
      var upsert := LastUpsert(Next(queried, StartPurge(cutoff)).value, between, sid);
      && after.Some?
      && (cutoff <= before.tables.sessions[sid].startedAt && sid !in after.value.tables.sessions <==>
          sid in Expired(queried.tables, cutoff) && upsert.Some? && cutoff <= upsert.value.now)
  {
    PurgeRemoves(queried, cutoff, between, before, outcome, sid);
    RowIsLastUpsert(Next(queried, StartPurge(cutoff)).value, between, sid);
  }

  /** With no upsert of the session in between, the purge is exact: of the sessions present at the
      delete it removes those whose last upsert, in the whole history, precedes the cutoff. */
  lemma {:induction false} UndisturbedPurgeIsExact(steps: seq<Step>, cutoff: int, between: seq<Step>, before: State,
                                                   outcome: Outcome, sid: Sid)
    requires Run(INIT, steps).Some? && Purge(Run(INIT, steps).value, cutoff, between, before) && outcome != Refused
    requires LastUpsert(Next(Run(INIT, steps).value, StartPurge(cutoff)).value, between, sid).None?
    requires sid in before.tables.sessions
    ensures
      var queried := Run(INIT, steps).value;
      var after, last := Next(before, Advance(|queried.jobs|, outcome, 0)), LastUpsert(INIT, steps, sid);
      && after.Some? && last.Some?
      && before.tables.sessions[sid].startedAt == last.value.now
      && (sid !in after.value.tables.sessions <==> last.value.now < cutoff)
  {
    var queried := Run(INIT, steps).value;
    PurgeRemoves(queried, cutoff, between, before, outcome, sid);
    RowIsLastUpsert(Next(queried, StartPurge(cutoff)).value, between, sid);
    RowIsLastUpsert(INIT, steps, sid);
  }

  // ---------------------------------------------------------------------------------------------
  // The race is real

  /** Two deliveries of a batch, the first of which has upserted its session at instant zero. */
  lemma {:induction false} UpsertedAtZero(req: Request) returns (s: State, steps: seq<Step>)
    ensures Run(INIT, steps) == Some(s)
    ensures |s.jobs| == 2 && s.jobs[1] == Ingest(Delivery(0), 1, req, Ingesting(0, 0), 0)
    ensures req.sid in s.tables.sessions && s.tables.sessions[req.sid].startedAt == 0
  {
    s, steps := Lead(INIT, INIT, [], Enqueue(req));
    s, steps := Lead(INIT, s, steps, Enqueue(req));
    assert s == INIT.(queue := Q.State([req, req], 0, {}));
    s, steps := Lead(INIT, s, steps, Read(true));
    assert s == INIT.(queue := Q.State([req, req], 1, {0}), jobs := [Ingest(Delivery(0), 0, req, Ingesting(0, 0), 0)]);
    s, steps := Lead(INIT, s, steps, Read(true));
    assert s.jobs == [Ingest(Delivery(0), 0, req, Ingesting(0, 0), 0), Ingest(Delivery(0), 1, req, Ingesting(0, 0), 0)];
    s, steps := Lead(INIT, s, steps, Advance(0, Ok, 0));
  }

  /** A run from the start in which a purge removes a session that a batch has just brought up to date:
      queried with cutoff one, upserted at five, deleted. */
  lemma {:induction false} PurgeRemovesRecent(req: Request)
    returns (steps: seq<Step>, queried: State, cutoff: int, between: seq<Step>, before: State)
    ensures Run(INIT, steps) == Some(queried) && Purge(queried, cutoff, between, before)
    ensures req.sid in before.tables.sessions && cutoff <= before.tables.sessions[req.sid].startedAt
    ensures
      var after := Next(before, Advance(|queried.jobs|, Ok, 0));
      after.Some? && req.sid !in after.value.tables.sessions
  {
    queried, steps := UpsertedAtZero(req);
    cutoff := 1;
    var s := Next(queried, StartPurge(cutoff)).value;
    assert s.jobs[2].Purging? && req.sid in s.jobs[2].ids && s.jobs[1].req == req;
    before, between := Lead(s, s, [], Advance(1, Ok, 5));
    assert before.tables.sessions[req.sid].startedAt == 5;
  }
}
