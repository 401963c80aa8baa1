/** The repository and the session service over it (internal/session/repository.go, service.go), run
    by one caller at a time. A write may be refused, or take effect and still report an error; the
    concurrent runs are the Pipeline module's. */
module Service {
  import opened Prelude
  import opened Store

  /** `log` is how every call so far ended, `lost` how many resolving writes took effect on a row without
      the caller being told. */
  class Repository {
    var sessions: map<Sid, Session>
    var events: seq<EventRow>
    var failed: seq<FailedRow>
    ghost var log: seq<Outcome>
    ghost var lost: nat

    ghost function View(): Tables
      reads this
    {
      Tables(sessions, events, failed)
    }

    method UpsertSession(req: Request, now: int) returns (err: bool)
      modifies this`sessions, this`log
      ensures Wrote(old(View()), View(), Upserted(old(View()), req, now), old(log), log, err)
    {
      var o := Fate();
      if o != Refused {
        var known := req.sid in sessions;
        sessions := sessions[req.sid := Session(Defaulted(req.info), now, now, None, None, 0,
                                                if known then sessions[req.sid].token else None,
                                                if known then sessions[req.sid].meta else None)];
      }
      log := log + [o];
      err := o != Ok;
    }

    /** Refused if another session has the token. */
    method SetShareToken(sid: Sid, token: string) returns (err: bool)
      modifies this`sessions, this`log
      ensures Wrote(old(View()), View(), TokenSet(old(View()), sid, token), old(log), log, err)
      ensures !TokenFree(old(View()), sid, token) ==> log[|log| - 1] == Refused
    {
      var o := Fate();
      if sid in sessions && exists other :: other in sessions && other != sid && sessions[other].token == Some(token) {
        o := Refused;
      }
      if o != Refused && sid in sessions {
        sessions := sessions[sid := sessions[sid].(token := Some(token))];
      }
      log := log + [o];
      err := o != Ok;
    }

    method SetClientMetadata(sid: Sid, meta: Meta) returns (err: bool)
      modifies this`sessions, this`log
      ensures Wrote(old(View()), View(), MetaSet(old(View()), sid, meta), old(log), log, err)
    {
      var o := Fate();
      if o != Refused && sid in sessions {
        sessions := sessions[sid := sessions[sid].(meta := Some(meta))];
      }
      log := log + [o];
      err := o != Ok;
    }

    /** All rows or none; a row whose session is gone is refused. */
    method InsertEvents(rows: seq<EventRow>) returns (err: bool)
      modifies this`events, this`log
      ensures Wrote(old(View()), View(), old(View()).(events := old(events) + rows), old(log), log, err)
      ensures log[|log| - 1] != Refused ==> forall i :: 0 <= i < |rows| ==> rows[i].sid in sessions
    {
      var o := Fate();
      if exists i :: 0 <= i < |rows| && rows[i].sid !in sessions {
        o := Refused;
      }
      if o != Refused {
        events := events + rows;
      }
      log := log + [o];
      err := o != Ok;
    }

    method IncrementEventCount(sid: Sid, delta: int) returns (err: bool)
      modifies this`sessions, this`log
      ensures Wrote(old(View()), View(), Counted(old(View()), sid, delta), old(log), log, err)
    {
      var o := Fate();
      if o != Refused && sid in sessions {
        sessions := sessions[sid := sessions[sid].(eventCount := sessions[sid].eventCount + delta)];
      }
      log := log + [o];
      err := o != Ok;
    }

    method GetByID(sid: Sid) returns (r: Option<Session>)
      modifies this`log
      ensures Logged(old(log), log)
      ensures r == if log[|log| - 1] == Ok && sid in sessions then Some(sessions[sid]) else None
    {
      var o := Fate();
      log := log + [o];
      r := if o == Ok && sid in sessions then Some(sessions[sid]) else None;
    }

    /** The sessions whose latest batch started before the cutoff. */
    method ExpiredIds(cutoff: int) returns (ids: Option<set<Sid>>)
      modifies this`log
      ensures Logged(old(log), log)
      ensures ids == if log[|log| - 1] == Ok then Some(Expired(View(), cutoff)) else None
    {
      var o := Fate();
      log := log + [o];
      ids := if o == Ok then Some(set sid | sid in sessions && sessions[sid].startedAt < cutoff) else None;
    }

    /** Deletes sessions and their events in one transaction. */
    method DeleteSessions(ids: set<Sid>) returns (err: bool)
      modifies this`sessions, this`events, this`log
      ensures Wrote(old(View()), View(), Erased(old(View()), ids), old(log), log, err)
    {
      var o := Fate();
      if o != Refused {
        events := Keep(events, ids);
        sessions := sessions - ids;
      }
      log := log + [o];
      err := o != Ok;
    }

    method PurgeOlderThan(cutoff: int) returns (n: Option<nat>)
      modifies this`sessions, this`events, this`log
      ensures old(log) <= log && (n.Some? <==> Confirmed(old(log), log))
      ensures View() == Erased(old(View()), Expired(old(View()), cutoff)) || (n.None? && View() == old(View()))
      ensures n.Some? ==> n.value == |Expired(old(View()), cutoff)|
    {
      var ids := ExpiredIds(cutoff);
      if ids.None? {
        return None;
      }
      if ids.value == {} {
        KeepNothing(events);
        assert sessions - {} == sessions;
        return Some(0);
      }
      var err := DeleteSessions(ids.value);
      n := if err then None else Some(|ids.value|);
    }

    method SaveFailed(row: FailedRow) returns (err: bool)
      modifies this`failed, this`log
      ensures Wrote(old(View()), View(), Saved(old(View()), row), old(log), log, err)
    {
      var o := Fate();
      if o != Refused {
        failed := failed + [row];
      }
      log := log + [o];
      err := o != Ok;
    }

    method GetFailed(id: nat) returns (r: Option<FailedRow>)
      modifies this`log
      ensures Logged(old(log), log)
      ensures r == if log[|log| - 1] == Ok && id < |failed| then Some(failed[id]) else None
    {
      var o := Fate();
      log := log + [o];
      r := if o == Ok && id < |failed| then Some(failed[id]) else None;
    }

    method MarkFailedResolved(id: nat) returns (err: bool)
      modifies this`failed, this`log, this`lost
      ensures Wrote(old(View()), View(), Resolved(old(View()), id), old(log), log, err)
      ensures lost == old(lost) + if err && failed != old(failed) then 1 else 0
    {
      var o := Fate();
      if o != Refused && id < |failed| {
        failed := failed[id := failed[id].(resolved := true)];
      }
      log := log + [o];
      err := o != Ok;
      lost := lost + if err && failed != old(failed) then 1 else 0;
    }

    /** The ids of the unresolved rows, newest first. */
    method ListUnresolved() returns (ids: Option<seq<nat>>)
      modifies this`log
      ensures Logged(old(log), log)
      ensures ids == if log[|log| - 1] == Ok then Some(UnresolvedIds(failed)) else None
    {
      var o := Fate();
      log := log + [o];
      ids := if o == Ok then Some(UnresolvedIds(failed)) else None;
    }
  }

  /** A write, by how the log says it ended: it has its effect unless refused, and an error is reported
      unless it was confirmed. */
  ghost predicate Wrote(before: Tables, after: Tables, effect: Tables, log: seq<Outcome>, log': seq<Outcome>, err: bool) {
    && Logged(log, log')
    && var o := log'[|log'| - 1];
       after == (if o == Refused then before else effect) && (err <==> o != Ok)
  }

  // ---------------------------------------------------------------------------------------------
  // Retention

  lemma {:induction false} KeepNothing(rows: seq<EventRow>)
    ensures Keep(rows, {}) == rows
  {
    if rows != [] {
      KeepNothing(rows[..|rows| - 1]);
      assert rows == rows[..|rows| - 1] + [rows[|rows| - 1]];
    }
  }

  /** A purge after any sequential history removes exactly the sessions whose latest batch, whether it
      got through or not, is older than the cutoff, with all their events, and touches nothing else. */
  lemma {:induction false} PurgeIsExact(attempts: seq<Attempt>, cutoff: int, sid: Sid)
    requires IngestedAll(NO_TABLES, attempts).Some?
    ensures
      var t := IngestedAll(NO_TABLES, attempts).value;
      var t' := Erased(t, Expired(t, cutoff));
      var last := LastTouch(attempts, sid);
      && (sid in t'.sessions <==> last.Some? && cutoff <= last.value.now)
      && (sid in t'.sessions ==> t'.sessions[sid] == t.sessions[sid] && RowsFor(t'.events, sid) == RowsFor(t.events, sid))
      && (sid !in t'.sessions ==> RowsFor(t'.events, sid) == [])
      && t'.failed == t.failed
  {
    var t := IngestedAll(NO_TABLES, attempts).value;
    SequentialHistory(NO_TABLES, attempts, sid);
    RowsForKept(t.events, Expired(t, cutoff), sid);
    if LastTouch(attempts, sid).None? {
      NoBatchNoRows(attempts, sid);
    }
  }

  lemma {:induction false} NoBatchNoRows(attempts: seq<Attempt>, sid: Sid)
    requires LastTouch(attempts, sid).None?
    ensures TotalSize(attempts, sid) == 0
  {
    if attempts != [] { NoBatchNoRows(attempts[..|attempts| - 1], sid); }
  }

  // ---------------------------------------------------------------------------------------------
  // Failed batches

  function UnresolvedIds(failed: seq<FailedRow>): (r: seq<nat>)
    ensures forall i :: 0 <= i < |r| ==> r[i] < |failed| && !failed[r[i]].resolved
    ensures forall i, j :: 0 <= i < j < |r| ==> r[j] < r[i]
    ensures forall id :: 0 <= id < |failed| && !failed[id].resolved ==> id in r
  {
    if failed == [] then []
    else
      var rest := UnresolvedIds(failed[..|failed| - 1]);
      if failed[|failed| - 1].resolved then rest else [|failed| - 1] + rest
  }

  function Unresolved(failed: seq<FailedRow>): nat {
    if failed == [] then 0
    else Unresolved(failed[..|failed| - 1]) + if failed[|failed| - 1].resolved then 0 else 1
  }

  lemma {:induction false} UnresolvedIdsCount(failed: seq<FailedRow>)
    ensures |UnresolvedIds(failed)| == Unresolved(failed)
  {
    if failed != [] { UnresolvedIdsCount(failed[..|failed| - 1]); }
  }

  lemma {:induction false} ResolvingOne(failed: seq<FailedRow>, id: nat)
    requires id < |failed| && !failed[id].resolved
    ensures Unresolved(failed[id := failed[id].(resolved := true)]) == Unresolved(failed) - 1
  {
    var failed' := failed[id := failed[id].(resolved := true)];
    var n := |failed| - 1;
    if id == n {
      assert failed'[..n] == failed[..n];
    } else {
      ResolvingOne(failed[..n], id);
      assert failed'[..n] == failed[..n][id := failed[id].(resolved := true)];
    }
  }

  /** The event table holds a whole copy of the batch at or after position `from`. */
  ghost predicate HasCopy(events: seq<EventRow>, from: nat, req: Request) {
    exists a: nat, now :: from <= a && CopyAt(events, a, req, now)
  }

  ghost predicate CopyAt(events: seq<EventRow>, a: nat, req: Request, now: int) {
    a + |req.events| <= |events| && events[a..a + |req.events|] == RowsOf(req, now)
  }

  lemma {:induction false} CopyKept(events: seq<EventRow>, events': seq<EventRow>, from: nat, req: Request)
    requires events <= events' && HasCopy(events, from, req)
    ensures HasCopy(events', from, req)
  {
    var a: nat, now :| from <= a && CopyAt(events, a, req, now);
    assert events'[a..a + |req.events|] == events[a..a + |req.events|];
    assert CopyAt(events', a, req, now);
  }

  lemma {:induction false} CopyAppended(events: seq<EventRow>, req: Request, now: int, from: nat)
    requires from <= |events|
    ensures HasCopy(events + RowsOf(req, now), from, req)
  {
    var a, events' := |events|, events + RowsOf(req, now);
    assert events'[a..a + |req.events|] == RowsOf(req, now);
    assert CopyAt(events', a, req, now);
  }

  /** What an ingest has done by the calls it logged: those that took effect did so on the tables in
      order, and an error is returned unless all were made and confirmed. */
  ghost predicate Ran(t: Tables, t': Tables, req: Request, now: int, log: seq<Outcome>, log': seq<Outcome>, err: bool) {
    && log <= log'
    && var outs := log'[|log|..];
       && IngestOutcomes(|IngestCalls(req)|, outs)
       && (err <==> outs[|outs| - 1] != Ok)
       && Ingested(t, req, now, Effective(outs)) == Some(t')
  }

  /** The first `k` calls were made and confirmed. */
  ghost predicate SoFar(t: Tables, t': Tables, req: Request, now: int, log: seq<Outcome>, log': seq<Outcome>, k: nat) {
    && k <= |IngestCalls(req)| && |log'| == |log| + k && Confirmed(log, log')
    && Ingested(t, req, now, k) == Some(t')
  }

  /** One more call of an ingest. */
  lemma {:induction false} NextCall(t: Tables, before: Tables, after: Tables, call: Call, req: Request, now: int,
                                    log: seq<Outcome>, mid: seq<Outcome>, log': seq<Outcome>, k: nat, err: bool)
    requires k < |IngestCalls(req)| && IngestCalls(req)[k] == call && SoFar(t, before, req, now, log, mid, k)
    requires Logged(mid, log') && (err <==> log'[|log'| - 1] != Ok)
    requires log'[|log'| - 1] == Refused ==> after == before
    requires log'[|log'| - 1] != Refused ==> Applied(before, call, req, now) == Some(after)
    ensures !err ==> SoFar(t, after, req, now, log, log', k + 1)
    ensures err || k + 1 == |IngestCalls(req)| ==> Ran(t, after, req, now, log, log', err)
  {
    assert log <= log';
    var outs := log'[|log|..];
    assert forall i :: 0 <= i < |outs| ==> outs[i] == log'[|log| + i];
    assert forall i :: |log| <= i < |mid| ==> log'[i] == mid[i];
  }

  /** An ingest that returns no error has confirmed all its calls and inserted its whole batch. */
  lemma {:induction false} RanThrough(t: Tables, t': Tables, req: Request, now: int, log: seq<Outcome>, log': seq<Outcome>, err: bool)
    requires Ran(t, t', req, now, log, log', err)
    ensures log <= log' && |log'| <= |log| + |IngestCalls(req)|
    ensures !err <==> Confirmed(log, log')
    ensures !err ==> |log'| == |log| + |IngestCalls(req)| && HasCopy(t'.events, |t.events|, req)
    ensures t.events <= t'.events && t'.failed == t.failed
  {
    var outs := log'[|log|..];
    IngestedSoFar(t, req, now, Effective(outs));
    assert forall i :: |log| <= i < |log'| ==> log'[i] == outs[i - |log|];
    if !err {
      CopyAppended(t.events, req, now, |t.events|);
    }
  }

  class SessionService {
    const repo: Repository

    constructor (repo: Repository)
      ensures this.repo == repo
    {
      this.repo := repo;
    }

    /** The event rows of a batch, filled in one by one. */
    method BuildRows(req: Request, now: int) returns (rows: seq<EventRow>)
      ensures rows == RowsOf(req, now)
    {
      var events := new EventRow[|req.events|];
      for i := 0 to |req.events|
        invariant forall j :: 0 <= j < i ==> events[j] == EventRow(req.sid, j, req.events[j], now)
      {
        events[i] := EventRow(req.sid, i, req.events[i], now);
      }
      rows := events[..];
    }

    /** Not a transaction: whatever prefix of the calls took effect stays. There is no error exactly when
        every call was made and confirmed. */
    method Ingest(req: Request, now: int) returns (err: bool)
      modifies repo`sessions, repo`events, repo`log
      ensures Ran(old(repo.View()), repo.View(), req, now, old(repo.log), repo.log, err)
    {
      ghost var t, log, calls := repo.View(), repo.log, IngestCalls(req);
      ghost var before, mid, k := repo.View(), repo.log, 0;
      err := repo.UpsertSession(req, now);
      NextCall(t, before, repo.View(), Upsert, req, now, log, mid, repo.log, k, err);
      if err { return; }
      k := k + 1;
      if req.token != "" {
        assert calls[k] == SetToken;
        before, mid := repo.View(), repo.log;
        err := repo.SetShareToken(req.sid, req.token);
        NextCall(t, before, repo.View(), SetToken, req, now, log, mid, repo.log, k, err);
        if err { return; }
        k := k + 1;
      }
      if req.client.Some? {
        assert calls[k] == SetMeta;
        before, mid := repo.View(), repo.log;
        err := repo.SetClientMetadata(req.sid, req.client.value);
        NextCall(t, before, repo.View(), SetMeta, req, now, log, mid, repo.log, k, err);
        if err { return; }
        k := k + 1;
      }
      assert k == |calls| - 2;
      err := StoreEvents(req, now, t, log);
    }

    /** The last two calls of an ingest that began at `t` and `log`. */
    method StoreEvents(req: Request, now: int, ghost t: Tables, ghost log: seq<Outcome>) returns (err: bool)
      requires SoFar(t, repo.View(), req, now, log, repo.log, |IngestCalls(req)| - 2)
      modifies repo`sessions, repo`events, repo`log
      ensures Ran(t, repo.View(), req, now, log, repo.log, err)
    {
      ghost var k := |IngestCalls(req)| - 2;
      var rows := BuildRows(req, now);
      ghost var before, mid := repo.View(), repo.log;
      err := repo.InsertEvents(rows);
      assert repo.log[|repo.log| - 1] != Refused && req.events != [] ==> rows[0].sid in repo.sessions;
      NextCall(t, before, repo.View(), Insert, req, now, log, mid, repo.log, k, err);
      if err { return; }
      before, mid := repo.View(), repo.log;
      err := repo.IncrementEventCount(req.sid, |rows|);
      NextCall(t, before, repo.View(), AddCount, req, now, log, mid, repo.log, k + 1, err);
    }

    /** There is no error exactly when the row exists and every call was confirmed. The row is resolved
        exactly when the last of all the calls was made and took effect, confirmed or not, and then its
        whole batch has been inserted. */
    method RetryFailed(id: nat, now: int) returns (err: bool)
      modifies repo
      ensures old(repo.log) <= repo.log && old(repo.events) <= repo.events
      ensures !err <==> id < |old(repo.failed)| && Confirmed(old(repo.log), repo.log)
      ensures |old(repo.failed)| <= id ==> |repo.log| == |old(repo.log)| + 1 && repo.View() == old(repo.View())
      ensures id < |old(repo.failed)| ==>
                var calls := repo.log[|old(repo.log)|..];
                && RetryOutcomes(old(repo.failed)[id].payload, calls)
                && RetryEffect(old(repo.View()), id, now, calls) == Some(repo.View())
                && (Resolves(old(repo.failed)[id].payload, calls) ==> HasCopy(repo.events, |old(repo.events)|, old(repo.failed)[id].payload))
      ensures repo.lost == old(repo.lost) + if err && repo.failed != old(repo.failed) then 1 else 0
    {
      ghost var t0, log0 := repo.View(), repo.log;
      var row := repo.GetFailed(id);
      ghost var log := repo.log;
      if row.None? {
        assert log[|log0|..] == [log[|log0|]];
        return true;
      }
      var req := row.value.payload;
      err := Ingest(req, now);
      RanThrough(t0, repo.View(), req, now, log, repo.log, err);
      if err {
        RetryStopped(t0, repo.View(), id, now, log0, log, repo.log);
        return;
      }
      ghost var t, mid := repo.View(), repo.log;
      err := repo.MarkFailedResolved(id);
      RetryCompleted(t0, t, repo.View(), id, now, log0, log, mid, repo.log);
      CopyKept(t.events, repo.events, |t0.events|, req);
    }

    /** Every row that was unresolved is tried once, the newest first, whatever becomes of the others:
        `tries` is what each of them logged, and whether its row is resolved depends on that alone.
        The number returned is the drop in unresolved rows, less the resolving writes that took effect
        without being confirmed. There is an error exactly when the rows could not be listed. Every row
        resolved has had its whole batch inserted, none becomes unresolved, and when every call is
        confirmed none is left. `clock` is the reading each try takes. */
    method RetryAllFailed(clock: nat -> int) returns (succeeded: nat, err: bool, ghost tries: seq<seq<Outcome>>)
      modifies repo
      ensures old(repo.log) < repo.log && (err <==> repo.log[|old(repo.log)|] != Ok)
      ensures err ==> repo.View() == old(repo.View()) && |repo.log| == |old(repo.log)| + 1
      ensures !err ==> repo.log == old(repo.log) + [Ok] + Flatten(tries)
      ensures !err ==> TriedEach(old(repo.failed), repo.failed, UnresolvedIds(old(repo.failed)), tries)
      ensures old(repo.lost) <= repo.lost && old(repo.events) <= repo.events
      ensures Retried(old(repo.failed), |old(repo.events)|, repo.View(), succeeded + (repo.lost - old(repo.lost)))
      ensures Confirmed(old(repo.log), repo.log) ==> succeeded == Unresolved(old(repo.failed)) && Unresolved(repo.failed) == 0
    {
      succeeded, tries := 0, [];
      var ids := repo.ListUnresolved();
      ghost var t, log := repo.View(), repo.log;
      ListedFirst(old(repo.log), log);
      if ids.None? {
        RetriedNothing(t);
        return 0, true, [];
      }
      err := false;
      succeeded, tries := RetryEach(ids.value, clock);
      NoneLeft(t, repo.View(), old(repo.log), log, repo.log, succeeded, repo.lost - old(repo.lost));
    }

    /** The loop over the listed rows. */
    method RetryEach(ids: seq<nat>, clock: nat -> int) returns (succeeded: nat, ghost tries: seq<seq<Outcome>>)
      requires forall i, j :: 0 <= i < j < |ids| ==> ids[j] < ids[i]
      requires forall i :: 0 <= i < |ids| ==> ids[i] < |repo.failed| && !repo.failed[ids[i]].resolved
      modifies repo
      ensures old(repo.log) <= repo.log && repo.log == old(repo.log) + Flatten(tries)
      ensures TriedEach(old(repo.failed), repo.failed, ids, tries)
      ensures Retried(old(repo.failed), |old(repo.events)|, repo.View(), succeeded + (repo.lost - old(repo.lost)))
      ensures old(repo.lost) <= repo.lost && old(repo.events) <= repo.events
      ensures Confirmed(old(repo.log), repo.log) ==> succeeded == |ids|
    {
      succeeded, tries := 0, [];
      ghost var t, log, lost := repo.View(), repo.log, repo.lost;
      for k := 0 to |ids|
        invariant InProgress(t, repo.View(), log, repo.log, lost, repo.lost, ids, tries, succeeded, k)
      {
        ghost var before, mid, was := repo.View(), repo.log, repo.lost;
        var e := RetryFailed(ids[k], clock(k));
        OneMoreTry(t, before, repo.View(), log, mid, repo.log, lost, was, repo.lost, ids, tries, succeeded, k, clock(k), e);
        tries := tries + [repo.log[|mid|..]];
        if !e {
          succeeded := succeeded + 1;
        }
      }
    }

    /** Returns the stored token if there is one and stores a fresh one otherwise; called alone, it
        is idempotent. It fails exactly when there is no such session or a call was not confirmed. */
    method CreateShareToken(sid: Sid, generated: string) returns (r: Option<string>)
      requires generated != ""
      modifies repo`sessions, repo`log
      ensures old(repo.log) <= repo.log && (r.Some? <==> sid in old(repo.sessions) && Confirmed(old(repo.log), repo.log))
      ensures repo.View() == old(repo.View()) || repo.View() == TokenSet(old(repo.View()), sid, generated)
      ensures sid in old(repo.sessions) ==>
                var stored := old(repo.sessions)[sid].token;
                if stored.Some? && stored.value != ""
                then (r.None? || r == stored) && repo.View() == old(repo.View())
                else r.Some? ==> r.value == generated && repo.View() == TokenSet(old(repo.View()), sid, generated)
    {
      var session := repo.GetByID(sid);
      if session.None? {
        return None;
      }
      var stored := session.value.token;
      if stored.Some? && stored.value != "" {
        return stored;
      }
      var err := repo.SetShareToken(sid, generated);
      r := if err then None else Some(generated);
    }

    /** A non-positive retention disables the purge. */
    method PurgeOlderThan(retention: int, now: int) returns (n: Option<nat>)
      modifies repo`sessions, repo`events, repo`log
      ensures retention <= 0 ==> n == Some(0) && repo.View() == old(repo.View()) && repo.log == old(repo.log)
      ensures 0 < retention ==>
                var expired := Expired(old(repo.View()), now - retention);
                && old(repo.log) <= repo.log && (n.Some? <==> Confirmed(old(repo.log), repo.log))
                && (repo.View() == Erased(old(repo.View()), expired) || (n.None? && repo.View() == old(repo.View())))
                && (n.Some? ==> n.value == |expired|)
    {
      if retention <= 0 {
        return Some(0);
      }
      n := repo.PurgeOlderThan(now - retention);
    }
  }

  lemma {:induction false} ConfirmedSplit(a: seq<Outcome>, b: seq<Outcome>, c: seq<Outcome>)
    requires a <= b <= c
    ensures Confirmed(a, c) <==> Confirmed(a, b) && Confirmed(b, c)
  {
    assert forall i :: 0 <= i < |b| ==> c[i] == b[i];
  }

  /** What one retry logs: it goes on until a call is not confirmed, the first being the fetch of the row
      and the last its resolving. */
  ghost predicate RetryOutcomes(req: Request, calls: seq<Outcome>) {
    IngestOutcomes(|IngestCalls(req)| + 2, calls)
  }

  /** Whether the resolving write of a retry took effect. */
  predicate Resolves(req: Request, calls: seq<Outcome>) {
    |calls| == |IngestCalls(req)| + 2 && calls[|calls| - 1] != Refused
  }

  /** The tables after one retry, by what it logged. */
  ghost function RetryEffect(t: Tables, id: nat, now: int, calls: seq<Outcome>): Option<Tables>
    requires id < |t.failed| && RetryOutcomes(t.failed[id].payload, calls)
  {
    var req := t.failed[id].payload;
    if |calls| == |IngestCalls(req)| + 2 then
      match Ingested(t, req, now, |IngestCalls(req)|)
      case None => None
      case Some(done) => Some(if Resolves(req, calls) then Resolved(done, id) else done)
    else if |calls| == 1 then Some(t)
    else Ingested(t, req, now, Effective(calls) - 1)
  }

  lemma {:induction false} RetryStopped(t: Tables, t': Tables, id: nat, now: int, log0: seq<Outcome>, log: seq<Outcome>, log': seq<Outcome>)
    requires id < |t.failed| && Logged(log0, log) && log[|log0|] == Ok
    requires Ran(t, t', t.failed[id].payload, now, log, log', true)
    ensures log0 <= log' && RetryOutcomes(t.failed[id].payload, log'[|log0|..])
    ensures RetryEffect(t, id, now, log'[|log0|..]) == Some(t') && !Resolves(t.failed[id].payload, log'[|log0|..])
    ensures !Confirmed(log0, log')
  {
    var calls, outs := log'[|log0|..], log'[|log|..];
    assert calls == [Ok] + outs;
    assert calls[|calls| - 1] == outs[|outs| - 1] == log'[|log'| - 1];
  }

  lemma {:induction false} RetryCompleted(t: Tables, done: Tables, t': Tables, id: nat, now: int,
                                          log0: seq<Outcome>, log: seq<Outcome>, mid: seq<Outcome>, log': seq<Outcome>)
    requires id < |t.failed| && Logged(log0, log) && log[|log0|] == Ok
    requires Ran(t, done, t.failed[id].payload, now, log, mid, false) && Logged(mid, log')
    requires t' == if log'[|mid|] == Refused then done else Resolved(done, id)
    ensures log0 <= log' && RetryOutcomes(t.failed[id].payload, log'[|log0|..])
    ensures RetryEffect(t, id, now, log'[|log0|..]) == Some(t')
    ensures Confirmed(log0, log') <==> log'[|mid|] == Ok
  {
    var calls, outs := log'[|log0|..], mid[|log|..];
    RanThrough(t, done, t.failed[id].payload, now, log, mid, false);
    assert forall i :: 0 <= i < |mid| ==> log'[i] == mid[i];
    assert forall i :: 0 <= i < |log| ==> mid[i] == log[i];
    assert calls[|calls| - 1] == log'[|mid|];
  }

  /** What one retry does to the failed rows and the events. */
  lemma {:induction false} RetryKeeps(t: Tables, t': Tables, id: nat, now: int, calls: seq<Outcome>)
    requires id < |t.failed| && RetryOutcomes(t.failed[id].payload, calls) && RetryEffect(t, id, now, calls) == Some(t')
    ensures t'.failed == if Resolves(t.failed[id].payload, calls) then t.failed[id := t.failed[id].(resolved := true)] else t.failed
  {
    var req := t.failed[id].payload;
    if |calls| == |IngestCalls(req)| + 2 {
      IngestedSoFar(t, req, now, |IngestCalls(req)|);
    } else if 1 < |calls| {
      IngestedSoFar(t, req, now, Effective(calls) - 1);
    }
  }

  /** The first `k` of the unresolved rows have been tried, and each is resolved by its own try or not at
      all; the others are still to come. */
  ghost predicate TriedSoFar(original: seq<FailedRow>, failed: seq<FailedRow>, ids: seq<nat>, tries: seq<seq<Outcome>>, k: nat) {
    && k == |tries| <= |ids| && |failed| == |original|
    && (forall j :: 0 <= j < |ids| ==> ids[j] < |original| && failed[ids[j]].payload == original[ids[j]].payload)
    && (forall j :: 0 <= j < k ==> RetryOutcomes(original[ids[j]].payload, tries[j]))
    && (forall j :: 0 <= j < k ==> (failed[ids[j]].resolved <==> Resolves(original[ids[j]].payload, tries[j])))
    && (forall j :: k <= j < |ids| ==> !failed[ids[j]].resolved)
  }

  /** All of the rows have been tried, each once, and each is resolved exactly if its own try says so. */
  ghost predicate TriedEach(original: seq<FailedRow>, failed: seq<FailedRow>, ids: seq<nat>, tries: seq<seq<Outcome>>) {
    TriedSoFar(original, failed, ids, tries, |ids|)
  }

  /** A row that is still unresolved owes it to a call of its own try. */
  lemma {:induction false} LeftByItsOwnTry(original: seq<FailedRow>, failed: seq<FailedRow>, ids: seq<nat>, tries: seq<seq<Outcome>>, k: nat)
    requires TriedEach(original, failed, ids, tries) && k < |ids|
    ensures failed[ids[k]].resolved || exists c :: 0 <= c < |tries[k]| && tries[k][c] != Ok
  {
    var calls := tries[k];
    assert RetryOutcomes(original[ids[k]].payload, calls);
    if calls[|calls| - 1] == Ok {
      assert Resolves(original[ids[k]].payload, calls);
    }
  }

  lemma {:induction false} TriedNext(original: seq<FailedRow>, before: seq<FailedRow>, after: seq<FailedRow>, ids: seq<nat>,
                                     tries: seq<seq<Outcome>>, calls: seq<Outcome>, k: nat)
    requires TriedSoFar(original, before, ids, tries, k) && k < |ids|
    requires forall i, j :: 0 <= i < j < |ids| ==> ids[j] < ids[i]
    requires RetryOutcomes(original[ids[k]].payload, calls)
    requires after == if Resolves(original[ids[k]].payload, calls) then before[ids[k] := before[ids[k]].(resolved := true)] else before
    ensures TriedSoFar(original, after, ids, tries + [calls], k + 1)
  {
    forall j | 0 <= j < |ids| && j != k
      ensures after[ids[j]] == before[ids[j]]
    {
      assert ids[j] != ids[k];
    }
  }

  /** A retry of all rows after the first `k` of them. */
  ghost predicate InProgress(t: Tables, t': Tables, log: seq<Outcome>, log': seq<Outcome>, lost: nat, lost': nat,
                             ids: seq<nat>, tries: seq<seq<Outcome>>, succeeded: nat, k: nat)
  {
    && lost <= lost' && t.events <= t'.events
    && log <= log' && log' == log + Flatten(tries)
    && (Confirmed(log, log') ==> succeeded == k)
    && Retried(t.failed, |t.events|, t', succeeded + (lost' - lost))
    && TriedSoFar(t.failed, t'.failed, ids, tries, k)
  }

  lemma {:induction false} OneMoreTry(t: Tables, before: Tables, after: Tables, log: seq<Outcome>, mid: seq<Outcome>, log': seq<Outcome>,
                                      lost: nat, was: nat, lost': nat, ids: seq<nat>, tries: seq<seq<Outcome>>, succeeded: nat, k: nat,
                                      now: int, err: bool)
    requires InProgress(t, before, log, mid, lost, was, ids, tries, succeeded, k) && k < |ids|
    requires forall i, j :: 0 <= i < j < |ids| ==> ids[j] < ids[i]
    requires mid <= log' && before.events <= after.events
    requires ids[k] < |before.failed| && RetryOutcomes(before.failed[ids[k]].payload, log'[|mid|..])
    requires RetryEffect(before, ids[k], now, log'[|mid|..]) == Some(after)
    requires Resolves(before.failed[ids[k]].payload, log'[|mid|..]) ==> HasCopy(after.events, |before.events|, before.failed[ids[k]].payload)
    requires !err <==> Confirmed(mid, log')
    requires lost' == was + if err && after.failed != before.failed then 1 else 0
    ensures InProgress(t, after, log, log', lost, lost', ids, tries + [log'[|mid|..]], if err then succeeded else succeeded + 1, k + 1)
  {
    var calls := log'[|mid|..];
    RetryKeeps(before, after, ids[k], now, calls);
    TriedNext(t.failed, before.failed, after.failed, ids, tries, calls, k);
    LogGrows(log, mid, log', tries);
    ConfirmedSplit(log, mid, log');
    ConfirmedResolves(before.failed[ids[k]].payload, mid, log');
    RetriedCount(t, before, after, lost, was, lost', succeeded, ids[k], err);
  }

  lemma {:induction false} ListedFirst(log: seq<Outcome>, log': seq<Outcome>)
    requires Logged(log, log')
    ensures log' == log + [log'[|log|]]
    ensures Confirmed(log, log') <==> log'[|log|] == Ok
  {
  }

  lemma {:induction false} RetriedNothing(t: Tables)
    ensures Retried(t.failed, |t.events|, t, 0)
  {
  }

  /** If every call was confirmed, the rows resolved are all there were. */
  lemma {:induction false} NoneLeft(t: Tables, t': Tables, log: seq<Outcome>, mid: seq<Outcome>, log': seq<Outcome>, succeeded: nat, lost: int)
    requires log <= mid <= log' && 0 <= lost && Retried(t.failed, |t.events|, t', succeeded + lost)
    requires Confirmed(mid, log') ==> succeeded == |UnresolvedIds(t.failed)|
    ensures Confirmed(log, log') ==> succeeded == Unresolved(t.failed) && Unresolved(t'.failed) == 0
  {
    ConfirmedSplit(log, mid, log');
    UnresolvedIdsCount(t.failed);
  }

  lemma {:induction false} LogGrows(log: seq<Outcome>, mid: seq<Outcome>, log': seq<Outcome>, tries: seq<seq<Outcome>>)
    requires log <= mid && mid == log + Flatten(tries) && mid <= log'
    ensures log <= log' && log' == log + Flatten(tries + [log'[|mid|..]])
  {
    FlattenSnoc(tries, log'[|mid|..]);
    assert log' == mid + log'[|mid|..];
  }

  lemma {:induction false} RetriedCount(t: Tables, before: Tables, after: Tables, lost: nat, was: nat, lost': nat, succeeded: nat, id: nat, err: bool)
    requires Retried(t.failed, |t.events|, before, succeeded + (was - lost)) && before.events <= after.events
    requires id < |before.failed| && !before.failed[id].resolved
    requires
      || after.failed == before.failed
      || (&& after.failed == before.failed[id := before.failed[id].(resolved := true)]
          && HasCopy(after.events, |before.events|, before.failed[id].payload))
    requires !err ==> after.failed != before.failed
    requires lost' == was + if err && after.failed != before.failed then 1 else 0
    ensures Retried(t.failed, |t.events|, after, (if err then succeeded else succeeded + 1) + (lost' - lost))
  {
    RetriedNext(t.failed, |t.events|, before, after, succeeded + (was - lost), id);
  }

  lemma {:induction false} ConfirmedResolves(req: Request, mid: seq<Outcome>, log': seq<Outcome>)
    requires mid <= log' && RetryOutcomes(req, log'[|mid|..])
    ensures Confirmed(mid, log') ==> Resolves(req, log'[|mid|..])
  {
    assert log'[|mid|..][|log'| - |mid| - 1] == log'[|log'| - 1];
  }

  /** What a retry of all rows keeps: rows are only resolved, each with a copy of its batch inserted
      since, and the count is the number of rows resolved. */
  ghost predicate Retried(original: seq<FailedRow>, from: nat, t: Tables, succeeded: int) {
    && OnlyResolves(original, t.failed) && |t.failed| == |original|
    && succeeded == Unresolved(original) - Unresolved(t.failed)
    && from <= |t.events|
    && forall i :: 0 <= i < |original| && t.failed[i].resolved && !original[i].resolved ==>
                     HasCopy(t.events, from, t.failed[i].payload)
  }

  lemma {:induction false} RetriedNone(original: seq<FailedRow>, from: nat, before: Tables, after: Tables, succeeded: int)
    requires Retried(original, from, before, succeeded)
    requires after.failed == before.failed && before.events <= after.events
    ensures Retried(original, from, after, succeeded)
  {
    forall i | 0 <= i < |original| && after.failed[i].resolved && !original[i].resolved
      ensures HasCopy(after.events, from, after.failed[i].payload)
    {
      CopyKept(before.events, after.events, from, after.failed[i].payload);
    }
  }

  lemma {:induction false} RetriedOne(original: seq<FailedRow>, from: nat, before: Tables, after: Tables, succeeded: int, id: nat)
    requires Retried(original, from, before, succeeded)
    requires id < |before.failed| && !before.failed[id].resolved && before.events <= after.events
    requires after.failed == before.failed[id := before.failed[id].(resolved := true)]
    requires HasCopy(after.events, |before.events|, before.failed[id].payload)
    ensures Retried(original, from, after, succeeded + 1)
  {
    RetriedNone(original, from, before, before.(events := after.events), succeeded);
    ResolvingOne(before.failed, id);
    CopyFromLater(after.events, |before.events|, from, before.failed[id].payload);
  }

  lemma {:induction false} RetriedNext(original: seq<FailedRow>, from: nat, before: Tables, after: Tables, succeeded: int, id: nat)
    requires Retried(original, from, before, succeeded) && before.events <= after.events
    requires id < |before.failed| && !before.failed[id].resolved
    requires
      || after.failed == before.failed
      || (&& after.failed == before.failed[id := before.failed[id].(resolved := true)]
          && HasCopy(after.events, |before.events|, before.failed[id].payload))
    ensures Retried(original, from, after, succeeded + if after.failed == before.failed then 0 else 1)
  {
    if after.failed == before.failed {
      RetriedNone(original, from, before, after, succeeded);
    } else {
      RetriedOne(original, from, before, after, succeeded, id);
    }
  }

  lemma {:induction false} CopyFromLater(events: seq<EventRow>, from: nat, earlier: nat, req: Request)
    requires earlier <= from && HasCopy(events, from, req)
    ensures HasCopy(events, earlier, req)
  {
    var a: nat, now :| from <= a && CopyAt(events, a, req, now);
    assert earlier <= a && CopyAt(events, a, req, now);
  }
}
