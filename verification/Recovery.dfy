/** From every state the pipeline can reach it can still be worked off: a continuation delivers and
    acknowledges every message, retries every failed batch, and loses nothing that was safe. */
module Recovery {
  import opened Prelude
  import opened Rrweb
  import opened Store
  import opened Pipeline
  import opened NoSilentLoss
  import opened Playback
  import Q = Queue
  import Service
  import W = Worker

  /** No two sessions' batches carry the same token, and no session holds a token that belongs to another
      session's batches. */
  ghost predicate OwnTokens(entries: seq<Request>, t: Tables) {
    && (forall m, n :: 0 <= m < |entries| && 0 <= n < |entries| && entries[m].token == entries[n].token && entries[m].token != "" ==>
          entries[m].sid == entries[n].sid)
    && (forall m, other :: 0 <= m < |entries| && entries[m].token != "" && other in t.sessions && other != entries[m].sid ==>
          t.sessions[other].token != Some(entries[m].token))
  }

  /** Nothing stands in the way of ingesting the batch. */
  ghost predicate Unblocked(t: Tables, req: Request) {
    req.token != "" ==> forall other :: other in t.sessions && other != req.sid ==> t.sessions[other].token != Some(req.token)
  }

  /** An ingest can go through if and only if no other session holds the token of its batch. */
  lemma {:induction false} IngestPossibleIff(t: Tables, req: Request, now: int)
    ensures Ingested(t, req, now, |IngestCalls(req)|).Some? <==> Unblocked(t, req)
  {
    if Unblocked(t, req) {
      UnblockedIngests(t, req, now, |IngestCalls(req)|);
    } else {
      assert IngestCalls(req)[1] == SetToken;
      assert Ingested(t, req, now, 1) == Some(Upserted(t, req, now));
      var other :| other in t.sessions && other != req.sid && t.sessions[other].token == Some(req.token);
      assert Upserted(t, req, now).sessions[other].token == Some(req.token);
      assert Ingested(t, req, now, 2).None?;
      StaysNone(t, req, now, 2, |IngestCalls(req)|);
    }
  }

  lemma {:induction false} StaysNone(t: Tables, req: Request, now: int, j: nat, k: nat)
    requires j <= k <= |IngestCalls(req)| && Ingested(t, req, now, j).None?
    ensures Ingested(t, req, now, k).None?
  {
    if j < k { StaysNone(t, req, now, j, k - 1); }
  }

  lemma {:induction false} UnblockedIngests(t: Tables, req: Request, now: int, k: nat)
    requires k <= |IngestCalls(req)| && Unblocked(t, req)
    ensures Ingested(t, req, now, k).Some?
  {
    if 0 < k {
      UnblockedIngests(t, req, now, k - 1);
      IngestedSoFar(t, req, now, k - 1);
    }
  }

  lemma {:induction false} IngestKeepsOwn(entries: seq<Request>, t: Tables, m: nat, now: int)
    requires OwnTokens(entries, t) && m < |entries| && Ingested(t, entries[m], now, |IngestCalls(entries[m])|).Some?
    ensures OwnTokens(entries, Ingested(t, entries[m], now, |IngestCalls(entries[m])|).value)
  {
    var req, n := entries[m], |IngestCalls(entries[m])|;
    var t' := Ingested(t, req, now, n).value;
    IngestedSoFar(t, req, now, n);
    IngestedIdentity(t, req, now, n);
    assert IngestCalls(req)[..n] == IngestCalls(req);
    forall i, other | 0 <= i < |entries| && entries[i].token != "" && other in t'.sessions && other != entries[i].sid
      ensures t'.sessions[other].token != Some(entries[i].token)
    {
      if other == req.sid && req.token != "" {
        assert entries[m].token != entries[i].token;
      }
    }
  }

  /** A state on the way: nothing the start relied on is gone, and the batches can still be ingested. */
  ghost predicate OnTheWay(start: State, s: State) {
    && Inv(s) && Extends(start, s) && s.queue.entries == start.queue.entries && s.erased == start.erased
    && OwnTokens(s.queue.entries, s.tables)
  }

  // ---------------------------------------------------------------------------------------------
  // One message, one row

  /** A pending message is taken up, ingested and acknowledged. */
  lemma {:induction false} WorkOffOne(s: State, msg: nat) returns (steps: seq<Step>, s': State)
    requires Inv(s) && OwnTokens(s.queue.entries, s.tables) && msg in s.queue.pending
    ensures Run(s, steps) == Some(s') && OnTheWay(s, s')
    ensures s'.queue == Q.Acked(s.queue, msg) && s'.tables.failed == s.tables.failed && Copied(s'.inserts, msg)
  {
    var req, i := s.queue.entries[msg], |s.jobs|;
    var s0 := Next(s, Reclaim(msg)).value;
    assert s0.jobs[i] == NewDelivery(s, msg);
    IngestPossibleIff(s.tables, req, 0);
    var steps0, mid := IngestAll(s0, i);
    NextKeepsInv(s, Reclaim(msg));
    RunKeepsInv(s0, steps0);
    assert JobOk(mid, mid.jobs[i]);
    OnlyItsJobMoves(s0, steps0, i);
    var step := Advance(i, Ok, 0);
    s', steps := Lead(s0, mid, steps0, step);
    NextKeepsInv(mid, step);
    W.StartsWith(s, s0, Reclaim(msg), steps);
    steps := [Reclaim(msg)] + steps;
    IngestedSoFar(s.tables, req, 0, |IngestCalls(req)|);
    IngestKeepsOwn(s.queue.entries, s.tables, msg, 0);
    assert s'.inserts == mid.inserts && s'.erased == mid.erased;
  }

  /** All calls of a fresh delivery, confirmed. */
  lemma {:induction false} IngestAll(s: State, i: nat) returns (steps: seq<Step>, s': State)
    requires i < |s.jobs| && s.jobs[i].Ingest? && s.jobs[i].pc == Ingesting(0, 0) && s.jobs[i].work == Delivery(0)
    requires Ingested(s.tables, s.jobs[i].req, 0, |IngestCalls(s.jobs[i].req)|).Some?
    ensures Run(s, steps) == Some(s') && OnlyAdvances(steps, i) && i < |s'.jobs|
    ensures s'.tables == Ingested(s.tables, s.jobs[i].req, 0, |IngestCalls(s.jobs[i].req)|).value
    ensures s'.jobs[i].Ingest? && s'.jobs[i].pc == Acking
  {
    var outs := seq(|IngestCalls(s.jobs[i].req)|, _ => Ok);
    steps, s' := W.ConfirmedCalls(s, i, 0, outs);
  }

  /** A failed row is retried and resolved. */
  lemma {:induction false} RetryOne(s: State, row: nat) returns (steps: seq<Step>, s': State)
    requires Inv(s) && OwnTokens(s.queue.entries, s.tables) && row < |s.tables.failed|
    ensures Run(s, steps) == Some(s') && OnTheWay(s, s')
    ensures s'.queue == s.queue && s'.tables.failed == s.tables.failed[row := s.tables.failed[row].(resolved := true)]
  {
    var req := s.tables.failed[row].payload;
    var n, outs := |IngestCalls(req)|, seq(|IngestCalls(req)| + 1, _ => Ok);
    IngestPossibleIff(s.tables, req, 0);
    IngestedSoFar(s.tables, req, 0, n);
    IngestKeepsOwn(s.queue.entries, s.tables, s.origins[row], 0);
    var t' := Resolved(Ingested(s.tables, req, 0, n).value, row);
    AllConfirmed(s.tables, row, outs);
    steps, s' := W.RetryIsARun(s, row, 0, outs, t');
    steps := [StartRetry(row)] + steps;
    RunKeepsInv(s, steps);
  }

  lemma {:induction false} AllConfirmed(t: Tables, row: nat, outs: seq<Outcome>)
    requires row < |t.failed| && |outs| == |IngestCalls(t.failed[row].payload)| + 1
    requires forall k :: 0 <= k < |outs| ==> outs[k] == Ok
    requires Ingested(t, t.failed[row].payload, 0, |IngestCalls(t.failed[row].payload)|).Some?
    ensures Service.RetryOutcomes(t.failed[row].payload, [Ok] + outs)
    ensures Service.RetryEffect(t, row, 0, [Ok] + outs) ==
            Some(Resolved(Ingested(t, t.failed[row].payload, 0, |IngestCalls(t.failed[row].payload)|).value, row))
  {
  }

  // ---------------------------------------------------------------------------------------------
  // All of them

  lemma {:induction false} OnTheWayTrans(a: State, b: State, c: State)
    requires OnTheWay(a, b) && OnTheWay(b, c)
    ensures OnTheWay(a, c)
  {
  }

  lemma {:induction false} WorkOffPending(start: State) returns (steps: seq<Step>, s: State)
    requires Inv(start) && OwnTokens(start.queue.entries, start.tables)
    ensures Run(start, steps) == Some(s) && OnTheWay(start, s)
    ensures s.queue == start.queue.(pending := {}) && s.tables.failed == start.tables.failed
    ensures forall m :: m in start.queue.pending ==> Copied(s.inserts, m)
    decreases |start.queue.pending|
  {
    if start.queue.pending == {} {
      steps, s := [], start;
    } else {
      var msg :| msg in start.queue.pending;
      var first, mid := WorkOffOne(start, msg);
      assert mid.queue.pending == start.queue.pending - {msg};
      var rest;
      rest, s := WorkOffPending(mid);
      RunAppend(start, first, rest);
      steps := first + rest;
      OnTheWayTrans(start, mid, s);
      CopiedExtends(mid.inserts, s.inserts, msg);
    }
  }

  lemma {:induction false} RetryRows(start: State) returns (steps: seq<Step>, s: State)
    requires Inv(start) && OwnTokens(start.queue.entries, start.tables)
    ensures Run(start, steps) == Some(s) && OnTheWay(start, s) && s.queue == start.queue
    ensures forall r :: 0 <= r < |s.tables.failed| ==> s.tables.failed[r].resolved
    decreases Service.Unresolved(start.tables.failed)
  {
    if row :| 0 <= row < |start.tables.failed| && !start.tables.failed[row].resolved {
      var first, mid := RetryOne(start, row);
      Service.ResolvingOne(start.tables.failed, row);
      var rest;
      rest, s := RetryRows(mid);
      RunAppend(start, first, rest);
      steps := first + rest;
      OnTheWayTrans(start, mid, s);
    } else {
      steps, s := [], start;
    }
  }

  /** Everything has been delivered and acknowledged, and no failed row is left. */
  ghost predicate WorkedOff(s: State) {
    && s.queue.cursor == |s.queue.entries| && s.queue.pending == {}
    && forall r :: 0 <= r < |s.tables.failed| ==> s.tables.failed[r].resolved
  }

  /** From every reachable state, whatever has failed or crashed and whatever is under way, the system can
      still be worked off: some continuation leaves nothing undelivered, pending or unresolved, erases
      nothing, and every batch that was safe has then been inserted. */
  lemma {:induction false} CanBeWorkedOff(start: State) returns (steps: seq<Step>, s: State)
    requires Inv(start) && OwnTokens(start.queue.entries, start.tables)
    ensures Run(start, steps) == Some(s) && OnTheWay(start, s) && WorkedOff(s)
    ensures forall m :: 0 <= m < |start.queue.entries| && Safe(start, m) ==> Copied(s.inserts, m)
  {
    var read, s1 := Delivered(start);
    var work, s2 := WorkOffPending(s1);
    var retry;
    retry, s := RetryRows(s2);
    RunAppend(start, read, work);
    RunAppend(start, read + work, retry);
    steps := read + work + retry;
    OnTheWayTrans(start, s1, s2);
    OnTheWayTrans(start, s2, s);
    forall m | 0 <= m < |start.queue.entries| && Safe(start, m)
      ensures Copied(s.inserts, m)
    {
      SafeIsInserted(start, s1, s2, s, m);
    }
  }

  lemma {:induction false} SafeIsInserted(start: State, s1: State, s2: State, s: State, m: nat)
    requires OnTheWay(start, s) && Extends(s2, s) && OnTheWay(start, s1) && m < |start.queue.entries| && Safe(start, m)
    requires start.queue.cursor <= m || m in start.queue.pending ==> m in s1.queue.pending
    requires m in s1.queue.pending ==> Copied(s2.inserts, m)
    requires forall r :: 0 <= r < |s.tables.failed| ==> s.tables.failed[r].resolved
    ensures Copied(s.inserts, m)
  {
    CopiedExtends(s2.inserts, s.inserts, m);
    CopiedExtends(start.inserts, s.inserts, m);
    if AwaitsRetry(start, m) {
      var r :| 0 <= r < |start.origins| && r < |start.tables.failed| && start.origins[r] == m && !start.tables.failed[r].resolved;
      assert s.origins[r] == m && s.tables.failed[r].resolved;
    }
  }

  /** All messages delivered, with every answer lost: those that were undelivered are pending now. */
  lemma {:induction false} Delivered(start: State) returns (steps: seq<Step>, s: State)
    requires Inv(start) && OwnTokens(start.queue.entries, start.tables)
    ensures Run(start, steps) == Some(s) && OnTheWay(start, s) && s.tables == start.tables
    ensures s.queue.cursor == |s.queue.entries|
    ensures forall m :: 0 <= m < |start.queue.entries| && (start.queue.cursor <= m || m in start.queue.pending) ==> m in s.queue.pending
    decreases |start.queue.entries| - start.queue.cursor
  {
    if start.queue.cursor == |start.queue.entries| {
      steps, s := [], start;
    } else {
      var mid := Next(start, Read(false)).value;
      NextKeepsInv(start, Read(false));
      var rest;
      rest, s := Delivered(mid);
      W.StartsWith(start, mid, Read(false), rest);
      steps := [Read(false)] + rest;
      OnTheWayTrans(start, mid, s);
    }
  }

  // ---------------------------------------------------------------------------------------------
  // The replay can still be completed

  /** Whatever has gone wrong in a run: if the recordings of a session are stopped, their uploads and no
      others are in the queue, none of them was given up unsaved and the session has not been erased,
      then some continuation makes every answer, repeats removed, the whole emitted sequence. */
  lemma {:induction false} ReplayCanBeCompleted(size: seq<RawEvent> -> nat, recs: seq<Recording>, steps: seq<Step>, sid: Sid)
    returns (more: seq<Step>)
    requires Run(INIT, steps).Some? && sid !in Run(INIT, steps).value.erased
    requires OwnTokens(Run(INIT, steps).value.queue.entries, Run(INIT, steps).value.tables)
    requires Arrived(Run(INIT, steps).value, sid, UploadsOf(size, recs)) && OnlyUploads(Run(INIT, steps).value, sid, UploadsOf(size, recs))
    requires forall m :: 0 <= m < |Run(INIT, steps).value.queue.entries| && Run(INIT, steps).value.queue.entries[m].sid == sid ==>
                           NeverGivenUpUnsaved(INIT, steps, m)
    requires NonDecreasing(LogOf(recs)) && Stamped(LogOf(recs)) && forall i :: 0 <= i < |recs| ==> Stopped(recs[i])
    ensures Run(INIT, steps + more).Some?
    ensures forall out :: IsAnswer(Run(INIT, steps + more).value.tables, sid, out) ==> Once(EventsIn(out)) == Once(LogOf(recs))
  {
    var s := Run(INIT, steps).value;
    RunKeepsInv(INIT, steps);
    var s';
    more, s' := CanBeWorkedOff(s);
    RunAppend(INIT, steps, more);
    forall u | 0 <= u < |UploadsOf(size, recs)|
      ensures IsInserted(s', sid, UploadsOf(size, recs)[u])
    {
      assert HasArrived(s, sid, UploadsOf(size, recs)[u]);
      var m :| MessageFor(s, sid, m, UploadsOf(size, recs)[u]);
      NoBatchIsLost(steps, m);
      assert InsertedAs(s', sid, m, UploadsOf(size, recs)[u]);
    }
    forall out | IsAnswer(s'.tables, sid, out)
      ensures Once(EventsIn(out)) == Once(LogOf(recs))
    {
      EndToEndAfterStop(size, recs, steps + more, sid, out);
    }
  }
}
