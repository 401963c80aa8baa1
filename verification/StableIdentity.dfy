/** The public token and the device metadata of a session, over every run of the pipeline. */
module StableIdentity {
  import opened Prelude
  import opened Store
  import opened Pipeline
  import Q = Queue
  import SessionHandle

  ghost predicate HasToken(s: State, sid: Sid, token: string) {
    sid in s.tables.sessions && s.tables.sessions[sid].token == Some(token)
  }

  /** Every batch of the session enqueued so far carries this token. */
  ghost predicate OneToken(s: State, sid: Sid, token: string) {
    forall m :: 0 <= m < |s.queue.entries| && s.queue.entries[m].sid == sid ==> s.queue.entries[m].token == token
  }

  /** Every batch of the session enqueued so far carries this token or none. */
  ghost predicate NoOtherToken(s: State, sid: Sid, token: string) {
    forall m :: 0 <= m < |s.queue.entries| && s.queue.entries[m].sid == sid ==>
                  s.queue.entries[m].token == "" || s.queue.entries[m].token == token
  }

  /** No `CreateShareToken` call for the session is between its read and its write. */
  ghost predicate Quiet(s: State, sid: Sid) {
    forall i :: 0 <= i < |s.jobs| && s.jobs[i].Sharing? && s.jobs[i].sid == sid ==> s.jobs[i].done
  }

  /** The step is the write of a `CreateShareToken` call that found no token, with another token. */
  ghost predicate StaleShareWrite(s: State, step: Step, sid: Sid, token: string) {
    && step.Advance? && step.outcome != Refused && step.job < |s.jobs|
    && var j := s.jobs[step.job]; j.Sharing? && j.sid == sid && j.token != token
  }

  /** No step of the run erases the session. */
  ghost predicate NeverErases(s: State, steps: seq<Step>, sid: Sid)
    decreases |steps|
  {
    steps != [] ==>
      var front := steps[..|steps| - 1];
      && NeverErases(s, front, sid)
      && (Run(s, front).Some? ==> sid !in ErasedBy(Run(s, front).value, steps[|steps| - 1]))
  }

  /** The step writes the token of a batch of the session, and it is another one. */
  ghost predicate BatchWrite(s: State, step: Step, sid: Sid, token: string) {
    var c := CallBy(s, step);
    c.Some? && c.value.call == SetToken && c.value.req.sid == sid && c.value.req.token != token
  }

  lemma {:induction false} CallKeepsTokenIff(t: Tables, call: Call, req: Request, now: int, sid: Sid, token: string)
    requires call == SetMeta ==> req.client.Some?
    requires Applied(t, call, req, now).Some?
    requires sid in t.sessions && t.sessions[sid].token == Some(token)
    ensures
      var t' := Applied(t, call, req, now).value;
      && sid in t'.sessions
      && (t'.sessions[sid].token == Some(token) <==> !(call == SetToken && req.sid == sid && req.token != token))
  {
  }

  /** Exactly when a step takes a stored token away, whichever token it is and whoever stored it: it erases
      the session, it is the write of a `CreateShareToken` call that had found none, or it is the token
      write of a batch that carries another one. */
  lemma {:induction false} TokenLostIff(s: State, step: Step, sid: Sid, token: string)
    requires Next(s, step).Some? && HasToken(s, sid, token)
    ensures !HasToken(Next(s, step).value, sid, token) <==>
            sid in ErasedBy(s, step) || StaleShareWrite(s, step, sid, token) || BatchWrite(s, step, sid, token)
  {
    if sid in ErasedBy(s, step) {
      ErasureRemoves(s, step, sid);
    } else if CallBy(s, step).Some? {
      var c := CallBy(s, step).value;
      CallTakesEffect(s, step);
      CallKeepsTokenIff(s.tables, c.call, c.req, c.now, sid, token);
    } else {
      OtherwiseKept(s, step, sid);
    }
  }

  /** No new share call gets past its read while a token is stored. */
  lemma {:induction false} QuietKept(s: State, step: Step, sid: Sid, token: string)
    requires Next(s, step).Some? && HasToken(s, sid, token) && token != "" && Quiet(s, sid)
    ensures Quiet(Next(s, step).value, sid)
  {
    var s' := Next(s, step).value;
    forall i | 0 <= i < |s'.jobs| && s'.jobs[i].Sharing? && s'.jobs[i].sid == sid
      ensures s'.jobs[i].done
    {
      var j := s'.jobs[i];
      if i < |s.jobs| {
        assert s.jobs[i].Sharing? && s.jobs[i].sid == sid ==> s.jobs[i].done;
      }
    }
  }

  /** A batch writes the token it carries, so with no other token in the queue none is written. */
  lemma {:induction false} NoBatchWrite(s: State, step: Step, sid: Sid, token: string)
    requires Inv(s) && NoOtherToken(s, sid, token)
    ensures !BatchWrite(s, step, sid, token)
  {
    if step.Advance? && step.job < |s.jobs| && s.jobs[step.job].Ingest? {
      assert JobOk(s, s.jobs[step.job]);
    }
  }

  /** Once a token is stored, be it a batch's or one that `CreateShareToken` generated, while no batch of
      the session carries another and no share call is caught between its read and its write, it
      survives every later batch, attempt, retry, crash and share call in any order, until the session
      is erased. Every later `CreateShareToken` finds it. */
  lemma {:induction false} TokenSurvives(s: State, steps: seq<Step>, sid: Sid, token: string)
    requires Inv(s) && Run(s, steps).Some?
    requires HasToken(s, sid, token) && token != "" && Quiet(s, sid)
    requires NoOtherToken(Run(s, steps).value, sid, token)
    requires NeverErases(s, steps, sid)
    ensures HasToken(Run(s, steps).value, sid, token) && Quiet(Run(s, steps).value, sid)
    ensures !NeedsToken(Run(s, steps).value, sid)
  {
    if steps != [] {
      var front, step := steps[..|steps| - 1], steps[|steps| - 1];
      var mid := Run(s, front).value;
      RunKeepsInv(s, front);
      NextKeepsInv(mid, step);
      assert NoOtherToken(mid, sid, token) by {
        assert mid.queue.entries <= Run(s, steps).value.queue.entries;
      }
      TokenSurvives(s, front, sid, token);
      TokenLostIff(mid, step, sid, token);
      NoBatchWrite(mid, step, sid, token);
      QuietKept(mid, step, sid, token);
    }
  }

  /** The race is real: a share call reads before the batch stores its token and writes after. */
  lemma {:induction false} StaleShareOverwrites(req: Request, generated: string)
    returns (steps: seq<Step>, s: State, step: Step)
    requires req.token != "" && req.token != generated && generated != ""
    ensures Run(INIT, steps) == Some(s) && HasToken(s, req.sid, req.token) && StaleShareWrite(s, step, req.sid, req.token)
    ensures Next(s, step).Some? && HasToken(Next(s, step).value, req.sid, generated)
  {
    s, steps := UpsertedOnce(req);
    s, steps := Lead(INIT, s, steps, StartShare(req.sid, generated));
    assert s.jobs == [Ingest(Delivery(0), 0, req, Ingesting(1, 0), 0), Sharing(req.sid, generated, false)];
    s, steps := Lead(INIT, s, steps, Advance(0, Ok, 0));
    assert s.jobs[1] == Sharing(req.sid, generated, false);
    step := Advance(1, Ok, 0);
  }

  /** And so is the other one: a share call has stored and returned its token when the batch, upserted
      before it, writes its own. */
  lemma {:induction false} BatchOverwrites(req: Request, generated: string)
    returns (steps: seq<Step>, s: State, step: Step)
    requires req.token != "" && req.token != generated && generated != ""
    ensures Run(INIT, steps) == Some(s) && HasToken(s, req.sid, generated) && Quiet(s, req.sid)
    ensures BatchWrite(s, step, req.sid, generated)
    ensures Next(s, step).Some? && HasToken(Next(s, step).value, req.sid, req.token)
  {
    s, steps := UpsertedOnce(req);
    s, steps := Lead(INIT, s, steps, StartShare(req.sid, generated));
    assert s.jobs == [Ingest(Delivery(0), 0, req, Ingesting(1, 0), 0), Sharing(req.sid, generated, false)];
    s, steps := Lead(INIT, s, steps, Advance(1, Ok, 0));
    assert s.jobs == [Ingest(Delivery(0), 0, req, Ingesting(1, 0), 0), Sharing(req.sid, generated, true)];
    step := Advance(0, Ok, 0);
  }

  /** `CreateShareToken` as a run, call by call: it goes on to write exactly when the session is there
      without a token, and the write, unless refused, stores the generated one and nothing else; it can
      only take effect if no other session has that token. */
  lemma {:induction false} ShareIsARun(s: State, sid: Sid, generated: string, o: Outcome)
    requires generated != ""
    ensures Next(s, StartShare(sid, generated)).Some? <==>
            sid in s.tables.sessions && (s.tables.sessions[sid].token == None || s.tables.sessions[sid].token == Some(""))
    ensures Next(s, StartShare(sid, generated)).Some? ==>
              var s1 := Next(s, StartShare(sid, generated)).value;
              var s2 := Next(s1, Advance(|s.jobs|, o, 0));
              && s1.tables == s.tables && s1.queue == s.queue && |s1.jobs| == |s.jobs| + 1 && s1.jobs[..|s.jobs|] == s.jobs
              && (s2.Some? <==> o == Refused || forall other :: other in s.tables.sessions && other != sid ==> s.tables.sessions[other].token != Some(generated))
              && (s2.Some? ==>
                    && s2.value.queue == s.queue && s2.value.tables.events == s.tables.events && s2.value.tables.failed == s.tables.failed
                    && s2.value.tables.sessions ==
                       (if o == Refused then s.tables.sessions else s.tables.sessions[sid := s.tables.sessions[sid].(token := Some(generated))])
                    && Next(s2.value, Advance(|s.jobs|, o, 0)).None?)
  {
  }

  /** A batch with a token whose session has just been upserted for the first time. */
  lemma {:induction false} UpsertedOnce(req: Request) returns (s: State, steps: seq<Step>)
    requires req.token != ""
    ensures Run(INIT, steps) == Some(s) && IngestCalls(req)[1] == SetToken
    ensures s.jobs == [Ingest(Delivery(0), 0, req, Ingesting(1, 0), 0)]
    ensures s.tables.sessions.Keys == {req.sid} && s.tables.sessions[req.sid].token.None?
  {
    s, steps := DeliveredOnce(req);
    s, steps := Lead(INIT, s, steps, Advance(0, Ok, 0));
  }

  lemma {:induction false} DeliveredOnce(req: Request) returns (s: State, steps: seq<Step>)
    ensures Run(INIT, steps) == Some(s) && s.tables == NO_TABLES
    ensures s.jobs == [Ingest(Delivery(0), 0, req, Ingesting(0, 0), 0)]
  {
    s, steps := Lead(INIT, INIT, [], Enqueue(req));
    assert s == INIT.(queue := Q.State([req], 0, {}));
    s, steps := Lead(INIT, s, steps, Read(true));
  }

  // ---------------------------------------------------------------------------------------------
  // One public link, one session

  lemma {:induction false} NextKeepsConstraints(s: State, step: Step)
    requires Constrained(s.tables) && Next(s, step).Some?
    ensures Constrained(Next(s, step).value.tables)
  {
    if CallBy(s, step).Some? {
      var c := CallBy(s, step).value;
      CallTakesEffect(s, step);
      RefusedIff(s.tables, c.call, c.req, c.now);
    } else if step.Erase? {
      ErasedOwned(s.tables, step.sids);
    } else if step.Advance? {
      OtherAdvanceKeeps(s, step.job, step.outcome, step.now);
    }
  }

  lemma {:induction false} OtherAdvanceKeeps(s: State, i: nat, outcome: Outcome, now: int)
    requires Constrained(s.tables) && i < |s.jobs| && AdvanceStep(s, i, outcome, now).Some?
    requires CallBy(s, Advance(i, outcome, now)).None?
    ensures Constrained(AdvanceStep(s, i, outcome, now).value.tables)
  {
    var j := s.jobs[i];
    if j.Sharing? && j.sid in s.tables.sessions {
      TokenSetUnique(s.tables, j.sid, j.token);
    } else if j.Purging? {
      ErasedOwned(s.tables, j.ids);
    }
  }

  /** In every run the constraints of the database hold: every event row has its session, and no two
      sessions share a token. */
  lemma {:induction false} ConstraintsHold(steps: seq<Step>)
    requires Run(INIT, steps).Some?
    ensures Constrained(Run(INIT, steps).value.tables)
  {
    if steps != [] {
      ConstraintsHold(steps[..|steps| - 1]);
      NextKeepsConstraints(Run(INIT, steps[..|steps| - 1]).value, steps[|steps| - 1]);
    }
  }

  /** So in every run a public token leads to at most one session. */
  lemma {:induction false} LinksResolveToOneSession(steps: seq<Step>, a: Sid, b: Sid, token: string)
    requires Run(INIT, steps).Some?
    requires HasToken(Run(INIT, steps).value, a, token) && HasToken(Run(INIT, steps).value, b, token)
    ensures a == b
  {
    ConstraintsHold(steps);
  }

  // ---------------------------------------------------------------------------------------------
  // Device metadata

  ghost predicate HasMeta(s: State, sid: Sid) {
    sid in s.tables.sessions && s.tables.sessions[sid].meta.Some?
  }

  /** Every batch of the session that carries metadata carries this. */
  ghost predicate OneMeta(s: State, sid: Sid, meta: Meta) {
    forall m :: 0 <= m < |s.queue.entries| && s.queue.entries[m].sid == sid && s.queue.entries[m].client.Some? ==>
                  s.queue.entries[m].client.value == meta
  }

  function MetaOf(t: Tables, sid: Sid): Option<Meta> {
    if sid in t.sessions then t.sessions[sid].meta else None
  }

  /** The metadata the step writes to the session's row. */
  function MetaWritten(s: State, step: Step, sid: Sid): Option<Meta> {
    var c := CallBy(s, step);
    if c.Some? && c.value.call == SetMeta && c.value.req.sid == sid && sid in s.tables.sessions then c.value.req.client else None
  }

  /** The metadata last written to the session's row in a run, if any since the row was last erased. */
  function LastMeta(s: State, steps: seq<Step>, sid: Sid): Option<Meta> {
    if steps == [] then MetaOf(s.tables, sid)
    else
      var front, step := steps[..|steps| - 1], steps[|steps| - 1];
      match Run(s, front)
      case None => None
      case Some(mid) =>
        if sid in ErasedBy(mid, step) then None
        else if MetaWritten(mid, step, sid).Some? then MetaWritten(mid, step, sid)
        else LastMeta(s, front, sid)
  }

  lemma {:induction false} CallMovesMeta(t: Tables, call: Call, req: Request, now: int, sid: Sid)
    requires call == SetMeta ==> req.client.Some?
    requires Applied(t, call, req, now).Some?
    ensures
      var t' := Applied(t, call, req, now).value;
      && (sid in t.sessions ==> sid in t'.sessions)
      && MetaOf(t', sid) == if call == SetMeta && req.sid == sid && sid in t.sessions then req.client else MetaOf(t, sid)
  {
  }

  /** What every step does to a session's metadata: an erasure takes it, a metadata write of one of its
      batches replaces it, and nothing else moves it. */
  lemma {:induction false} NextMovesMeta(s: State, step: Step, sid: Sid)
    requires Next(s, step).Some?
    ensures MetaOf(Next(s, step).value.tables, sid) ==
            if sid in ErasedBy(s, step) then None
            else if MetaWritten(s, step, sid).Some? then MetaWritten(s, step, sid)
            else MetaOf(s.tables, sid)
  {
    if sid in ErasedBy(s, step) {
      ErasureRemoves(s, step, sid);
    } else if CallBy(s, step).Some? {
      var c := CallBy(s, step).value;
      CallTakesEffect(s, step);
      CallMovesMeta(s.tables, c.call, c.req, c.now, sid);
    } else {
      OtherwiseKept(s, step, sid);
    }
  }

  /** In every run, the stored metadata is what was written last, whichever batch, attempt or retry it
      came from. */
  lemma {:induction false} MetaIsLastWritten(s: State, steps: seq<Step>, sid: Sid)
    requires Run(s, steps).Some?
    ensures MetaOf(Run(s, steps).value.tables, sid) == LastMeta(s, steps, sid)
  {
    if steps != [] {
      MetaIsLastWritten(s, steps[..|steps| - 1], sid);
      NextMovesMeta(Run(s, steps[..|steps| - 1]).value, steps[|steps| - 1], sid);
    }
  }

  lemma {:induction false} NextKeepsMeta(s: State, step: Step, sid: Sid)
    requires Inv(s) && Next(s, step).Some? && HasMeta(s, sid) && sid !in ErasedBy(s, step)
    ensures HasMeta(Next(s, step).value, sid)
    ensures forall meta :: OneMeta(s, sid, meta) && s.tables.sessions[sid].meta == Some(meta) ==>
                             Next(s, step).value.tables.sessions[sid].meta == Some(meta)
  {
    NextMovesMeta(s, step, sid);
    if CallBy(s, step).Some? {
      assert JobOk(s, s.jobs[step.job]);
      CallTakesEffect(s, step);
    }
  }

  /** Metadata once written is never wiped, whatever batches, attempts and retries follow, and keeps
      its value while the batches that carry metadata agree on it. */
  lemma {:induction false} MetaSurvives(s: State, steps: seq<Step>, sid: Sid, meta: Meta)
    requires Inv(s) && Run(s, steps).Some? && HasMeta(s, sid)
    requires NeverErases(s, steps, sid)
    ensures HasMeta(Run(s, steps).value, sid)
    ensures s.tables.sessions[sid].meta == Some(meta) && OneMeta(Run(s, steps).value, sid, meta) ==>
              Run(s, steps).value.tables.sessions[sid].meta == Some(meta)
  {
    if steps != [] {
      var front, step := steps[..|steps| - 1], steps[|steps| - 1];
      var mid := Run(s, front).value;
      RunKeepsInv(s, front);
      NextKeepsInv(mid, step);
      assert mid.queue.entries <= Run(s, steps).value.queue.entries;
      assert OneMeta(Run(s, steps).value, sid, meta) ==> OneMeta(mid, sid, meta);
      MetaSurvives(s, front, sid, meta);
      NextKeepsMeta(mid, step, sid);
    }
  }

  /** Device metadata is meant to be stored once per session, but each page load sends its own: a run in
      which the second batch of a session replaces the metadata of the first. */
  lemma {:induction false} SecondLoadOverwrites(a: Request, b: Request) returns (steps: seq<Step>, s: State, more: seq<Step>)
    requires a.sid == b.sid && a.client.Some? && b.client.Some?
    ensures Run(INIT, steps) == Some(s) && MetaOf(s.tables, a.sid) == a.client
    ensures Run(s, more).Some? && MetaOf(Run(s, more).value.tables, a.sid) == b.client
  {
    var s0, steps0 := TwoDelivered(a, b);
    var first;
    first, s := IngestsItsMeta(s0, 0);
    RunAppend(INIT, steps0, first);
    steps := steps0 + first;
    var s';
    more, s' := IngestsItsMeta(s, 1);
  }

  /** With no other session about, a delivery that runs alone stores its batch's metadata. */
  lemma {:induction false} IngestsItsMeta(s: State, i: nat) returns (steps: seq<Step>, s': State)
    requires i < |s.jobs| && s.jobs[i].Ingest? && s.jobs[i].pc == Ingesting(0, 0)
    requires s.jobs[i].req.client.Some? && s.tables.sessions.Keys <= {s.jobs[i].req.sid}
    ensures Run(s, steps) == Some(s') && MetaOf(s'.tables, s.jobs[i].req.sid) == s.jobs[i].req.client
    ensures s'.tables.sessions.Keys <= {s.jobs[i].req.sid}
    ensures |s'.jobs| == |s.jobs| && forall n :: 0 <= n < |s.jobs| && n != i ==> s'.jobs[n] == s.jobs[n]
  {
    var req := s.jobs[i].req;
    var n := |IngestCalls(req)|;
    SoleIngested(s.tables, req, 0, n);
    IngestedSoFar(s.tables, req, 0, n);
    IngestedIdentity(s.tables, req, 0, n);
    assert IngestCalls(req)[..n] == IngestCalls(req);
    SoloIngest(s, i, 0, n);
    steps := seq(n, _ => Advance(i, Ok, 0));
    s' := Run(s, steps).value;
    OnlyItsJobMoves(s, steps, i);
  }

  lemma {:induction false} TwoDelivered(a: Request, b: Request) returns (s: State, steps: seq<Step>)
    ensures Run(INIT, steps) == Some(s) && s.tables == NO_TABLES
    ensures s.jobs == [Ingest(Delivery(0), 0, a, Ingesting(0, 0), 0), Ingest(Delivery(0), 1, b, Ingesting(0, 0), 0)]
  {
    s, steps := Lead(INIT, INIT, [], Enqueue(a));
    s, steps := Lead(INIT, s, steps, Enqueue(b));
    assert s == INIT.(queue := Q.State([a, b], 0, {}));
    s, steps := Lead(INIT, s, steps, Read(true));
    assert s == INIT.(queue := Q.State([a, b], 1, {0}), jobs := [Ingest(Delivery(0), 0, a, Ingesting(0, 0), 0)]);
    s, steps := Lead(INIT, s, steps, Read(true));
  }

  // ---------------------------------------------------------------------------------------------
  // Sessions of the browser SDK

  ghost predicate FromHandle(req: Request, h: SessionHandle.Handle, text: nat -> string) {
    req.sid == text(h.id) && req.token == text(h.shareToken)
  }

  /** Every batch of the session was sent with an id and a token handed out together by one browser
      tab's session store, however its storage failed. Batches of other sessions may come from
      anywhere. `text` is how identifiers are written. */
  ghost predicate FromOneTab(s: State, sid: Sid, slot: SessionHandle.Slot, calls: seq<SessionHandle.Call>, text: nat -> string) {
    && SessionHandle.Possible(slot)
    && (forall a, b :: text(a) == text(b) ==> a == b)
    && (forall n :: text(n) != "")
    && forall i :: 0 <= i < |s.queue.entries| && s.queue.entries[i].sid == sid ==>
                     exists c :: 0 <= c < |calls| && FromHandle(s.queue.entries[i], SessionHandle.Run(slot, calls).1[c], text)
  }

  /** Then the batches of the session agree on its token. */
  lemma {:induction false} SdkSessionsHaveOneToken(slot: SessionHandle.Slot, calls: seq<SessionHandle.Call>,
                                                   text: nat -> string, s: State, sid: Sid, m: nat)
    requires FromOneTab(s, sid, slot, calls, text)
    requires m < |s.queue.entries| && s.queue.entries[m].sid == sid
    ensures OneToken(s, sid, s.queue.entries[m].token) && s.queue.entries[m].token != ""
  {
    var hs := SessionHandle.Run(slot, calls).1;
    SessionHandle.RunConsistent(slot, calls);
    var c :| 0 <= c < |calls| && FromHandle(s.queue.entries[m], hs[c], text);
    forall i | 0 <= i < |s.queue.entries| && s.queue.entries[i].sid == sid
      ensures s.queue.entries[i].token == s.queue.entries[m].token
    {
      var d :| 0 <= d < |calls| && FromHandle(s.queue.entries[i], hs[d], text);
      assert hs[c].id == hs[d].id;
    }
  }

  /** For sessions of the SDK: once the token of a batch is stored and no share call is caught between
      its read and its write, it is the stored token after every later run that does not erase the
      session, whatever the tab's storage, the workers and the other visitors do. */
  lemma {:induction false} SdkTokenSurvives(slot: SessionHandle.Slot, calls: seq<SessionHandle.Call>, text: nat -> string,
                                            s: State, steps: seq<Step>, sid: Sid, m: nat)
    requires Inv(s) && Run(s, steps).Some? && NeverErases(s, steps, sid)
    requires FromOneTab(Run(s, steps).value, sid, slot, calls, text)
    requires m < |s.queue.entries| && s.queue.entries[m].sid == sid
    requires HasToken(s, sid, s.queue.entries[m].token) && Quiet(s, sid)
    ensures HasToken(Run(s, steps).value, sid, s.queue.entries[m].token)
  {
    RunKeepsInv(s, steps);
    SdkSessionsHaveOneToken(slot, calls, text, Run(s, steps).value, sid, m);
    TokenSurvives(s, steps, sid, s.queue.entries[m].token);
  }

  /** In every run from the start, the token a session of the SDK shows is its batches' own, unless a
      share call for it got past its read. */
  lemma {:induction false} SdkTokenIsOwn(slot: SessionHandle.Slot, calls: seq<SessionHandle.Call>, text: nat -> string,
                                         steps: seq<Step>, sid: Sid, m: nat)
    requires Run(INIT, steps).Some? && FromOneTab(Run(INIT, steps).value, sid, slot, calls, text)
    requires m < |Run(INIT, steps).value.queue.entries| && Run(INIT, steps).value.queue.entries[m].sid == sid
    requires NoShareFor(Run(INIT, steps).value, sid)
    ensures
      var s := Run(INIT, steps).value;
      sid in s.tables.sessions && s.tables.sessions[sid].token.Some? ==> HasToken(s, sid, s.queue.entries[m].token)
  {
    SdkSessionsHaveOneToken(slot, calls, text, Run(INIT, steps).value, sid, m);
    TokenIsOwn(steps, sid, Run(INIT, steps).value.queue.entries[m].token);
  }

  /** No `CreateShareToken` call for the session has ever found it without a token. */
  ghost predicate NoShareFor(s: State, sid: Sid) {
    forall i :: 0 <= i < |s.jobs| && s.jobs[i].Sharing? ==> s.jobs[i].sid != sid
  }

  ghost predicate OwnTokenOnly(s: State, sid: Sid, token: string) {
    sid in s.tables.sessions && s.tables.sessions[sid].token.Some? ==> s.tables.sessions[sid].token == Some(token)
  }

  lemma {:induction false} TokenIsOwn(steps: seq<Step>, sid: Sid, token: string)
    requires Run(INIT, steps).Some?
    requires OneToken(Run(INIT, steps).value, sid, token) && NoShareFor(Run(INIT, steps).value, sid)
    ensures OwnTokenOnly(Run(INIT, steps).value, sid, token)
  {
    if steps != [] {
      var front, step := steps[..|steps| - 1], steps[|steps| - 1];
      var mid := Run(INIT, front).value;
      RunKeepsInv(INIT, front);
      NextKeepsInv(mid, step);
      JobsStay(mid, step);
      assert OneToken(mid, sid, token) by {
        assert mid.queue.entries <= Run(INIT, steps).value.queue.entries;
      }
      assert NoShareFor(mid, sid) by {
        assert forall i :: 0 <= i < |mid.jobs| && mid.jobs[i].Sharing? ==> Run(INIT, steps).value.jobs[i].Sharing?;
      }
      TokenIsOwn(front, sid, token);
      NextKeepsOwn(mid, step, sid, token);
    }
  }

  lemma {:induction false} JobsStay(s: State, step: Step)
    requires Next(s, step).Some?
    ensures |s.jobs| <= |Next(s, step).value.jobs|
    ensures forall i :: 0 <= i < |s.jobs| && s.jobs[i].Sharing? ==>
                          Next(s, step).value.jobs[i].Sharing? && Next(s, step).value.jobs[i].sid == s.jobs[i].sid
  {
  }

  lemma {:induction false} CallKeepsOwn(t: Tables, call: Call, req: Request, now: int, sid: Sid, token: string)
    requires call == SetMeta ==> req.client.Some?
    requires Applied(t, call, req, now).Some?
    requires sid in t.sessions && t.sessions[sid].token.Some? ==> t.sessions[sid].token == Some(token)
    requires req.sid == sid ==> req.token == token
    ensures
      var t' := Applied(t, call, req, now).value;
      sid in t'.sessions && t'.sessions[sid].token.Some? ==> t'.sessions[sid].token == Some(token)
  {
  }

  lemma {:induction false} NextKeepsOwn(s: State, step: Step, sid: Sid, token: string)
    requires Inv(s) && Next(s, step).Some?
    requires OwnTokenOnly(s, sid, token) && OneToken(s, sid, token) && NoShareFor(s, sid)
    ensures OwnTokenOnly(Next(s, step).value, sid, token)
  {
    if step.Advance? && s.jobs[step.job].Ingest? && s.jobs[step.job].pc.Ingesting? && step.outcome != Refused {
      var j := s.jobs[step.job];
      assert JobOk(s, j);
      CallKeepsOwn(s.tables, IngestCalls(j.req)[j.pc.k], j.req, if j.pc.k == 0 then step.now else j.pc.now, sid, token);
    }
  }
}
