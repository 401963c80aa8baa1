/** The session, event and failed-ingest tables, and the repository calls that one `Ingest` makes on
    them (internal/session/model.go, service.go, repository.go and the migrations). */
module Store {
  import opened Prelude
  import opened Rrweb

  type Sid = string

  /** The columns an upsert writes from the request. */
  datatype Info = Info(batSessionId: string, identifier: string, userEmail: string, userName: string,
                       startUrl: string, environment: string, serviceName: string, trigger: string)

  /** Device metadata; which fields it has and how they are sanitised does not matter here. */
  datatype Meta = Meta(text: string)

  datatype Request = Request(sid: Sid, info: Info, token: string, client: Option<Meta>, events: seq<RawEvent>)

  datatype Session = Session(info: Info, startedAt: int, createdAt: int, endedAt: Option<int>, durationMs: Option<int>,
                             eventCount: int, token: Option<string>, meta: Option<Meta>)

  datatype EventRow = EventRow(sid: Sid, ordinal: nat, event: RawEvent, createdAt: int)

  datatype FailedRow = FailedRow(payload: Request, retries: nat, resolved: bool)

  /** A failed-ingest row's id is its position. */
  datatype Tables = Tables(sessions: map<Sid, Session>, events: seq<EventRow>, failed: seq<FailedRow>)

  const NO_TABLES := Tables(map[], [], [])

  function DefaultStr(s: string, fallback: string): string {
    if s == "" then fallback else s
  }

  function Defaulted(i: Info): Info {
    i.(environment := DefaultStr(i.environment, "production"), trigger := DefaultStr(i.trigger, "manual"))
  }

  // ---------------------------------------------------------------------------------------------
  // The repository calls

  /** Saves every column except the share token and the device metadata: the event count goes back to
      zero and both instants to now. */
  function Upserted(t: Tables, req: Request, now: int): Tables {
    var known := req.sid in t.sessions;
    var row := Session(Defaulted(req.info), now, now, None, None, 0,
                       if known then t.sessions[req.sid].token else None,
                       if known then t.sessions[req.sid].meta else None);
    t.(sessions := t.sessions[req.sid := row])
  }

  /** The unique index on share tokens: no other session has this one, or no row is updated. */
  predicate TokenFree(t: Tables, sid: Sid, token: string) {
    sid in t.sessions ==> forall other :: other in t.sessions && other != sid ==> t.sessions[other].token != Some(token)
  }

  function TokenSet(t: Tables, sid: Sid, token: string): Tables {
    if sid in t.sessions then t.(sessions := t.sessions[sid := t.sessions[sid].(token := Some(token))]) else t
  }

  function MetaSet(t: Tables, sid: Sid, meta: Meta): Tables {
    if sid in t.sessions then t.(sessions := t.sessions[sid := t.sessions[sid].(meta := Some(meta))]) else t
  }

  function RowsOf(req: Request, now: int): (r: seq<EventRow>)
    ensures |r| == |req.events|
    ensures forall i :: 0 <= i < |r| ==> r[i] == EventRow(req.sid, i, req.events[i], now)
  {
    seq(|req.events|, i requires 0 <= i < |req.events| => EventRow(req.sid, i, req.events[i], now))
  }

  function Inserted(t: Tables, req: Request, now: int): Tables {
    t.(events := t.events + RowsOf(req, now))
  }

  function Counted(t: Tables, sid: Sid, delta: int): Tables {
    if sid in t.sessions
    then t.(sessions := t.sessions[sid := t.sessions[sid].(eventCount := t.sessions[sid].eventCount + delta)])
    else t
  }

  /** The sessions whose `started_at`, which every batch rewrites, is before the cutoff. */
  function Expired(t: Tables, cutoff: int): set<Sid> {
    set sid | sid in t.sessions && t.sessions[sid].startedAt < cutoff
  }

  /** Deletes sessions with all their events, in one transaction. */
  function Erased(t: Tables, sids: set<Sid>): Tables {
    t.(sessions := t.sessions - sids, events := Keep(t.events, sids))
  }

  /** The rows whose session is not in `sids`. */
  function Keep(rows: seq<EventRow>, sids: set<Sid>): seq<EventRow> {
    if rows == [] then []
    else
      var front := Keep(rows[..|rows| - 1], sids);
      if rows[|rows| - 1].sid in sids then front else front + [rows[|rows| - 1]]
  }

  function Saved(t: Tables, row: FailedRow): Tables {
    t.(failed := t.failed + [row])
  }

  function Resolved(t: Tables, id: nat): Tables {
    if id < |t.failed| then t.(failed := t.failed[id := t.failed[id].(resolved := true)]) else t
  }

  /** How failed rows may change: none goes away, none changes its payload, none is unresolved again. */
  ghost predicate OnlyResolves(before: seq<FailedRow>, after: seq<FailedRow>) {
    && |before| <= |after|
    && forall r :: 0 <= r < |before| ==>
                     && after[r].payload == before[r].payload && after[r].retries == before[r].retries
                     && (before[r].resolved ==> after[r].resolved)
  }

  /** The rows of one session. */
  function RowsFor(rows: seq<EventRow>, sid: Sid): seq<EventRow> {
    if rows == [] then []
    else
      var front := RowsFor(rows[..|rows| - 1], sid);
      if rows[|rows| - 1].sid == sid then front + [rows[|rows| - 1]] else front
  }

  // ---------------------------------------------------------------------------------------------
  // One ingest as a sequence of calls

  datatype Call = Upsert | SetToken | SetMeta | Insert | AddCount

  /** The calls `Ingest` makes, in order. */
  function IngestCalls(req: Request): (r: seq<Call>)
    ensures 3 <= |r| && r[0] == Upsert && r[|r| - 2] == Insert && r[|r| - 1] == AddCount
    ensures forall k :: 0 < k < |r| - 2 ==> r[k] == SetToken || r[k] == SetMeta
    ensures SetToken in r <==> req.token != ""
    ensures SetMeta in r <==> req.client.Some?
  {
    [Upsert] + (if req.token != "" then [SetToken] else [])
    + (if req.client.Some? then [SetMeta] else []) + [Insert, AddCount]
  }

  /** Each call is made once, the token before the metadata. */
  lemma {:induction false} CallOrder(req: Request, i: nat, j: nat)
    requires i < |IngestCalls(req)| && j < |IngestCalls(req)|
    ensures IngestCalls(req)[i] == IngestCalls(req)[j] ==> i == j
    ensures IngestCalls(req)[i] == SetToken && IngestCalls(req)[j] == SetMeta ==> i < j
  {
  }

  /** The effect of one call, or none if a constraint of the database refuses it: share tokens are
      unique and an event row needs its session. */
  function Applied(t: Tables, call: Call, req: Request, now: int): Option<Tables>
    requires call == SetMeta ==> req.client.Some?
  {
    match call
    case Upsert => Some(Upserted(t, req, now))
    case SetToken => if TokenFree(t, req.sid, req.token) then Some(TokenSet(t, req.sid, req.token)) else None
    case SetMeta => Some(MetaSet(t, req.sid, req.client.value))
    case Insert => if req.sid in t.sessions || req.events == [] then Some(Inserted(t, req, now)) else None
    case AddCount => Some(Counted(t, req.sid, |req.events|))
  }

  /** The tables after the first `k` calls of an ingest took effect. */
  function Ingested(t: Tables, req: Request, now: int, k: nat): Option<Tables>
    requires k <= |IngestCalls(req)|
  {
    if k == 0 then Some(t)
    else
      match Ingested(t, req, now, k - 1)
      case None => None
      case Some(mid) => Applied(mid, IngestCalls(req)[k - 1], req, now)
  }

  /** What an ingest of `n` calls may log: it goes on until a call is not confirmed. */
  predicate IngestOutcomes(n: nat, outs: seq<Outcome>) {
    && 1 <= |outs| <= n
    && (forall i :: 0 <= i < |outs| - 1 ==> outs[i] == Ok)
    && (|outs| < n ==> outs[|outs| - 1] != Ok)
  }

  /** How many of the logged calls took effect. */
  function Effective(outs: seq<Outcome>): (k: nat)
    requires outs != []
    ensures k <= |outs|
  {
    if outs[|outs| - 1] == Refused then |outs| - 1 else |outs|
  }

  // ---------------------------------------------------------------------------------------------
  // What an ingest does and leaves alone

  lemma {:induction false} RowsForAppend(a: seq<EventRow>, b: seq<EventRow>, sid: Sid)
    ensures RowsFor(a + b, sid) == RowsFor(a, sid) + RowsFor(b, sid)
    decreases |b|
  {
    if b == [] {
      assert a + b == a;
    } else {
      RowsForAppend(a, b[..|b| - 1], sid);
      assert (a + b)[..|a + b| - 1] == a + b[..|b| - 1];
    }
  }

  lemma {:induction false} RowsForUniform(rows: seq<EventRow>, owner: Sid, sid: Sid)
    requires forall i :: 0 <= i < |rows| ==> rows[i].sid == owner
    ensures RowsFor(rows, sid) == if owner == sid then rows else []
  {
    if rows != [] {
      RowsForUniform(rows[..|rows| - 1], owner, sid);
      assert rows == rows[..|rows| - 1] + [rows[|rows| - 1]];
    }
  }

  lemma {:induction false} RowsForInserted(t: Tables, req: Request, now: int, sid: Sid)
    ensures RowsFor(Inserted(t, req, now).events, sid) ==
            RowsFor(t.events, sid) + if req.sid == sid then RowsOf(req, now) else []
  {
    RowsForAppend(t.events, RowsOf(req, now), sid);
    RowsForUniform(RowsOf(req, now), req.sid, sid);
  }

  lemma {:induction false} RowsForKept(rows: seq<EventRow>, sids: set<Sid>, sid: Sid)
    ensures RowsFor(Keep(rows, sids), sid) == if sid in sids then [] else RowsFor(rows, sid)
  {
    if rows != [] {
      var front, last := rows[..|rows| - 1], rows[|rows| - 1];
      RowsForKept(front, sids, sid);
      if last.sid !in sids {
        assert (Keep(front, sids) + [last])[..|Keep(front, sids)|] == Keep(front, sids);
      }
    }
  }

  /** The columns of a session's row that an upsert writes, column by column from the batch. */
  ghost predicate ColumnsOf(row: Session, req: Request, now: int) {
    && row.info.batSessionId == req.info.batSessionId && row.info.identifier == req.info.identifier
    && row.info.userEmail == req.info.userEmail && row.info.userName == req.info.userName
    && row.info.startUrl == req.info.startUrl && row.info.serviceName == req.info.serviceName
    && (req.info.environment != "" ==> row.info.environment == req.info.environment)
    && (req.info.environment == "" ==> row.info.environment == "production")
    && (req.info.trigger != "" ==> row.info.trigger == req.info.trigger)
    && (req.info.trigger == "" ==> row.info.trigger == "manual")
    && row.startedAt == now && row.createdAt == now && row.endedAt.None? && row.durationMs.None?
  }

  /** What the first `k` calls of an ingest have done: the row of the session, all the events or none, and
      everything else as before. */
  lemma {:induction false} IngestedSoFar(t: Tables, req: Request, now: int, k: nat)
    requires k <= |IngestCalls(req)| && Ingested(t, req, now, k).Some?
    ensures
      var t', n := Ingested(t, req, now, k).value, |IngestCalls(req)|;
      && t'.failed == t.failed
      && t'.events == (if k < n - 1 then t.events else t.events + RowsOf(req, now))
      && (k == 0 ==> t' == t)
      && (0 < k ==>
            && t'.sessions.Keys == t.sessions.Keys + {req.sid}
            && ColumnsOf(t'.sessions[req.sid], req, now)
            && t'.sessions[req.sid].eventCount == (if k < n then 0 else |req.events|))
      && (forall sid :: sid in t.sessions && sid != req.sid ==> sid in t'.sessions && t'.sessions[sid] == t.sessions[sid])
  {
    if 0 < k {
      IngestedSoFar(t, req, now, k - 1);
    }
  }

  /** What a whole ingest leaves in the row besides: the batch's token and metadata if it carries them, and
      what was there before if not. */
  lemma {:induction false} IngestedIdentity(t: Tables, req: Request, now: int, k: nat)
    requires k <= |IngestCalls(req)| && Ingested(t, req, now, k).Some? && 0 < k
    ensures
      var t', known := Ingested(t, req, now, k).value, req.sid in t.sessions;
      && req.sid in t'.sessions
      && t'.sessions[req.sid].token ==
         (if SetToken in IngestCalls(req)[..k] then Some(req.token) else if known then t.sessions[req.sid].token else None)
      && t'.sessions[req.sid].meta ==
         (if SetMeta in IngestCalls(req)[..k] then req.client else if known then t.sessions[req.sid].meta else None)
  {
    var calls := IngestCalls(req);
    assert calls[..k] == calls[..k - 1] + [calls[k - 1]];
    if 1 < k {
      IngestedIdentity(t, req, now, k - 1);
    }
  }

  // ---------------------------------------------------------------------------------------------
  // The constraints of the database

  ghost predicate TokensUnique(t: Tables) {
    forall a, b :: a in t.sessions && b in t.sessions && a != b && t.sessions[a].token.Some? ==>
                     t.sessions[a].token != t.sessions[b].token
  }

  /** Every event row has its session. */
  ghost predicate RowsOwned(t: Tables) {
    forall i :: 0 <= i < |t.events| ==> t.events[i].sid in t.sessions
  }

  ghost predicate Constrained(t: Tables) {
    TokensUnique(t) && RowsOwned(t)
  }

  /** The tables as a call would leave them if nothing were checked. */
  function Unchecked(t: Tables, call: Call, req: Request, now: int): Tables
    requires call == SetMeta ==> req.client.Some?
  {
    match call
    case Upsert => Upserted(t, req, now)
    case SetToken => TokenSet(t, req.sid, req.token)
    case SetMeta => MetaSet(t, req.sid, req.client.value)
    case Insert => Inserted(t, req, now)
    case AddCount => Counted(t, req.sid, |req.events|)
  }

  /** A call is refused if and only if its effect would break a constraint; otherwise the constraints hold
      after it as they did before. */
  lemma {:induction false} RefusedIff(t: Tables, call: Call, req: Request, now: int)
    requires call == SetMeta ==> req.client.Some?
    requires Constrained(t)
    ensures Applied(t, call, req, now).None? <==> !Constrained(Unchecked(t, call, req, now))
    ensures Applied(t, call, req, now).Some? ==> Applied(t, call, req, now).value == Unchecked(t, call, req, now)
  {
    var t' := Unchecked(t, call, req, now);
    if call == Insert {
      InsertOwned(t, req, now);
    } else if call == SetToken && req.sid in t.sessions {
      TokenSetUnique(t, req.sid, req.token);
    }
  }

  lemma {:induction false} InsertOwned(t: Tables, req: Request, now: int)
    requires RowsOwned(t)
    ensures RowsOwned(Inserted(t, req, now)) <==> req.sid in t.sessions || req.events == []
  {
    var t' := Inserted(t, req, now);
    if req.events != [] {
      assert t'.events[|t.events|] == RowsOf(req, now)[0];
    }
    forall i | 0 <= i < |t'.events|
      ensures t'.events[i].sid in t.sessions || t'.events[i].sid == req.sid
    {
      if |t.events| <= i {
        assert t'.events[i] == RowsOf(req, now)[i - |t.events|];
      }
    }
  }

  lemma {:induction false} TokenSetUnique(t: Tables, sid: Sid, token: string)
    requires TokensUnique(t) && sid in t.sessions
    ensures TokensUnique(TokenSet(t, sid, token)) <==> TokenFree(t, sid, token)
  {
    var t' := TokenSet(t, sid, token);
    forall other | other in t.sessions && other != sid
      ensures TokensUnique(t') ==> t.sessions[other].token != Some(token)
    {
      assert t'.sessions[other] == t.sessions[other] && t'.sessions[sid].token == Some(token);
    }
  }

  lemma {:induction false} ErasedOwned(t: Tables, sids: set<Sid>)
    requires Constrained(t)
    ensures Constrained(Erased(t, sids))
  {
    KeptRows(t.events, sids);
  }

  lemma {:induction false} KeptRows(rows: seq<EventRow>, sids: set<Sid>)
    ensures forall i :: 0 <= i < |Keep(rows, sids)| ==> Keep(rows, sids)[i] in rows && Keep(rows, sids)[i].sid !in sids
  {
    if rows != [] {
      KeptRows(rows[..|rows| - 1], sids);
      assert rows == rows[..|rows| - 1] + [rows[|rows| - 1]];
    }
  }

  /** In tables that hold no other session nothing stands in the way of an ingest. */
  lemma {:induction false} SoleIngested(t: Tables, req: Request, now: int, k: nat)
    requires k <= |IngestCalls(req)| && t.sessions.Keys <= {req.sid}
    ensures Ingested(t, req, now, k).Some?
  {
    if 0 < k {
      SoleIngested(t, req, now, k - 1);
      IngestedSoFar(t, req, now, k - 1);
    }
  }

  /** An ingest run by itself, of which the first `done` calls took effect. */
  datatype Attempt = Attempt(req: Request, now: int, done: nat)
  {
    predicate Complete() { done == |IngestCalls(req)| }
    predicate Stored() { |IngestCalls(req)| - 1 <= done }
  }

  /** The last attempt that reached the session's row. */
  function LastTouch(attempts: seq<Attempt>, sid: Sid): Option<Attempt> {
    if attempts == [] then None
    else
      var last := attempts[|attempts| - 1];
      if last.req.sid == sid && 0 < last.done then Some(last) else LastTouch(attempts[..|attempts| - 1], sid)
  }

  /** The sizes of all batches of the session that got as far as their insert. */
  function TotalSize(attempts: seq<Attempt>, sid: Sid): nat {
    if attempts == [] then 0
    else
      var last := attempts[|attempts| - 1];
      TotalSize(attempts[..|attempts| - 1], sid) + if last.req.sid == sid && last.Stored() then |last.req.events| else 0
  }

  /** Attempts made one after another. */
  function IngestedAll(t: Tables, attempts: seq<Attempt>): Option<Tables> {
    if attempts == [] then Some(t)
    else
      match IngestedAll(t, attempts[..|attempts| - 1])
      case None => None
      case Some(mid) =>
        var last := attempts[|attempts| - 1];
        if last.done <= |IngestCalls(last.req)| then Ingested(mid, last.req, last.now, last.done) else None
  }

  /** Any sequential history, each ingest failing at any point or not at all. A session's
      `event_count` is the size of the last batch alone, or zero if that one failed; `started_at` is
      its instant; the stored events are those of every batch that got as far as its insert. */
  lemma {:induction false} SequentialHistory(t: Tables, attempts: seq<Attempt>, sid: Sid)
    requires IngestedAll(t, attempts).Some?
    ensures
      var t', last := IngestedAll(t, attempts).value, LastTouch(attempts, sid);
      && |RowsFor(t'.events, sid)| == |RowsFor(t.events, sid)| + TotalSize(attempts, sid)
      && (last.Some? ==>
            && sid in t'.sessions
            && t'.sessions[sid].eventCount == (if last.value.Complete() then |last.value.req.events| else 0)
            && t'.sessions[sid].startedAt == last.value.now)
      && (last.None? ==>
            (sid in t'.sessions <==> sid in t.sessions) && (sid in t.sessions ==> t'.sessions[sid] == t.sessions[sid]))
  {
    if attempts != [] {
      var front, last := attempts[..|attempts| - 1], attempts[|attempts| - 1];
      SequentialHistory(t, front, sid);
      var mid := IngestedAll(t, front).value;
      IngestedSoFar(mid, last.req, last.now, last.done);
      RowsForInserted(mid, last.req, last.now, sid);
    }
  }

  /** With no failure at all: the counter is the size of the last batch, the store holds them all. */
  lemma {:induction false} FaultlessHistory(attempts: seq<Attempt>, sid: Sid)
    requires IngestedAll(NO_TABLES, attempts).Some?
    requires forall i :: 0 <= i < |attempts| ==> attempts[i].Complete()
    requires exists i :: 0 <= i < |attempts| && attempts[i].req.sid == sid
    ensures
      var t := IngestedAll(NO_TABLES, attempts).value;
      && LastTouch(attempts, sid).Some? && sid in t.sessions
      && t.sessions[sid].eventCount == |LastTouch(attempts, sid).value.req.events|
      && |RowsFor(t.events, sid)| == TotalSize(attempts, sid)
  {
    SequentialHistory(NO_TABLES, attempts, sid);
    Touched(attempts, sid);
  }

  lemma {:induction false} Touched(attempts: seq<Attempt>, sid: Sid)
    requires forall i :: 0 <= i < |attempts| ==> attempts[i].Complete()
    ensures LastTouch(attempts, sid).Some? ==> LastTouch(attempts, sid).value.Complete()
    ensures (exists i :: 0 <= i < |attempts| && attempts[i].req.sid == sid) ==> LastTouch(attempts, sid).Some?
  {
    if attempts != [] {
      var front, last := attempts[..|attempts| - 1], attempts[|attempts| - 1];
      Touched(front, sid);
      assert last.Complete() && 0 < last.done;
      if last.req.sid != sid {
        if i :| 0 <= i < |attempts| && attempts[i].req.sid == sid {
          assert front[i].req.sid == sid;
        }
      }
    }
  }
}
