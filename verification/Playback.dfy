/** Reading a session's events back (internal/session/repository.go), and what that gives end to end:
    from the recorder's always mode, through any run of the pipeline, to the player. */
module Playback {
  import opened Prelude
  import opened Rrweb
  import opened Store
  import opened Pipeline
  import opened Accounting
  import S = Streaming
  import opened NoSilentLoss

  // ---------------------------------------------------------------------------------------------
  // The query

  /** The query's order: by timestamp, then by the instant of the insert; rows equal in both come in
      any order. */
  predicate Before(a: EventRow, b: EventRow) {
    a.event.timestamp < b.event.timestamp || (a.event.timestamp == b.event.timestamp && a.createdAt <= b.createdAt)
  }

  ghost predicate InOrder(rows: seq<EventRow>) {
    forall i, j :: 0 <= i < j < |rows| ==> Before(rows[i], rows[j])
  }

  /** `out` is an answer `GetEvents` may give for the session. */
  ghost predicate IsAnswer(t: Tables, sid: Sid, out: seq<EventRow>) {
    multiset(out) == multiset(RowsFor(t.events, sid)) && InOrder(out)
  }

  function Placed(rows: seq<EventRow>, row: EventRow): seq<EventRow> {
    if rows == [] || Before(rows[|rows| - 1], row) then rows + [row]
    else Placed(rows[..|rows| - 1], row) + [rows[|rows| - 1]]
  }

  function Sorted(rows: seq<EventRow>): seq<EventRow> {
    if rows == [] then [] else Placed(Sorted(rows[..|rows| - 1]), rows[|rows| - 1])
  }

  lemma {:induction false} PlacedInOrder(rows: seq<EventRow>, row: EventRow)
    requires InOrder(rows)
    ensures InOrder(Placed(rows, row)) && multiset(Placed(rows, row)) == multiset(rows) + multiset{row}
  {
    if rows == [] || Before(rows[|rows| - 1], row) {
    } else {
      var front, last := rows[..|rows| - 1], rows[|rows| - 1];
      PlacedInOrder(front, row);
      assert rows == front + [last];
      var placed := Placed(front, row);
      forall i | 0 <= i < |placed|
        ensures Before(placed[i], last)
      {
        assert placed[i] in multiset(placed);
        assert placed[i] == row || placed[i] in front;
      }
    }
  }

  /** The order of an answer, key by key: later rows have later timestamps, or the same one and were
      inserted no earlier. */
  lemma {:induction false} AnswerOrder(t: Tables, sid: Sid, out: seq<EventRow>, i: nat, j: nat)
    requires IsAnswer(t, sid, out) && i < j < |out|
    ensures out[i].event.timestamp <= out[j].event.timestamp
    ensures out[i].event.timestamp == out[j].event.timestamp ==> out[i].createdAt <= out[j].createdAt
    ensures out[i].sid == sid && out[j].sid == sid
  {
    assert Before(out[i], out[j]);
    OwnRows(t.events, sid);
    InMultiset(out, out[i]);
    InMultiset(out, out[j]);
    InMultiset(RowsFor(t.events, sid), out[i]);
    InMultiset(RowsFor(t.events, sid), out[j]);
  }

  lemma {:induction false} OwnRows(rows: seq<EventRow>, sid: Sid)
    ensures forall r :: r in RowsFor(rows, sid) ==> r.sid == sid
  {
    if rows != [] { OwnRows(rows[..|rows| - 1], sid); }
  }

  /** Some answer exists for every table and session. */
  lemma {:induction false} AnswerExists(t: Tables, sid: Sid)
    ensures IsAnswer(t, sid, Sorted(RowsFor(t.events, sid)))
  {
    SortedInOrder(RowsFor(t.events, sid));
  }

  lemma {:induction false} SortedInOrder(rows: seq<EventRow>)
    ensures InOrder(Sorted(rows)) && multiset(Sorted(rows)) == multiset(rows)
  {
    if rows != [] {
      var front, last := rows[..|rows| - 1], rows[|rows| - 1];
      SortedInOrder(front);
      PlacedInOrder(Sorted(front), last);
      assert rows == front + [last];
    }
  }

  // ---------------------------------------------------------------------------------------------
  // Removing duplicates

  function EventsIn(rows: seq<EventRow>): (r: seq<RawEvent>)
    ensures |r| == |rows|
    ensures forall i :: 0 <= i < |r| ==> r[i] == rows[i].event
  {
    seq(|rows|, i requires 0 <= i < |rows| => rows[i].event)
  }

  /** Every element once, where it first occurs. */
  function Once(s: seq<RawEvent>): seq<RawEvent> {
    if s == [] then []
    else
      var front, last := s[..|s| - 1], s[|s| - 1];
      if last in front then Once(front) else Once(front) + [last]
  }

  /** The elements of `s` that are not in `out`. */
  function Without(s: seq<RawEvent>, out: seq<RawEvent>): seq<RawEvent> {
    if s == [] then []
    else
      var front, last := s[..|s| - 1], s[|s| - 1];
      if last in out then Without(front, out) else Without(front, out) + [last]
  }

  ghost predicate Increasing(s: seq<RawEvent>) {
    forall i, j :: 0 <= i < j < |s| ==> s[i].timestamp < s[j].timestamp
  }

  ghost predicate NonDecreasing(s: seq<RawEvent>) {
    forall i, j :: 0 <= i < j < |s| ==> s[i].timestamp <= s[j].timestamp
  }

  /** Equal timestamps only on equal events. */
  ghost predicate Stamped(s: seq<RawEvent>) {
    forall i, j :: 0 <= i < |s| && 0 <= j < |s| && s[i].timestamp == s[j].timestamp ==> s[i] == s[j]
  }

  ghost predicate SameElements(a: seq<RawEvent>, b: seq<RawEvent>) {
    forall e :: e in a <==> e in b
  }

  lemma {:induction false} OnceIncreasing(s: seq<RawEvent>)
    requires NonDecreasing(s) && Stamped(s)
    ensures Increasing(Once(s)) && SameElements(Once(s), s)
  {
    if s != [] {
      var front, last := s[..|s| - 1], s[|s| - 1];
      OnceIncreasing(front);
      assert s == front + [last];
      if last !in front {
        var u := Once(front);
        forall i | 0 <= i < |u|
          ensures u[i].timestamp < last.timestamp
        {
          assert u[i] in front;
          var k :| 0 <= k < |front| && front[k] == u[i];
          assert s[k] == u[i] && s[|s| - 1] == last;
        }
      }
    }
  }

  lemma {:induction false} WithoutIncreasing(s: seq<RawEvent>, out: seq<RawEvent>)
    requires Increasing(s)
    ensures Increasing(Without(s, out))
    ensures forall e :: e in Without(s, out) <==> e in s && e !in out
  {
    if s != [] {
      var front, last := s[..|s| - 1], s[|s| - 1];
      WithoutIncreasing(front, out);
      assert s == front + [last];
      var w := Without(front, out);
      forall i | 0 <= i < |w|
        ensures w[i].timestamp < last.timestamp
      {
        assert w[i] in front;
        var k :| 0 <= k < |front| && front[k] == w[i];
        assert s[k] == w[i];
      }
    }
  }

  /** A strictly increasing sequence is determined by its elements. */
  lemma {:induction false} IncreasingUnique(a: seq<RawEvent>, b: seq<RawEvent>)
    requires Increasing(a) && Increasing(b) && SameElements(a, b)
    ensures a == b
    decreases |a|
  {
    if b != [] { assert b[0] in a; }
    if a != [] {
      LastsAgree(a, b);
      FrontsAgree(a, b);
      IncreasingUnique(a[..|a| - 1], b[..|b| - 1]);
      assert a == a[..|a| - 1] + [a[|a| - 1]] && b == b[..|b| - 1] + [b[|b| - 1]];
    }
  }

  lemma {:induction false} LastsAgree(a: seq<RawEvent>, b: seq<RawEvent>)
    requires a != [] && Increasing(a) && Increasing(b) && SameElements(a, b)
    ensures b != [] && a[|a| - 1] == b[|b| - 1]
  {
    var x := a[|a| - 1];
    assert x in b;
    var y := b[|b| - 1];
    assert y in a;
    LastIsLargest(a, y);
    LastIsLargest(b, x);
    SameStampSame(b, x, y);
  }

  lemma {:induction false} LastIsLargest(s: seq<RawEvent>, e: RawEvent)
    requires s != [] && Increasing(s) && e in s
    ensures e.timestamp <= s[|s| - 1].timestamp
  {
    var k :| 0 <= k < |s| && s[k] == e;
  }

  lemma {:induction false} FrontsAgree(a: seq<RawEvent>, b: seq<RawEvent>)
    requires a != [] && b != [] && Increasing(a) && Increasing(b) && SameElements(a, b)
    requires a[|a| - 1] == b[|b| - 1]
    ensures SameElements(a[..|a| - 1], b[..|b| - 1])
  {
    var a', b' := a[..|a| - 1], b[..|b| - 1];
    forall e
      ensures e in a' <==> e in b'
    {
      FrontMember(a, e);
      FrontMember(b, e);
    }
  }

  lemma {:induction false} FrontMember(s: seq<RawEvent>, e: RawEvent)
    requires s != [] && Increasing(s)
    ensures e in s[..|s| - 1] <==> e in s && e != s[|s| - 1]
  {
    var front, last := s[..|s| - 1], s[|s| - 1];
    assert s == front + [last];
    if e in front {
      var k :| 0 <= k < |front| && front[k] == e;
      assert s[k] == e && s[k].timestamp < last.timestamp;
    }
  }

  /** Sorting stored copies by timestamp and removing repeats gives back the log, less what is absent:
      for any answer whose events are, up to repeats, those of the log not in `missing`. The log's
      timestamps may repeat, on equal events. */
  lemma {:induction false} AnswerIsLog(out: seq<EventRow>, log: seq<RawEvent>, missing: seq<RawEvent>)
    requires InOrder(out) && NonDecreasing(log) && Stamped(log)
    requires forall e :: e in EventsIn(out) <==> e in log && e !in missing
    ensures Once(EventsIn(out)) == Without(Once(log), missing)
  {
    var evs := EventsIn(out);
    forall i, j | 0 <= i < |evs| && 0 <= j < |evs| && evs[i].timestamp == evs[j].timestamp
      ensures evs[i] == evs[j]
    {
      assert evs[i] in evs && evs[j] in evs;
      StampedSame(log, evs[i], evs[j]);
    }
    OnceIncreasing(evs);
    OnceIncreasing(log);
    WithoutIncreasing(Once(log), missing);
    IncreasingUnique(Once(evs), Without(Once(log), missing));
  }

  lemma {:induction false} StampedSame(log: seq<RawEvent>, a: RawEvent, b: RawEvent)
    requires Stamped(log) && a in log && b in log && a.timestamp == b.timestamp
    ensures a == b
  {
    var i :| 0 <= i < |log| && log[i] == a;
    var j :| 0 <= j < |log| && log[j] == b;
  }

  lemma {:induction false} OnceOfIncreasing(s: seq<RawEvent>)
    requires Increasing(s)
    ensures NonDecreasing(s) && Stamped(s) && Once(s) == s
  {
    forall i, j | 0 <= i < |s| && 0 <= j < |s| && s[i].timestamp == s[j].timestamp
      ensures s[i] == s[j]
    {
      SameStampSame(s, s[i], s[j]);
    }
    OnceIncreasing(s);
    IncreasingUnique(Once(s), s);
  }

  lemma {:induction false} SameStampSame(log: seq<RawEvent>, a: RawEvent, b: RawEvent)
    requires Increasing(log) && a in log && b in log && a.timestamp == b.timestamp
    ensures a == b
  {
    var i :| 0 <= i < |log| && log[i] == a;
    var j :| 0 <= j < |log| && log[j] == b;
    assert i < j ==> log[i].timestamp < log[j].timestamp;
    assert j < i ==> log[j].timestamp < log[i].timestamp;
  }

  // ---------------------------------------------------------------------------------------------
  // Ties

  ghost predicate SameKey(a: EventRow, b: EventRow) {
    a.event.timestamp == b.event.timestamp && a.createdAt == b.createdAt
  }

  /** Rows the query cannot tell apart carry equal events. */
  ghost predicate KeyDecides(rows: seq<EventRow>) {
    forall a, b :: a in rows && b in rows && SameKey(a, b) ==> a.event == b.event
  }

  lemma {:induction false} InMultiset(s: seq<EventRow>, x: EventRow)
    ensures x in s <==> x in multiset(s)
  {
  }

  /** From an occurrence of the largest row on, an ordered answer holds only events equal to its own. */
  lemma {:induction false} TailIsTied(out: seq<EventRow>, out': seq<EventRow>, p: nat, q: nat)
    requires out != [] && InOrder(out) && InOrder(out') && multiset(out) == multiset(out') && KeyDecides(out)
    requires p <= q < |out'| && out'[p] == out[|out| - 1]
    ensures out'[q].event == out'[p].event
  {
    var x, y := out'[p], out'[q];
    InMultiset(out', y);
    InMultiset(out, y);
    var k :| 0 <= k < |out| && out[k] == y;
    assert k < |out| - 1 ==> Before(y, x);
    assert p < q ==> Before(x, y);
    assert x in out && y in out;
    assert SameKey(x, y);
  }

  function Removed(s: seq<EventRow>, p: nat): (r: seq<EventRow>)
    requires p < |s|
    ensures |r| == |s| - 1
    ensures forall q :: 0 <= q < |r| ==> r[q] == if q < p then s[q] else s[q + 1]
  {
    s[..p] + s[p + 1..]
  }

  lemma {:induction false} RemovedMultiset(s: seq<EventRow>, p: nat)
    requires p < |s|
    ensures multiset(Removed(s, p)) == multiset(s) - multiset{s[p]}
  {
    assert s == s[..p] + [s[p]] + s[p + 1..];
    assert multiset(s) == multiset(s[..p]) + multiset{s[p]} + multiset(s[p + 1..]);
  }

  lemma {:induction false} RemovedInOrder(s: seq<EventRow>, p: nat)
    requires p < |s| && InOrder(s)
    ensures InOrder(Removed(s, p))
  {
  }

  /** Taking the largest row out of an answer shortens its events by their last. */
  lemma {:induction false} RemovedEvents(out: seq<EventRow>, out': seq<EventRow>, p: nat)
    requires out != [] && InOrder(out) && InOrder(out') && multiset(out) == multiset(out') && KeyDecides(out)
    requires p < |out'| && out'[p] == out[|out| - 1]
    ensures EventsIn(out') == EventsIn(Removed(out', p)) + [out'[p].event]
  {
    var shorter := EventsIn(Removed(out', p)) + [out'[p].event];
    forall q | 0 <= q < |out'|
      ensures EventsIn(out')[q] == shorter[q]
    {
      if p <= q {
        TailIsTied(out, out', p, q);
        if q + 1 < |out'| { TailIsTied(out, out', p, q + 1); }
      }
    }
  }

  lemma {:induction false} AnswersAgree(out: seq<EventRow>, out': seq<EventRow>)
    requires InOrder(out) && InOrder(out') && multiset(out) == multiset(out') && KeyDecides(out)
    ensures EventsIn(out) == EventsIn(out')
    decreases |out|
  {
    assert |out| == |multiset(out)| == |multiset(out')| == |out'|;
    if out != [] {
      var n := |out| - 1;
      InMultiset(out, out[n]);
      InMultiset(out', out[n]);
      var p :| 0 <= p < |out'| && out'[p] == out[n];
      RemovedMultiset(out, n);
      RemovedMultiset(out', p);
      RemovedInOrder(out, n);
      RemovedInOrder(out', p);
      PermutedSubset(out, n);
      AnswersAgree(Removed(out, n), Removed(out', p));
      RemovedEvents(out, out', p);
      RemovedEvents(out, out, n);
    }
  }

  lemma {:induction false} PermutedSubset(out: seq<EventRow>, p: nat)
    requires p < |out| && KeyDecides(out)
    ensures KeyDecides(Removed(out, p))
  {
    assert forall x :: x in Removed(out, p) ==> x in out;
  }

  /** Exchanging two rows the query cannot tell apart gives another answer. */
  lemma {:induction false} TiesSwap(out: seq<EventRow>, i: nat, j: nat)
    requires InOrder(out) && i < |out| && j < |out| && i != j && SameKey(out[i], out[j])
    ensures InOrder(out[i := out[j]][j := out[i]]) && multiset(out[i := out[j]][j := out[i]]) == multiset(out)
  {
    var out' := out[i := out[j]][j := out[i]];
    forall m, n | 0 <= m < n < |out|
      ensures Before(out'[m], out'[n])
    {
      assert Before(out[m], out[n]);
      assert SameKey(out[m], out'[m]) && SameKey(out[n], out'[n]);
    }
  }

  /** For every table: all answers to the query show the same sequence of events if and only if rows
      equal in timestamp and insert instant carry equal events. */
  lemma {:induction false} AnswersAgreeIff(t: Tables, sid: Sid)
    ensures
      (forall out, out' :: IsAnswer(t, sid, out) && IsAnswer(t, sid, out') ==> EventsIn(out) == EventsIn(out'))
      <==> KeyDecides(RowsFor(t.events, sid))
  {
    if KeyDecides(RowsFor(t.events, sid)) {
      forall a, b | IsAnswer(t, sid, a) && IsAnswer(t, sid, b)
        ensures EventsIn(a) == EventsIn(b)
      {
        PermutedDecides(RowsFor(t.events, sid), a);
        AnswersAgree(a, b);
      }
    } else {
      var out, out' := AnswersDiffer(t, sid);
      assert IsAnswer(t, sid, out) && IsAnswer(t, sid, out');
    }
  }

  lemma {:induction false} AnswersDiffer(t: Tables, sid: Sid) returns (out: seq<EventRow>, out': seq<EventRow>)
    requires !KeyDecides(RowsFor(t.events, sid))
    ensures IsAnswer(t, sid, out) && IsAnswer(t, sid, out') && EventsIn(out) != EventsIn(out')
  {
    var rows := RowsFor(t.events, sid);
    out := Sorted(rows);
    AnswerExists(t, sid);
    var a, b :| a in rows && b in rows && SameKey(a, b) && a.event != b.event;
    InMultiset(rows, a);
    InMultiset(rows, b);
    InMultiset(out, a);
    InMultiset(out, b);
    var i :| 0 <= i < |out| && out[i] == a;
    var j :| 0 <= j < |out| && out[j] == b;
    TiesSwap(out, i, j);
    out' := out[i := out[j]][j := out[i]];
    assert EventsIn(out)[i] != EventsIn(out')[i];
  }

  /** Such tables are reached: by any batch with two different events of the same millisecond. */
  lemma {:induction false} TiesHappen(req: Request, i: nat, j: nat)
    returns (steps: seq<Step>, s: State, out: seq<EventRow>, out': seq<EventRow>)
    requires i < |req.events| && j < |req.events|
    requires req.events[i] != req.events[j] && req.events[i].timestamp == req.events[j].timestamp
    ensures Run(INIT, steps) == Some(s) && IsAnswer(s.tables, req.sid, out) && IsAnswer(s.tables, req.sid, out')
    ensures EventsIn(out) != EventsIn(out')
  {
    s, steps := IngestedAlone(req);
    var rows := RowsFor(s.tables.events, req.sid);
    assert rows[i] in rows && rows[j] in rows && SameKey(rows[i], rows[j]);
    out, out' := AnswersDiffer(s.tables, req.sid);
  }

  /** A run from the start that ingests one batch and nothing else. */
  lemma {:induction false} IngestedAlone(req: Request) returns (s: State, steps: seq<Step>)
    ensures Run(INIT, steps) == Some(s) && RowsFor(s.tables.events, req.sid) == RowsOf(req, 0)
  {
    var s0, steps0 := Lead(INIT, INIT, [], Enqueue(req));
    s0, steps0 := Lead(INIT, s0, steps0, Read(true));
    assert s0.jobs == [Ingest(Delivery(0), 0, req, Ingesting(0, 0), 0)] && s0.tables == NO_TABLES;
    var n := |IngestCalls(req)|;
    SoleIngested(NO_TABLES, req, 0, n);
    IngestedSoFar(NO_TABLES, req, 0, n);
    SoloIngest(s0, 0, 0, n);
    var calls := seq(n, _ => Advance(0, Ok, 0));
    RunAppend(INIT, steps0, calls);
    steps, s := steps0 + calls, Run(s0, calls).value;
    assert NO_TABLES.events + RowsOf(req, 0) == RowsOf(req, 0);
    RowsForUniform(RowsOf(req, 0), req.sid, req.sid);
  }

  lemma {:induction false} PermutedDecides(rows: seq<EventRow>, out: seq<EventRow>)
    requires KeyDecides(rows) && multiset(out) == multiset(rows)
    ensures KeyDecides(out)
  {
    forall a, b | a in out && b in out && SameKey(a, b)
      ensures a.event == b.event
    {
      InMultiset(out, a);
      InMultiset(out, b);
      InMultiset(rows, a);
      InMultiset(rows, b);
    }
  }

  // ---------------------------------------------------------------------------------------------
  // What is stored

  lemma {:induction false} MemberOfRows(rows: seq<EventRow>, e: RawEvent)
    ensures e in EventsIn(rows) <==> exists r :: r in rows && r.event == e
  {
    if e in EventsIn(rows) {
      var i :| 0 <= i < |rows| && EventsIn(rows)[i] == e;
      assert rows[i] in rows && rows[i].event == e;
    }
    if exists r :: r in rows && r.event == e {
      var r :| r in rows && r.event == e;
      var i :| 0 <= i < |rows| && rows[i] == r;
      assert EventsIn(rows)[i] == e;
    }
  }

  lemma {:induction false} MemberOfPermuted(a: seq<EventRow>, b: seq<EventRow>, e: RawEvent)
    requires multiset(a) == multiset(b)
    ensures e in EventsIn(a) <==> e in EventsIn(b)
  {
    MemberOfRows(a, e);
    MemberOfRows(b, e);
    assert forall r :: r in a <==> r in multiset(a);
    assert forall r :: r in b <==> r in multiset(b);
  }

  lemma {:induction false} MemberOfAppended(a: seq<EventRow>, b: seq<EventRow>, e: RawEvent)
    ensures e in EventsIn(a + b) <==> e in EventsIn(a) || e in EventsIn(b)
  {
    assert EventsIn(a + b) == EventsIn(a) + EventsIn(b);
  }

  lemma {:induction false} EventsOfBatch(req: Request, now: int)
    ensures EventsIn(RowsOf(req, now)) == req.events
  {
  }

  /** An insert of the session that brought the event. */
  ghost predicate Brought(x: InsertRecord, sid: Sid, e: RawEvent) {
    x.req.sid == sid && e in x.req.events
  }

  lemma {:induction false} MemberOfInserts(inserts: seq<InsertRecord>, sid: Sid, e: RawEvent)
    ensures e in EventsIn(RowsFor(AllRows(inserts), sid)) <==>
            exists j :: 0 <= j < |inserts| && Brought(inserts[j], sid, e)
  {
    if inserts != [] {
      var front, x := inserts[..|inserts| - 1], inserts[|inserts| - 1];
      assert inserts == front + [x];
      MemberOfInserts(front, sid, e);
      RowsForAllSnoc(front, x, sid);
      var added := if x.req.sid == sid then RowsOf(x.req, x.now) else [];
      MemberOfAppended(RowsFor(AllRows(front), sid), added, e);
      EventsOfBatch(x.req, x.now);
      assert e in EventsIn(added) <==> Brought(x, sid, e);
      if exists j :: 0 <= j < |front| && Brought(front[j], sid, e) {
        var j :| 0 <= j < |front| && Brought(front[j], sid, e);
        assert Brought(inserts[j], sid, e);
      }
      if exists j :: 0 <= j < |inserts| && Brought(inserts[j], sid, e) {
        var j :| 0 <= j < |inserts| && Brought(inserts[j], sid, e);
        assert j < |front| ==> Brought(front[j], sid, e);
      }
    }
  }

  // ---------------------------------------------------------------------------------------------
  // End to end

  lemma {:induction false} MemberOfFlattened(ss: seq<seq<RawEvent>>, e: RawEvent)
    ensures e in Flatten(ss) <==> exists u :: 0 <= u < |ss| && e in ss[u]
  {
    if ss != [] {
      MemberOfFlattened(ss[1..], e);
      if exists u :: 0 <= u < |ss| && e in ss[u] {
        var u :| 0 <= u < |ss| && e in ss[u];
        assert 0 < u ==> ss[1..][u - 1] == ss[u];
      }
      if exists u :: 0 <= u < |ss[1..]| && e in ss[1..][u] {
        var u :| 0 <= u < |ss[1..]| && e in ss[1..][u];
        assert ss[u + 1] == ss[1..][u];
      }
    }
  }

  /** One recording of the always mode: its flush threshold and its operations. A session may span
      several, one per page load within its time to live. */
  datatype Recording = Recording(limit: int, ops: seq<S.Op>)

  /** Everything the recordings emitted, in order. */
  function LogOf(recs: seq<Recording>): seq<RawEvent> {
    if recs == [] then [] else LogOf(recs[..|recs| - 1]) + S.Emitted(recs[|recs| - 1].ops)
  }

  /** All their uploads. */
  function UploadsOf(size: seq<RawEvent> -> nat, recs: seq<Recording>): seq<seq<RawEvent>> {
    if recs == [] then []
    else UploadsOf(size, recs[..|recs| - 1]) + S.Run(size, recs[|recs| - 1].limit, recs[|recs| - 1].ops).uploads
  }

  /** What their buffers still hold. */
  function PendingOf(size: seq<RawEvent> -> nat, recs: seq<Recording>): seq<RawEvent> {
    if recs == [] then []
    else PendingOf(size, recs[..|recs| - 1]) + S.Run(size, recs[|recs| - 1].limit, recs[|recs| - 1].ops).pending
  }

  /** Uploads and buffers together are the log, with multiplicities. */
  lemma {:induction false} RecordingsConserve(size: seq<RawEvent> -> nat, recs: seq<Recording>)
    ensures multiset(Flatten(UploadsOf(size, recs))) + multiset(PendingOf(size, recs)) == multiset(LogOf(recs))
  {
    if recs != [] {
      var front, last := recs[..|recs| - 1], recs[|recs| - 1];
      RecordingsConserve(size, front);
      var st := S.Run(size, last.limit, last.ops);
      S.Conservation(size, last.limit, last.ops);
      S.ArrangedPermutes(S.Emitted(last.ops), S.SnapshotCut(size, last.limit, last.ops));
      FlattenAppend(UploadsOf(size, front), st.uploads);
      assert multiset(Flatten(st.uploads)) + multiset(st.pending) == multiset(S.Emitted(last.ops));
    }
  }

  /** Of `s`, the events all of whose occurrences in the log are still in a buffer. */
  function Held(s: seq<RawEvent>, log: seq<RawEvent>, pending: seq<RawEvent>): seq<RawEvent> {
    if s == [] then []
    else
      var front, last := Held(s[..|s| - 1], log, pending), s[|s| - 1];
      if multiset(log)[last] <= multiset(pending)[last] then front + [last] else front
  }

  /** The events of the log that no upload carries. */
  function Unsent(size: seq<RawEvent> -> nat, recs: seq<Recording>): seq<RawEvent> {
    Held(PendingOf(size, recs), LogOf(recs), PendingOf(size, recs))
  }

  lemma {:induction false} HeldMember(s: seq<RawEvent>, log: seq<RawEvent>, pending: seq<RawEvent>, e: RawEvent)
    ensures e in Held(s, log, pending) <==> e in s && multiset(log)[e] <= multiset(pending)[e]
  {
    if s != [] {
      HeldMember(s[..|s| - 1], log, pending, e);
      assert s == s[..|s| - 1] + [s[|s| - 1]];
    }
  }

  /** An event was uploaded if and only if it was emitted and is not unsent. */
  lemma {:induction false} UploadedOrUnsent(size: seq<RawEvent> -> nat, recs: seq<Recording>, e: RawEvent)
    ensures e in Flatten(UploadsOf(size, recs)) <==> e in LogOf(recs) && e !in Unsent(size, recs)
  {
    var up, pending, log := Flatten(UploadsOf(size, recs)), PendingOf(size, recs), LogOf(recs);
    RecordingsConserve(size, recs);
    HeldMember(pending, log, pending, e);
    assert multiset(up)[e] + multiset(pending)[e] == multiset(log)[e];
    assert e in up <==> 0 < multiset(up)[e];
    assert e in pending <==> 0 < multiset(pending)[e];
    assert e in log <==> 0 < multiset(log)[e];
  }

  lemma {:induction false} AtMostOnce(s: seq<RawEvent>, e: RawEvent)
    requires Increasing(s)
    ensures multiset(s)[e] <= 1
  {
    if s != [] {
      var front, last := s[..|s| - 1], s[|s| - 1];
      assert s == front + [last];
      AtMostOnce(front, e);
      FrontMember(s, e);
      assert e in front <==> 0 < multiset(front)[e];
    }
  }

  /** Every batch the session's messages carry is one of the recorder's uploads. */
  ghost predicate OnlyUploads(s: State, sid: Sid, uploads: seq<seq<RawEvent>>) {
    forall m :: 0 <= m < |s.queue.entries| && s.queue.entries[m].sid == sid ==> s.queue.entries[m].events in uploads
  }

  /** Every upload has arrived as a message of the session that was inserted at least once. */
  ghost predicate AllInserted(s: State, sid: Sid, uploads: seq<seq<RawEvent>>) {
    forall u :: 0 <= u < |uploads| ==> IsInserted(s, sid, uploads[u])
  }

  ghost predicate IsInserted(s: State, sid: Sid, events: seq<RawEvent>) {
    exists m :: InsertedAs(s, sid, m, events)
  }

  ghost predicate InsertedAs(s: State, sid: Sid, m: nat, events: seq<RawEvent>) {
    m < |s.queue.entries| && s.queue.entries[m].sid == sid && s.queue.entries[m].events == events && Copied(s.inserts, m)
  }

  lemma {:induction false} StoredWasUploaded(s: State, sid: Sid, uploads: seq<seq<RawEvent>>, e: RawEvent, j: nat)
    requires InsertsOk(s) && OnlyUploads(s, sid, uploads)
    requires j < |s.inserts| && Brought(s.inserts[j], sid, e)
    ensures e in Flatten(uploads)
  {
    var m := s.inserts[j].msg;
    assert s.queue.entries[m].sid == sid;
    var u :| 0 <= u < |uploads| && uploads[u] == s.queue.entries[m].events;
    MemberOfFlattened(uploads, e);
    assert e in uploads[u];
  }

  lemma {:induction false} UploadIsStored(s: State, sid: Sid, uploads: seq<seq<RawEvent>>, e: RawEvent)
    requires InsertsOk(s) && AllInserted(s, sid, uploads) && e in Flatten(uploads)
    ensures exists j :: 0 <= j < |s.inserts| && Brought(s.inserts[j], sid, e)
  {
    MemberOfFlattened(uploads, e);
    var u :| 0 <= u < |uploads| && e in uploads[u];
    assert IsInserted(s, sid, uploads[u]);
    var m :| InsertedAs(s, sid, m, uploads[u]);
    var j :| 0 <= j < |s.inserts| && s.inserts[j].msg == m;
    assert Brought(s.inserts[j], sid, e);
  }

  lemma {:induction false} StoredIsUploaded(s: State, sid: Sid, uploads: seq<seq<RawEvent>>, e: RawEvent)
    requires InsertsOk(s) && OnlyUploads(s, sid, uploads) && AllInserted(s, sid, uploads)
    ensures (exists j :: 0 <= j < |s.inserts| && Brought(s.inserts[j], sid, e)) <==> e in Flatten(uploads)
  {
    if exists j :: 0 <= j < |s.inserts| && Brought(s.inserts[j], sid, e) {
      var j :| 0 <= j < |s.inserts| && Brought(s.inserts[j], sid, e);
      StoredWasUploaded(s, sid, uploads, e, j);
    }
    if e in Flatten(uploads) {
      UploadIsStored(s, sid, uploads, e);
    }
  }

  /** The uploads have reached the queue, in any order and any number of times, and some run of the
      pipeline has ingested them, repeatedly, concurrently and with failures, until each has been
      inserted at least once; `out` is an answer to the event query then. */
  ghost predicate Answers(uploads: seq<seq<RawEvent>>, steps: seq<Step>, sid: Sid, out: seq<EventRow>) {
    && Run(INIT, steps).Some?
    && var s := Run(INIT, steps).value;
       && sid !in s.erased
       && OnlyUploads(s, sid, uploads) && AllInserted(s, sid, uploads)
       && IsAnswer(s.tables, sid, out)
  }

  /** An answer shows exactly the uploaded events, by timestamp. */
  lemma {:induction false} AnswerHoldsUploads(uploads: seq<seq<RawEvent>>, steps: seq<Step>, sid: Sid, out: seq<EventRow>)
    requires Answers(uploads, steps, sid, out)
    ensures NonDecreasing(EventsIn(out))
    ensures forall e :: e in EventsIn(out) <==> e in Flatten(uploads)
  {
    var s := Run(INIT, steps).value;
    RunKeepsInv(INIT, steps);
    TableHoldsCompleteCopies(steps, sid);
    forall e
      ensures e in EventsIn(out) <==> e in Flatten(uploads)
    {
      MemberOfPermuted(out, RowsFor(s.tables.events, sid), e);
      MemberOfInserts(s.inserts, sid, e);
      StoredIsUploaded(s, sid, uploads, e);
    }
  }

  /** Everything has been delivered and acknowledged, no failed row is left to retry, and no batch of the
      session was given up unsaved on the way. */
  ghost predicate DrainedFor(steps: seq<Step>, sid: Sid) {
    && Run(INIT, steps).Some?
    && var s := Run(INIT, steps).value;
       && s.queue.cursor == |s.queue.entries| && s.queue.pending == {}
       && (forall r :: 0 <= r < |s.tables.failed| ==> s.tables.failed[r].resolved)
       && (forall m :: 0 <= m < |s.queue.entries| && s.queue.entries[m].sid == sid ==> NeverGivenUpUnsaved(INIT, steps, m))
  }

  /** Every upload has reached the queue as a message of the session. */
  ghost predicate Arrived(s: State, sid: Sid, uploads: seq<seq<RawEvent>>) {
    forall u :: 0 <= u < |uploads| ==> HasArrived(s, sid, uploads[u])
  }

  ghost predicate HasArrived(s: State, sid: Sid, events: seq<RawEvent>) {
    exists m :: MessageFor(s, sid, m, events)
  }

  ghost predicate MessageFor(s: State, sid: Sid, m: nat, events: seq<RawEvent>) {
    m < |s.queue.entries| && s.queue.entries[m].sid == sid && s.queue.entries[m].events == events
  }

  /** In a drained system every arrived upload has been inserted. */
  lemma {:induction false} DrainedIsInserted(steps: seq<Step>, sid: Sid, uploads: seq<seq<RawEvent>>)
    requires DrainedFor(steps, sid) && Arrived(Run(INIT, steps).value, sid, uploads)
    ensures AllInserted(Run(INIT, steps).value, sid, uploads)
  {
    var s := Run(INIT, steps).value;
    forall u | 0 <= u < |uploads|
      ensures IsInserted(s, sid, uploads[u])
    {
      assert HasArrived(s, sid, uploads[u]);
      var m :| MessageFor(s, sid, m, uploads[u]);
      NoBatchIsLost(steps, m);
      assert Copied(s.inserts, m);
      assert InsertedAs(s, sid, m, uploads[u]);
    }
  }

  ghost predicate Replayed(size: seq<RawEvent> -> nat, recs: seq<Recording>, steps: seq<Step>, sid: Sid, out: seq<EventRow>) {
    Answers(UploadsOf(size, recs), steps, sid, out)
  }

  /** End to end, whatever the timestamps: the answer is ordered by them and shows exactly the events
      that were emitted and are not unsent. */
  lemma {:induction false} EndToEndEvents(size: seq<RawEvent> -> nat, recs: seq<Recording>, steps: seq<Step>, sid: Sid, out: seq<EventRow>)
    requires Replayed(size, recs, steps, sid, out)
    ensures NonDecreasing(EventsIn(out))
    ensures forall e :: e in EventsIn(out) <==> e in LogOf(recs) && e !in Unsent(size, recs)
  {
    AnswerHoldsUploads(UploadsOf(size, recs), steps, sid, out);
    forall e
      ensures e in EventsIn(out) <==> e in LogOf(recs) && e !in Unsent(size, recs)
    {
      UploadedOrUnsent(size, recs, e);
    }
  }

  /** End to end, in order. The recordings of a session emit events with timestamps that never go back
      and agree only on equal events, and cut them into uploads however their buffers and flushes fall.
      Then any answer, repeats removed, is the emitted sequence, repeats removed, without what is
      unsent. */
  lemma {:induction false} EndToEnd(size: seq<RawEvent> -> nat, recs: seq<Recording>, steps: seq<Step>, sid: Sid, out: seq<EventRow>)
    requires Replayed(size, recs, steps, sid, out)
    requires NonDecreasing(LogOf(recs)) && Stamped(LogOf(recs))
    ensures Once(EventsIn(out)) == Without(Once(LogOf(recs)), Unsent(size, recs))
  {
    EndToEndEvents(size, recs, steps, sid, out);
    AnswerIsLog(out, LogOf(recs), Unsent(size, recs));
  }

  /** With increasing timestamps there are no repeats: the answer is the emitted sequence minus what the
      buffers still hold. */
  lemma {:induction false} EndToEndIncreasing(size: seq<RawEvent> -> nat, recs: seq<Recording>, steps: seq<Step>, sid: Sid, out: seq<EventRow>)
    requires Replayed(size, recs, steps, sid, out) && Increasing(LogOf(recs))
    ensures Once(EventsIn(out)) == Without(LogOf(recs), PendingOf(size, recs))
  {
    var log, pending := LogOf(recs), PendingOf(size, recs);
    OnceOfIncreasing(log);
    EndToEnd(size, recs, steps, sid, out);
    RecordingsConserve(size, recs);
    forall e
      ensures e in Unsent(size, recs) <==> e in pending
    {
      HeldMember(pending, log, pending, e);
      AtMostOnce(log, e);
      assert e in pending <==> 0 < multiset(pending)[e];
    }
    WithoutSame(log, Unsent(size, recs), pending);
  }

  lemma {:induction false} WithoutSame(s: seq<RawEvent>, a: seq<RawEvent>, b: seq<RawEvent>)
    requires SameElements(a, b)
    ensures Without(s, a) == Without(s, b)
  {
    if s != [] { WithoutSame(s[..|s| - 1], a, b); }
  }

  /** The recording ended with the flush of `stop`. */
  ghost predicate Stopped(r: Recording) {
    r.ops != [] && r.ops[|r.ops| - 1] == S.Flush
  }

  lemma {:induction false} StoppedHoldsNothing(size: seq<RawEvent> -> nat, recs: seq<Recording>)
    requires forall i :: 0 <= i < |recs| ==> Stopped(recs[i])
    ensures PendingOf(size, recs) == []
  {
    if recs != [] {
      var last := recs[|recs| - 1];
      StoppedHoldsNothing(size, recs[..|recs| - 1]);
      S.FlushedKeeps(S.Run(size, last.limit, last.ops[..|last.ops| - 1]));
    }
  }

  /** When every recording of the session has been stopped, the replay is the whole emitted sequence. */
  lemma {:induction false} EndToEndAfterStop(size: seq<RawEvent> -> nat, recs: seq<Recording>, steps: seq<Step>, sid: Sid, out: seq<EventRow>)
    requires Replayed(size, recs, steps, sid, out)
    requires NonDecreasing(LogOf(recs)) && Stamped(LogOf(recs))
    requires forall i :: 0 <= i < |recs| ==> Stopped(recs[i])
    ensures Once(EventsIn(out)) == Once(LogOf(recs))
    ensures Increasing(LogOf(recs)) ==> Once(EventsIn(out)) == LogOf(recs)
  {
    EndToEnd(size, recs, steps, sid, out);
    StoppedHoldsNothing(size, recs);
    WithoutNothing(Once(LogOf(recs)));
    if Increasing(LogOf(recs)) {
      OnceOfIncreasing(LogOf(recs));
    }
  }

  lemma {:induction false} WithoutNothing(s: seq<RawEvent>)
    ensures Without(s, []) == s
  {
    if s != [] {
      WithoutNothing(s[..|s| - 1]);
      assert s == s[..|s| - 1] + [s[|s| - 1]];
    }
  }

  /** The drained system replays the log: all recordings of a session stopped, their uploads and no others
      in the queue, everything worked off. Then whatever failed, crashed and was repeated on the way, any
      answer, repeats removed, is the whole emitted sequence. */
  lemma {:induction false} DrainedSystemReplays(size: seq<RawEvent> -> nat, recs: seq<Recording>, steps: seq<Step>, sid: Sid, out: seq<EventRow>)
    requires DrainedFor(steps, sid) && sid !in Run(INIT, steps).value.erased && IsAnswer(Run(INIT, steps).value.tables, sid, out)
    requires Arrived(Run(INIT, steps).value, sid, UploadsOf(size, recs)) && OnlyUploads(Run(INIT, steps).value, sid, UploadsOf(size, recs))
    requires NonDecreasing(LogOf(recs)) && Stamped(LogOf(recs))
    requires forall i :: 0 <= i < |recs| ==> Stopped(recs[i])
    ensures Once(EventsIn(out)) == Once(LogOf(recs))
  {
    DrainedIsInserted(steps, sid, UploadsOf(size, recs));
    EndToEndAfterStop(size, recs, steps, sid, out);
  }
}
