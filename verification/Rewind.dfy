/** End to end in the buffered mode: from the rolling buffer (packages/browser/src/index.ts), through any
    run of the pipeline, to the player. */
module Rewind {
  import opened Prelude
  import opened Rrweb
  import opened Store
  import opened Pipeline
  import opened Playback
  import R = RollingBuffer

  /** One recording of the buffered mode; `reports` says how much of the log there was at each report or
      reported error. */
  datatype Capture = Capture(bufferMs: int, log: seq<R.Emission>, reports: seq<nat>) {
    ghost predicate Valid() {
      forall i :: 0 <= i < |reports| ==> reports[i] <= |log|
    }
  }

  ghost predicate AllValid(caps: seq<Capture>) {
    forall i :: 0 <= i < |caps| ==> caps[i].Valid()
  }

  /** The log as it was at the i-th report. */
  function At(c: Capture, i: nat): seq<R.Emission>
    requires i < |c.reports| && c.reports[i] <= |c.log|
  {
    c.log[..c.reports[i]]
  }

  function Rolling(c: Capture, i: nat): seq<RawEvent>
    requires i < |c.reports| && c.reports[i] <= |c.log|
  {
    Flatten(R.Buffered(c.bufferMs, At(c, i)))
  }

  function NonEmpty(ss: seq<seq<RawEvent>>): seq<seq<RawEvent>> {
    if ss == [] then []
    else NonEmpty(ss[..|ss| - 1]) + if ss[|ss| - 1] == [] then [] else [ss[|ss| - 1]]
  }

  /** The uploads of a recording: at each report the whole rolling buffer, or nothing when that is
      empty. */
  function Sent(c: Capture): seq<seq<RawEvent>>
    requires c.Valid()
  {
    NonEmpty(seq(|c.reports|, i requires 0 <= i < |c.reports| && c.Valid() => Rolling(c, i)))
  }

  function SentBy(caps: seq<Capture>): seq<seq<RawEvent>>
    requires AllValid(caps)
  {
    if caps == [] then []
    else SentBy(caps[..|caps| - 1]) + Sent(caps[|caps| - 1])
  }

  /** Everything the recordings emitted, in order. */
  function EmittedBy(caps: seq<Capture>): seq<RawEvent> {
    if caps == [] then [] else EmittedBy(caps[..|caps| - 1]) + R.Events(caps[|caps| - 1].log)
  }

  /** Position `k` of the log is in the rolling buffer at the i-th report. */
  ghost predicate Shows(c: Capture, i: nat, k: nat)
    requires c.Valid() && i < |c.reports|
  {
    R.Start(c.bufferMs, At(c, i)) <= k < c.reports[i]
  }

  ghost predicate Kept(c: Capture, k: nat)
    requires c.Valid()
  {
    exists i :: 0 <= i < |c.reports| && Shows(c, i, k)
  }

  /** Of the first `n` events, those some report found in the buffer, in the order of the log. */
  ghost function Rewound(c: Capture, n: nat): seq<RawEvent>
    requires c.Valid() && n <= |c.log|
  {
    if n == 0 then [] else Rewound(c, n - 1) + if Kept(c, n - 1) then [c.log[n - 1].event] else []
  }

  ghost function RewoundBy(caps: seq<Capture>): seq<RawEvent>
    requires AllValid(caps)
  {
    if caps == [] then [] else RewoundBy(caps[..|caps| - 1]) + Rewound(caps[|caps| - 1], |caps[|caps| - 1].log|)
  }

  // ---------------------------------------------------------------------------------------------
  // The uploads carry what is rewound

  /** The i-th report found the event in the buffer. */
  ghost predicate Found(c: Capture, i: nat, e: RawEvent)
    requires c.Valid() && i < |c.reports|
  {
    exists k :: 0 <= k < |c.log| && Shows(c, i, k) && c.log[k].event == e
  }

  lemma {:induction false} BufferMember(c: Capture, i: nat, e: RawEvent)
    requires c.Valid() && i < |c.reports|
    ensures e in Rolling(c, i) <==> Found(c, i, e)
  {
    var log := At(c, i);
    var start := R.Start(c.bufferMs, log);
    R.BufferIsSuffix(c.bufferMs, log, |log|);
    MemberOfSuffix(R.Events(log), start, e);
    if e in R.Events(log)[start..] {
      var k :| start <= k < |log| && R.Events(log)[k] == e;
      assert Shows(c, i, k) && c.log[k].event == e;
    }
    if Found(c, i, e) {
      var k :| 0 <= k < |c.log| && Shows(c, i, k) && c.log[k].event == e;
      assert R.Events(log)[k] == e;
    }
  }

  lemma {:induction false} MemberOfSuffix(s: seq<RawEvent>, a: nat, e: RawEvent)
    requires a <= |s|
    ensures e in s[a..] <==> exists k :: a <= k < |s| && s[k] == e
  {
    if e in s[a..] {
      var n :| 0 <= n < |s[a..]| && s[a..][n] == e;
      assert s[a + n] == e;
    }
    if exists k :: a <= k < |s| && s[k] == e {
      var k :| a <= k < |s| && s[k] == e;
      assert s[a..][k - a] == e;
    }
  }

  /** Some upload carries the event. */
  ghost predicate Carried(uploads: seq<seq<RawEvent>>, e: RawEvent) {
    exists u :: 0 <= u < |uploads| && e in uploads[u]
  }

  lemma {:induction false} NonEmptyCarries(ss: seq<seq<RawEvent>>, e: RawEvent)
    ensures Carried(NonEmpty(ss), e) <==> Carried(ss, e)
  {
    if ss != [] {
      var front, last := ss[..|ss| - 1], ss[|ss| - 1];
      NonEmptyCarries(front, e);
      assert ss == front + [last];
      CarriedByLonger(front, [last], e);
      CarriedByLonger(NonEmpty(front), if last == [] then [] else [last], e);
      assert last != [] ==> (if last == [] then [] else [last]) == [last];
    }
  }

  lemma {:induction false} SentMember(c: Capture, e: RawEvent)
    requires c.Valid()
    ensures Carried(Sent(c), e) <==> exists i :: 0 <= i < |c.reports| && Found(c, i, e)
  {
    var ss := seq(|c.reports|, i requires 0 <= i < |c.reports| && c.Valid() => Rolling(c, i));
    NonEmptyCarries(ss, e);
    forall i | 0 <= i < |ss|
      ensures e in ss[i] <==> Found(c, i, e)
    {
      BufferMember(c, i, e);
    }
  }

  lemma {:induction false} CarriedByLonger(a: seq<seq<RawEvent>>, b: seq<seq<RawEvent>>, e: RawEvent)
    ensures Carried(a + b, e) <==> Carried(a, e) || Carried(b, e)
  {
    if Carried(a, e) {
      var u :| 0 <= u < |a| && e in a[u];
      assert e in (a + b)[u];
    }
    if Carried(b, e) {
      var u :| 0 <= u < |b| && e in b[u];
      assert e in (a + b)[|a| + u];
    }
  }

  lemma {:induction false} RewoundMember(c: Capture, n: nat, e: RawEvent)
    requires c.Valid() && n <= |c.log|
    ensures e in Rewound(c, n) <==> exists k :: 0 <= k < n && Kept(c, k) && c.log[k].event == e
  {
    if n != 0 { RewoundMember(c, n - 1, e); }
  }

  lemma {:induction false} SentIsRewound(c: Capture, e: RawEvent)
    requires c.Valid()
    ensures Carried(Sent(c), e) <==> e in Rewound(c, |c.log|)
    ensures e in Rewound(c, |c.log|) ==> e in R.Events(c.log)
  {
    SentMember(c, e);
    RewoundMember(c, |c.log|, e);
    if e in Rewound(c, |c.log|) {
      var k :| 0 <= k < |c.log| && Kept(c, k) && c.log[k].event == e;
      assert R.Events(c.log)[k] == e;
      var i :| 0 <= i < |c.reports| && Shows(c, i, k);
      assert Found(c, i, e);
    }
    if Carried(Sent(c), e) {
      var i :| 0 <= i < |c.reports| && Found(c, i, e);
      var k :| 0 <= k < |c.log| && Shows(c, i, k) && c.log[k].event == e;
      assert Kept(c, k);
    }
  }

  lemma {:induction false} SentByIsRewoundBy(caps: seq<Capture>, e: RawEvent)
    requires AllValid(caps)
    ensures Carried(SentBy(caps), e) <==> e in RewoundBy(caps)
    ensures e in RewoundBy(caps) ==> e in EmittedBy(caps)
  {
    if caps != [] {
      var front, last := caps[..|caps| - 1], caps[|caps| - 1];
      SentByIsRewoundBy(front, e);
      SentIsRewound(last, e);
      CarriedByLonger(SentBy(front), Sent(last), e);
    }
  }

  // ---------------------------------------------------------------------------------------------
  // In the order of the log

  lemma {:induction false} RewoundInOrder(c: Capture, n: nat)
    requires c.Valid() && n <= |c.log| && NonDecreasing(R.Events(c.log))
    ensures NonDecreasing(Rewound(c, n))
  {
    if n != 0 {
      RewoundInOrder(c, n - 1);
      var front := Rewound(c, n - 1);
      forall i | 0 <= i < |front|
        ensures front[i].timestamp <= c.log[n - 1].event.timestamp
      {
        RewoundMember(c, n - 1, front[i]);
        var k :| 0 <= k < n - 1 && Kept(c, k) && c.log[k].event == front[i];
        assert R.Events(c.log)[k].timestamp <= R.Events(c.log)[n - 1].timestamp;
      }
    }
  }

  lemma {:induction false} PartsInOrder(a: seq<RawEvent>, b: seq<RawEvent>)
    requires NonDecreasing(a + b)
    ensures NonDecreasing(a) && NonDecreasing(b)
    ensures forall x, y :: x in a && y in b ==> x.timestamp <= y.timestamp
  {
    forall i, j | 0 <= i < j < |a|
      ensures a[i].timestamp <= a[j].timestamp
    {
      assert (a + b)[i] == a[i] && (a + b)[j] == a[j];
    }
    forall i, j | 0 <= i < j < |b|
      ensures b[i].timestamp <= b[j].timestamp
    {
      assert (a + b)[|a| + i] == b[i] && (a + b)[|a| + j] == b[j];
    }
    forall x, y | x in a && y in b
      ensures x.timestamp <= y.timestamp
    {
      var i, j :| 0 <= i < |a| && a[i] == x && 0 <= j < |b| && b[j] == y;
      assert (a + b)[i] == x && (a + b)[|a| + j] == y;
    }
  }

  lemma {:induction false} RewoundByInOrder(caps: seq<Capture>)
    requires AllValid(caps) && NonDecreasing(EmittedBy(caps))
    ensures NonDecreasing(RewoundBy(caps))
  {
    if caps != [] {
      var front, last := caps[..|caps| - 1], caps[|caps| - 1];
      PartsInOrder(EmittedBy(front), R.Events(last.log));
      RewoundByInOrder(front);
      RewoundInOrder(last, |last.log|);
      var a, b := RewoundBy(front), Rewound(last, |last.log|);
      forall i, j | 0 <= i < |a| && 0 <= j < |b|
        ensures a[i].timestamp <= b[j].timestamp
      {
        SentByIsRewoundBy(front, a[i]);
        SentIsRewound(last, b[j]);
      }
    }
  }

  /** End to end in the buffered mode. The recordings of a session emit events with timestamps that never
      go back and agree only on equal events; reports send their overlapping rolling buffers. Then any
      answer, repeats removed, is the part of the log that some report found in its buffer. */
  lemma {:induction false} RewindEndToEnd(caps: seq<Capture>, steps: seq<Step>, sid: Sid, out: seq<EventRow>)
    requires AllValid(caps) && Answers(SentBy(caps), steps, sid, out)
    requires NonDecreasing(EmittedBy(caps)) && Stamped(EmittedBy(caps))
    ensures Once(EventsIn(out)) == Once(RewoundBy(caps))
  {
    var shown := RewoundBy(caps);
    AnswerHoldsUploads(SentBy(caps), steps, sid, out);
    forall e
      ensures e in EventsIn(out) <==> e in shown
      ensures e in shown ==> e in EmittedBy(caps)
    {
      SentByIsRewoundBy(caps, e);
      MemberOfFlattened(SentBy(caps), e);
    }
    RewoundByInOrder(caps);
    StampedPart(EmittedBy(caps), shown);
    AnswerIsLog(out, shown, []);
    WithoutNothing(Once(shown));
  }

  lemma {:induction false} StampedPart(all: seq<RawEvent>, part: seq<RawEvent>)
    requires Stamped(all) && forall e :: e in part ==> e in all
    ensures Stamped(part)
  {
    forall i, j | 0 <= i < |part| && 0 <= j < |part| && part[i].timestamp == part[j].timestamp
      ensures part[i] == part[j]
    {
      assert part[i] in all && part[j] in all;
    }
  }

  /** A session of one report replays exactly the rolling buffer of that moment: the log up to the report,
      from an opening on, whatever was emitted later. */
  lemma {:induction false} OneReportReplays(caps: seq<Capture>, steps: seq<Step>, sid: Sid, out: seq<EventRow>)
    requires AllValid(caps) && Answers(SentBy(caps), steps, sid, out)
    requires NonDecreasing(EmittedBy(caps)) && Stamped(EmittedBy(caps))
    requires |caps| == 1 && |caps[0].reports| == 1
    ensures
      var log, start, n := EmittedBy(caps), R.Start(caps[0].bufferMs, At(caps[0], 0)), caps[0].reports[0];
      && log == R.Events(caps[0].log) && 0 <= start <= n <= |log|
      && (0 < n ==> start < n && R.Opens(caps[0].log, start))
      && Once(EventsIn(out)) == Once(log[start..n])
  {
    RewindEndToEnd(caps, steps, sid, out);
    OneReport(caps);
  }

  lemma {:induction false} OneReport(caps: seq<Capture>)
    requires AllValid(caps) && |caps| == 1 && |caps[0].reports| == 1
    ensures
      var log, start, n := EmittedBy(caps), R.Start(caps[0].bufferMs, At(caps[0], 0)), caps[0].reports[0];
      && log == R.Events(caps[0].log) && 0 <= start <= n <= |log|
      && (0 < n ==> start < n && R.Opens(caps[0].log, start))
      && RewoundBy(caps) == log[start..n]
  {
    var c := caps[0];
    var start := R.Start(c.bufferMs, At(c, 0));
    StartInLog(c.bufferMs, At(c, 0));
    assert 0 < c.reports[0] ==> R.Opens(c.log, start);
    OneCapture(caps);
    OneWindow(c, start);
  }

  lemma {:induction false} OneWindow(c: Capture, start: nat)
    requires c.Valid() && |c.reports| == 1 && start == R.Start(c.bufferMs, At(c, 0)) && start <= c.reports[0]
    ensures Rewound(c, |c.log|) == R.Events(c.log)[start..c.reports[0]]
  {
    WholeWindow(c, start, |c.log|);
    SliceIs(R.Events(c.log), start, c.reports[0]);
  }

  lemma {:induction false} SliceIs(s: seq<RawEvent>, a: nat, n: nat)
    requires a <= n <= |s|
    ensures Slice(s, a, n) == s[a..n]
  {
  }

  lemma {:induction false} StartInLog(bufferMs: int, log: seq<R.Emission>)
    ensures 0 <= R.Start(bufferMs, log) <= |log|
    ensures log != [] ==> R.Start(bufferMs, log) < |log| && R.Opens(log, R.Start(bufferMs, log))
  {
    R.BufferIsSuffix(bufferMs, log, |log|);
  }

  lemma {:induction false} OneCapture(caps: seq<Capture>)
    requires |caps| == 1 && caps[0].Valid()
    ensures EmittedBy(caps) == R.Events(caps[0].log) && RewoundBy(caps) == Rewound(caps[0], |caps[0].log|)
  {
    assert caps[..0] == [];
  }

  function Slice(s: seq<RawEvent>, a: nat, n: nat): seq<RawEvent>
    requires n <= |s|
  {
    if n <= a then [] else s[a..n]
  }

  lemma {:induction false} SliceGrows(s: seq<RawEvent>, a: nat, n: nat)
    requires n < |s|
    ensures Slice(s, a, n + 1) == Slice(s, a, n) + if a <= n then [s[n]] else []
  {
  }

  lemma {:induction false} WholeWindow(c: Capture, start: nat, n: nat)
    requires c.Valid() && |c.reports| == 1 && n <= |c.log| && start == R.Start(c.bufferMs, At(c, 0))
    ensures Rewound(c, n) == Slice(R.Events(c.log), start, if n <= c.reports[0] then n else c.reports[0])
  {
    if n != 0 {
      WholeWindow(c, start, n - 1);
      KeptByOne(c, n - 1);
      if n <= c.reports[0] {
        SliceGrows(R.Events(c.log), start, n - 1);
      }
    }
  }

  lemma {:induction false} KeptByOne(c: Capture, k: nat)
    requires c.Valid() && |c.reports| == 1 && k < |c.log|
    ensures Kept(c, k) <==> R.Start(c.bufferMs, At(c, 0)) <= k < c.reports[0]
  {
    assert Kept(c, k) <==> Shows(c, 0, k);
  }

  /** Every report's last `bufferMs` are in the replay: an event missing from it was, at each report that
      came after it, at least that old. */
  lemma {:induction false} RewindIsComplete(caps: seq<Capture>, steps: seq<Step>, sid: Sid, out: seq<EventRow>, n: nat, i: nat, now: int, k: nat)
    requires AllValid(caps) && Answers(SentBy(caps), steps, sid, out)
    requires n < |caps| && i < |caps[n].reports| && k < caps[n].reports[i]
    requires R.TimestampsInOrder(At(caps[n], i)) && forall m :: 0 <= m < caps[n].reports[i] ==> caps[n].log[m].now <= now
    requires now - caps[n].bufferMs < caps[n].log[k].event.timestamp
    ensures caps[n].log[k].event in EventsIn(out)
  {
    var c, e := caps[n], caps[n].log[k].event;
    AnswerHoldsUploads(SentBy(caps), steps, sid, out);
    if k < R.Start(c.bufferMs, At(c, i)) {
      R.NothingRecentIsMissing(c.bufferMs, At(c, i), now, k);
    }
    assert Shows(c, i, k) && Found(c, i, e);
    SentMember(c, e);
    SentByMember(caps, n, e);
    MemberOfFlattened(SentBy(caps), e);
  }

  lemma {:induction false} SentByMember(caps: seq<Capture>, n: nat, e: RawEvent)
    requires AllValid(caps) && n < |caps| && Carried(Sent(caps[n]), e)
    ensures Carried(SentBy(caps), e)
  {
    var front, last := caps[..|caps| - 1], caps[|caps| - 1];
    CarriedByLonger(SentBy(front), Sent(last), e);
    if n < |front| { SentByMember(front, n, e); }
  }

  /** The drained system replays what was reported: as in the always mode, with the reports of the
      recordings in the queue and everything worked off. */
  lemma {:induction false} DrainedSystemRewinds(caps: seq<Capture>, steps: seq<Step>, sid: Sid, out: seq<EventRow>)
    requires AllValid(caps) && NonDecreasing(EmittedBy(caps)) && Stamped(EmittedBy(caps))
    requires DrainedFor(steps, sid) && sid !in Run(INIT, steps).value.erased && IsAnswer(Run(INIT, steps).value.tables, sid, out)
    requires Arrived(Run(INIT, steps).value, sid, SentBy(caps)) && OnlyUploads(Run(INIT, steps).value, sid, SentBy(caps))
    ensures Once(EventsIn(out)) == Once(RewoundBy(caps))
  {
    DrainedIsInserted(steps, sid, SentBy(caps));
    RewindEndToEnd(caps, steps, sid, out);
  }
}
