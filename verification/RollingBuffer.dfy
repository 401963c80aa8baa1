/** The rolling segment buffer of the recorder's buffered mode (packages/browser/src/index.ts).

    The recorder keeps only the segments; everything here relates them to the whole log of
    emissions. */
module RollingBuffer {
  import opened Prelude
  import opened Rrweb

  type Segments = seq<seq<RawEvent>>

  /** One call of the recorder's `emit`, and the clock reading a pruning in it would take. */
  datatype Emission = Emission(event: RawEvent, checkout: bool, now: int)

  function Events(log: seq<Emission>): (r: seq<RawEvent>)
    ensures |r| == |log|
    ensures forall i :: 0 <= i < |log| ==> r[i] == log[i].event
  {
    seq(|log|, i requires 0 <= i < |log| => log[i].event)
  }

  /** Whether emission `i` opens a segment: a checkout, or the very first one. */
  predicate Opens(log: seq<Emission>, i: nat)
    requires i < |log|
  {
    i == 0 || log[i].checkout
  }

  /** One-shot pruning: drop the first segment while the second one starts at or before the cutoff. */
  function Prune(segs: Segments, cutoff: int): Segments {
    if 1 < |segs| && segs[1] != [] && segs[1][0].timestamp <= cutoff then Prune(segs[1..], cutoff) else segs
  }

  function Opened(segs: Segments, e: Emission): Segments {
    if e.checkout || segs == [] then segs + [[e.event]]
    else segs[..|segs| - 1] + [segs[|segs| - 1] + [e.event]]
  }

  /** The segments after one more emission; only one that opens a segment prunes. */
  function Emitted(bufferMs: int, segs: Segments, e: Emission): Segments {
    if e.checkout || segs == [] then Prune(Opened(segs, e), e.now - bufferMs) else Opened(segs, e)
  }

  /** The log cut into segments, nothing pruned. */
  function Segmented(log: seq<Emission>): Segments {
    if log == [] then [] else Opened(Segmented(log[..|log| - 1]), log[|log| - 1])
  }

  /** What the recorder holds after a log of emissions. */
  function Buffered(bufferMs: int, log: seq<Emission>): Segments {
    if log == [] then [] else Emitted(bufferMs, Buffered(bufferMs, log[..|log| - 1]), log[|log| - 1])
  }

  /** The cutoff of the last pruning. */
  function LastCutoff(bufferMs: int, log: seq<Emission>): int
    requires log != []
  {
    log[LastOpening(log)].now - bufferMs
  }

  function LastOpening(log: seq<Emission>): (i: nat)
    requires log != []
    ensures i < |log| && Opens(log, i)
    ensures forall j :: i < j < |log| ==> !Opens(log, j)
  {
    if log[|log| - 1].checkout || |log| == 1 then |log| - 1
    else
      var i := LastOpening(log[..|log| - 1]);
      assert forall j :: 0 <= j < |log| - 1 ==> Opens(log[..|log| - 1], j) == Opens(log, j);
      i
  }

  ghost predicate ClockInOrder(log: seq<Emission>) {
    forall i, j :: 0 <= i <= j < |log| ==> log[i].now <= log[j].now
  }

  ghost predicate TimestampsInOrder(log: seq<Emission>) {
    forall i, j :: 0 <= i <= j < |log| ==> log[i].event.timestamp <= log[j].event.timestamp
  }

  // ---------------------------------------------------------------------------------------------
  // Incremental pruning is one-shot pruning

  lemma {:induction false} PruneNonEmpty(segs: Segments, cutoff: int)
    requires segs != []
    ensures Prune(segs, cutoff) != []
    ensures Prune(segs, cutoff)[|Prune(segs, cutoff)| - 1] == segs[|segs| - 1]
    decreases |segs|
  {
    if 1 < |segs| && segs[1] != [] && segs[1][0].timestamp <= cutoff {
      PruneNonEmpty(segs[1..], cutoff);
    }
  }

  /** A pruning is absorbed by a later one whose cutoff is no earlier. */
  lemma {:induction false} PruneAbsorbs(segs: Segments, tail: Segments, earlier: int, later: int)
    requires earlier <= later && segs != []
    ensures Prune(Prune(segs, earlier) + tail, later) == Prune(segs + tail, later)
    decreases |segs|
  {
    if 1 < |segs| && segs[1] != [] && segs[1][0].timestamp <= earlier {
      PruneAbsorbs(segs[1..], tail, earlier, later);
      assert (segs + tail)[1..] == segs[1..] + tail;
      assert (segs + tail)[1] == segs[1];
    }
  }

  /** Growing the last segment does not disturb a pruning. */
  lemma {:induction false} PruneGrows(segs: Segments, e: Emission, cutoff: int)
    requires segs != [] && !e.checkout && segs[|segs| - 1] != []
    ensures Prune(Opened(segs, e), cutoff) == Opened(Prune(segs, cutoff), e)
    decreases |segs|
  {
    if 1 < |segs| && segs[1] != [] && segs[1][0].timestamp <= cutoff {
      PruneGrows(segs[1..], e, cutoff);
      assert Opened(segs, e)[1..] == Opened(segs[1..], e);
    } else if 1 < |segs| && segs[1] != [] {
      assert Opened(segs, e)[1][0] == segs[1][0];
    }
  }

  lemma {:induction false} SegmentedNonEmpty(log: seq<Emission>)
    ensures Segmented(log) == [] <==> log == []
    ensures forall i :: 0 <= i < |Segmented(log)| ==> Segmented(log)[i] != []
  {
    if log != [] { SegmentedNonEmpty(log[..|log| - 1]); }
  }

  lemma {:induction false} LastOpeningFront(log: seq<Emission>)
    requires 1 < |log| && !log[|log| - 1].checkout
    ensures LastOpening(log) == LastOpening(log[..|log| - 1])
  {
  }

  /** With a clock that never goes back, the segments after any run are the whole log segmented and
      pruned once, with the cutoff of the last segment opening. */
  lemma {:induction false} IncrementalIsOneShot(bufferMs: int, log: seq<Emission>)
    requires log != [] && ClockInOrder(log)
    ensures Buffered(bufferMs, log) == Prune(Segmented(log), LastCutoff(bufferMs, log))
  {
    var front, e := log[..|log| - 1], log[|log| - 1];
    if front == [] {
      assert Opened([], e) == [[e.event]];
      return;
    }
    IncrementalIsOneShot(bufferMs, front);
    SegmentedNonEmpty(front);
    var whole, cut := Segmented(front), LastCutoff(bufferMs, front);
    assert front[LastOpening(front)].now <= e.now;
    if !e.checkout {
      LastOpeningFront(log);
    }
    EmittedPruned(bufferMs, whole, cut, e);
  }

  /** One emission on segments that are already pruned. */
  lemma {:induction false} EmittedPruned(bufferMs: int, whole: Segments, cut: int, e: Emission)
    requires whole != [] && whole[|whole| - 1] != []
    requires e.checkout ==> cut <= e.now - bufferMs
    ensures Emitted(bufferMs, Prune(whole, cut), e) == Prune(Opened(whole, e), if e.checkout then e.now - bufferMs else cut)
  {
    PruneNonEmpty(whole, cut);
    if e.checkout {
      PruneAbsorbs(whole, [[e.event]], cut, e.now - bufferMs);
    } else {
      PruneGrows(whole, e, cut);
    }
  }

  // ---------------------------------------------------------------------------------------------
  // The buffer is a suffix of the log, opened by a checkout

  /** `seg` is the stretch of the log from opening `k` up to some point before the next opening. */
  ghost predicate Segment(log: seq<Emission>, seg: seq<RawEvent>, k: nat) {
    && 0 < |seg| && k + |seg| <= |log|
    && Opens(log, k)
    && (forall j :: k < j < k + |seg| ==> !log[j].checkout)
    && (forall j :: 0 <= j < |seg| ==> seg[j] == log[k + j].event)
  }

  /** The segments are the log from `k` on, cut exactly at its openings. */
  ghost predicate Covers(log: seq<Emission>, segs: Segments, k: nat)
    decreases |segs|
  {
    if segs == [] then k == |log|
    else Segment(log, segs[0], k) && Covers(log, segs[1..], k + |segs[0]|)
  }

  /** How many emissions the recorder has let go of. */
  function Start(bufferMs: int, log: seq<Emission>): int {
    |log| - |Flatten(Buffered(bufferMs, log))|
  }

  lemma {:induction false} CoversFlattens(log: seq<Emission>, segs: Segments, k: nat)
    requires Covers(log, segs, k)
    ensures k <= |log| && Flatten(segs) == Events(log)[k..]
    decreases |segs|
  {
    if segs != [] {
      var n := |segs[0]|;
      CoversFlattens(log, segs[1..], k + n);
      assert segs[0] == Events(log)[k..k + n];
      assert Events(log)[k..] == Events(log)[k..k + n] + Events(log)[k + n..];
    }
  }

  lemma {:induction false} CoversOpened(log: seq<Emission>, segs: Segments, k: nat, e: Emission)
    requires Covers(log, segs, k)
    requires segs == [] ==> k == 0
    ensures Covers(log + [e], Opened(segs, e), k)
    decreases |segs|
  {
    if segs == [] {
      CoversOne(log + [e], [e.event], k);
      assert Opened(segs, e) == [[e.event]];
    } else if |segs| == 1 {
      CoversLast(log, segs[0], k, e);
      assert segs == [segs[0]];
    } else {
      CoversOpened(log, segs[1..], k + |segs[0]|, e);
      assert Segment(log + [e], segs[0], k);
      assert Opened(segs, e)[1..] == Opened(segs[1..], e);
      assert Opened(segs, e)[0] == segs[0];
    }
  }

  lemma {:induction false} CoversOne(log: seq<Emission>, seg: seq<RawEvent>, k: nat)
    requires Segment(log, seg, k) && k + |seg| == |log|
    ensures Covers(log, [seg], k)
  {
    assert [seg][1..] == [];
  }

  lemma {:induction false} CoversLast(log: seq<Emission>, seg: seq<RawEvent>, k: nat, e: Emission)
    requires Segment(log, seg, k) && k + |seg| == |log|
    ensures Covers(log + [e], Opened([seg], e), k)
  {
    if e.checkout {
      CoversOne(log + [e], [e.event], |log|);
      assert Segment(log + [e], seg, k);
      assert Opened([seg], e) == [seg, [e.event]];
      assert [seg, [e.event]][1..] == [[e.event]];
    } else {
      CoversOne(log + [e], seg + [e.event], k);
      assert Opened([seg], e) == [seg + [e.event]];
    }
  }

  /** Where a pruning of covering segments starts: no earlier, and if later then at an opening whose
      timestamp the cutoff has passed. */
  lemma {:induction false} CoversPruned(log: seq<Emission>, segs: Segments, k: nat, cutoff: int) returns (k': nat)
    requires segs != [] && Covers(log, segs, k)
    ensures k <= k' < |log| && Covers(log, Prune(segs, cutoff), k')
    ensures k < k' ==> log[k'].event.timestamp <= cutoff
    decreases |segs|
  {
    if 1 < |segs| && segs[1] != [] && segs[1][0].timestamp <= cutoff {
      var n := |segs[0]|;
      k' := CoversPruned(log, segs[1..], k + n, cutoff);
      assert segs[1..][0] == segs[1];
      assert segs[1][0] == log[k + n].event;
    } else {
      k' := k;
    }
  }

  /** One emission: the segments still cover the log, from a start that moves only to an opening
      the cutoff has passed. */
  lemma {:induction false} EmittedCovers(bufferMs: int, log: seq<Emission>, segs: Segments, k: nat) returns (k': nat)
    requires log != [] && Covers(log[..|log| - 1], segs, k) && (segs == [] ==> k == 0)
    ensures
      var e := log[|log| - 1];
      && k <= k' < |log| && Covers(log, Emitted(bufferMs, segs, e), k')
      && Emitted(bufferMs, segs, e) != []
      && (k < k' ==> e.checkout && log[k'].event.timestamp <= e.now - bufferMs)
  {
    var front, e := log[..|log| - 1], log[|log| - 1];
    assert log == front + [e];
    CoversOpened(front, segs, k, e);
    CoversFlattens(front, segs, k);
    if e.checkout {
      k' := CoversPruned(log, Opened(segs, e), k, e.now - bufferMs);
      PruneNonEmpty(Opened(segs, e), e.now - bufferMs);
    } else {
      k' := k;
    }
  }

  /** What the buffer is after any log, and how the last emission moved its start. */
  lemma {:induction false} BufferedCovers(bufferMs: int, log: seq<Emission>)
    ensures 0 <= Start(bufferMs, log) <= |log|
    ensures Covers(log, Buffered(bufferMs, log), Start(bufferMs, log))
    ensures Buffered(bufferMs, log) == [] <==> log == []
    ensures log != [] ==>
              var before, now := Start(bufferMs, log[..|log| - 1]), Start(bufferMs, log);
              && before <= now < |log|
              && (before < now ==> log[|log| - 1].checkout && log[now].event.timestamp <= log[|log| - 1].now - bufferMs)
  {
    if log != [] {
      var front := log[..|log| - 1];
      BufferedCovers(bufferMs, front);
      var k' := EmittedCovers(bufferMs, log, Buffered(bufferMs, front), Start(bufferMs, front));
      StartIs(bufferMs, log, k');
    }
  }

  lemma {:induction false} StartIs(bufferMs: int, log: seq<Emission>, k: nat)
    requires Covers(log, Buffered(bufferMs, log), k)
    ensures Start(bufferMs, log) == k
  {
    CoversFlattens(log, Buffered(bufferMs, log), k);
  }

  /** The flattened buffer is the log from its start on; the start is the very first event or a
      checkout, and it never moves back. */
  lemma {:induction false} BufferIsSuffix(bufferMs: int, log: seq<Emission>, earlier: nat)
    requires earlier <= |log|
    ensures 0 <= Start(bufferMs, log) <= |log|
    ensures Flatten(Buffered(bufferMs, log)) == Events(log)[Start(bufferMs, log)..]
    ensures log != [] ==> Start(bufferMs, log) < |log| && Opens(log, Start(bufferMs, log))
    ensures Start(bufferMs, log[..earlier]) <= Start(bufferMs, log)
  {
    BufferedCovers(bufferMs, log);
    CoversFlattens(log, Buffered(bufferMs, log), Start(bufferMs, log));
    StartMonotone(bufferMs, log, earlier);
  }

  lemma {:induction false} StartMonotone(bufferMs: int, log: seq<Emission>, earlier: nat)
    requires earlier <= |log|
    ensures Start(bufferMs, log[..earlier]) <= Start(bufferMs, log)
    decreases |log|
  {
    if earlier < |log| {
      StartMonotone(bufferMs, log[..|log| - 1], earlier);
      assert log[..|log| - 1][..earlier] == log[..earlier];
      BufferedCovers(bufferMs, log);
    } else {
      assert log[..earlier] == log;
    }
  }

  // ---------------------------------------------------------------------------------------------
  // The retention window

  /** Opening `i` found that opening `j` had left the window. */
  ghost predicate FoundDue(bufferMs: int, log: seq<Emission>, i: nat, j: nat) {
    && 0 < j <= i < |log| && Opens(log, i) && Opens(log, j)
    && log[j].event.timestamp <= log[i].now - bufferMs
  }

  /** The buffer starts at the first event or at an opening that some opening found due. */
  lemma {:induction false} StartWasDue(bufferMs: int, log: seq<Emission>) returns (i: nat)
    requires 0 < Start(bufferMs, log)
    ensures FoundDue(bufferMs, log, i, Start(bufferMs, log))
  {
    BufferedCovers(bufferMs, log);
    var front, k := log[..|log| - 1], Start(bufferMs, log);
    assert Opens(log, k);
    if Start(bufferMs, front) == k {
      i := StartWasDue(bufferMs, front);
      assert log[i] == front[i] && log[k] == front[k];
    } else {
      i := |log| - 1;
    }
  }

  /** With timestamps in order, whatever an upload at `now` leaves out is at least `bufferMs` old, if no
      reading was later. */
  lemma {:induction false} NothingRecentIsMissing(bufferMs: int, log: seq<Emission>, now: int, i: nat)
    requires TimestampsInOrder(log) && forall n :: 0 <= n < |log| ==> log[n].now <= now
    requires i < |log| && i < Start(bufferMs, log)
    ensures log[i].event.timestamp <= now - bufferMs
  {
    BufferedCovers(bufferMs, log);
    var n := StartWasDue(bufferMs, log);
  }

  /** Consecutive openings of the log are at most `gap` apart. */
  ghost predicate Dense(log: seq<Emission>, gap: int) {
    forall i, j :: 0 <= i < j < |log| && Opens(log, i) && Opens(log, j)
                   && (forall m :: i < m < j ==> !Opens(log, m)) ==>
                     log[j].event.timestamp - log[i].event.timestamp <= gap
  }

  ghost predicate StampedWhenEmitted(log: seq<Emission>) {
    forall i :: 0 <= i < |log| ==> log[i].event.timestamp == log[i].now
  }

  /** The last pruning stopped because one segment was left or the second one was recent enough. */
  ghost predicate Settled(segs: Segments, cutoff: int) {
    |segs| <= 1 || (segs[1] != [] && cutoff < segs[1][0].timestamp)
  }

  lemma {:induction false} PruneSettles(log: seq<Emission>, segs: Segments, k: nat, cutoff: int)
    requires Covers(log, segs, k)
    ensures Settled(Prune(segs, cutoff), cutoff)
    decreases |segs|
  {
    if 1 < |segs| {
      assert segs[1..][0] == segs[1];
      PruneSettles(log, segs[1..], k + |segs[0]|, cutoff);
    }
  }

  lemma {:induction false} BufferedSettled(bufferMs: int, log: seq<Emission>)
    requires log != []
    ensures Settled(Buffered(bufferMs, log), LastCutoff(bufferMs, log))
  {
    var front, e := log[..|log| - 1], log[|log| - 1];
    var segs := Buffered(bufferMs, front);
    BufferedCovers(bufferMs, front);
    if e.checkout || front == [] {
      assert log == front + [e];
      CoversOpened(front, segs, Start(bufferMs, front), e);
      PruneSettles(log, Opened(segs, e), Start(bufferMs, front), e.now - bufferMs);
    } else {
      BufferedSettled(bufferMs, front);
      LastOpeningFront(log);
      GrownSettled(segs, e, LastCutoff(bufferMs, front));
    }
  }

  lemma {:induction false} GrownSettled(segs: Segments, e: Emission, cutoff: int)
    requires segs != [] && !e.checkout && Settled(segs, cutoff)
    ensures Settled(Opened(segs, e), cutoff)
  {
  }

  /** A single segment is the one the last opening opened. */
  lemma {:induction false} SingleSegment(log: seq<Emission>, segs: Segments, k: nat)
    requires log != [] && Covers(log, segs, k) && |segs| == 1
    ensures k == LastOpening(log)
  {
    assert segs[1..] == [];
    assert k + |segs[0]| == |log|;
    assert k <= LastOpening(log);
  }

  /** If openings are at most `gap` apart, the last one is at most `gap` before the upload, and
      events are stamped when emitted, then no uploaded event is as old as `bufferMs + 2 * gap`. */
  lemma {:induction false} NothingStaleIsUploaded(bufferMs: int, log: seq<Emission>, gap: int, now: int, i: nat)
    requires log != [] && TimestampsInOrder(log) && StampedWhenEmitted(log) && Dense(log, gap)
    requires now - log[LastOpening(log)].now <= gap && 0 < bufferMs + gap
    requires Start(bufferMs, log) <= i < |log|
    ensures now - log[i].event.timestamp < bufferMs + 2 * gap
  {
    var segs, k := Buffered(bufferMs, log), Start(bufferMs, log);
    BufferedCovers(bufferMs, log);
    BufferedSettled(bufferMs, log);
    assert log[k].event.timestamp <= log[i].event.timestamp;
    if |segs| == 1 {
      SingleSegment(log, segs, k);
    } else {
      FirstSegmentSpan(log, segs, k, gap);
    }
  }

  /** The second segment starts at most `gap` after the first. */
  lemma {:induction false} FirstSegmentSpan(log: seq<Emission>, segs: Segments, k: nat, gap: int)
    requires Covers(log, segs, k) && 1 < |segs| && Dense(log, gap)
    ensures k < |log| && segs[1] != [] && segs[1][0].timestamp - log[k].event.timestamp <= gap
  {
    var n := |segs[0]|;
    assert segs[1..][0] == segs[1];
    assert Segment(log, segs[1], k + n);
    assert segs[1][0] == log[k + n].event;
    assert Opens(log, k) && Opens(log, k + n);
    assert forall m :: k < m < k + n ==> !Opens(log, m);
  }

  // ---------------------------------------------------------------------------------------------
  // Exactly when incremental pruning is one-shot pruning

  lemma {:induction false} SegmentedCovers(log: seq<Emission>)
    ensures Covers(log, Segmented(log), 0)
  {
    if log != [] {
      var front, e := log[..|log| - 1], log[|log| - 1];
      SegmentedCovers(front);
      CoversOpened(front, Segmented(front), 0, e);
      assert log == front + [e];
    }
  }

  /** Where the segments start determines them. */
  lemma {:induction false} CoversUnique(log: seq<Emission>, a: Segments, b: Segments, k: nat)
    requires Covers(log, a, k) && Covers(log, b, k)
    ensures a == b
    decreases |a|
  {
    if a == [] {
      CoversFlattens(log, b, k);
    } else {
      CoversFlattens(log, a, k);
      var m, n := |a[0]|, |b[0]|;
      CoversFlattens(log, a[1..], k + m);
      CoversFlattens(log, b[1..], k + n);
      NextOpening(log, a, k);
      NextOpening(log, b, k);
      assert m == n;
      assert a[0] == b[0];
      CoversUnique(log, a[1..], b[1..], k + m);
      assert a == [a[0]] + a[1..] && b == [b[0]] + b[1..];
    }
  }

  /** The first segment ends where the log does or at the next opening. */
  lemma {:induction false} NextOpening(log: seq<Emission>, segs: Segments, k: nat)
    requires segs != [] && Covers(log, segs, k)
    ensures k + |segs[0]| <= |log| && (k + |segs[0]| < |log| ==> log[k + |segs[0]|].checkout)
    ensures forall j :: k < j < k + |segs[0]| ==> !log[j].checkout
  {
    var n := |segs[0]|;
    if k + n < |log| {
      assert segs[1..] != [];
      assert Segment(log, segs[1..][0], k + n);
    }
  }

  /** A pruning that starts at opening `k` stops at `k'`: the cutoff has passed every opening up to there,
      and has not passed the next one, so not all of those up to any later one. */
  ghost predicate StopsAt(log: seq<Emission>, k: nat, k': nat, cutoff: int) {
    && k <= k' < |log|
    && (forall j :: k < j <= k' && Opens(log, j) ==> log[j].event.timestamp <= cutoff)
    && (forall m :: k' < m < |log| && Opens(log, m) ==> Blocked(log, k', m, cutoff))
  }

  ghost predicate Blocked(log: seq<Emission>, k: nat, m: nat, cutoff: int)
    requires m < |log|
  {
    exists j :: k < j <= m && Opens(log, j) && cutoff < log[j].event.timestamp
  }

  lemma {:induction false} PruneStops(log: seq<Emission>, segs: Segments, k: nat, cutoff: int) returns (k': nat)
    requires segs != [] && Covers(log, segs, k)
    ensures Covers(log, Prune(segs, cutoff), k') && StopsAt(log, k, k', cutoff)
    decreases |segs|
  {
    var n := |segs[0]|;
    NextOpening(log, segs, k);
    if |segs| == 1 {
      assert segs[1..] == [];
      k' := k;
    } else {
      assert segs[1..][0] == segs[1];
      assert Segment(log, segs[1], k + n);
      assert segs[1][0] == log[k + n].event;
      if segs[1][0].timestamp <= cutoff {
        k' := PruneStops(log, segs[1..], k + n, cutoff);
      } else {
        k' := k;
        assert forall m :: k < m < |log| && Opens(log, m) ==> k + n <= m;
        assert Opens(log, k + n);
      }
    }
  }

  /** An opening prunes from where the buffer started just before it. */
  lemma {:induction false} EmittedStops(bufferMs: int, log: seq<Emission>, segs: Segments, k: nat) returns (k': nat)
    requires log != [] && Covers(log[..|log| - 1], segs, k) && (segs == [] ==> k == 0)
    requires log[|log| - 1].checkout || segs == []
    ensures Covers(log, Emitted(bufferMs, segs, log[|log| - 1]), k') && StopsAt(log, k, k', log[|log| - 1].now - bufferMs)
  {
    var front, e := log[..|log| - 1], log[|log| - 1];
    assert log == front + [e];
    CoversOpened(front, segs, k, e);
    k' := PruneStops(log, Opened(segs, e), k, e.now - bufferMs);
  }

  lemma {:induction false} OpeningStops(bufferMs: int, log: seq<Emission>, before: nat, start: nat)
    requires log != [] && Opens(log, |log| - 1)
    requires before == Start(bufferMs, log[..|log| - 1]) && start == Start(bufferMs, log)
    ensures StopsAt(log, before, start, log[|log| - 1].now - bufferMs)
  {
    BufferedCovers(bufferMs, log[..|log| - 1]);
    var k' := EmittedStops(bufferMs, log, Buffered(bufferMs, log[..|log| - 1]), before);
    StartIs(bufferMs, log, k');
  }

  lemma {:induction false} StartStays(bufferMs: int, log: seq<Emission>)
    requires log != [] && !Opens(log, |log| - 1)
    ensures Start(bufferMs, log) == Start(bufferMs, log[..|log| - 1])
  {
    BufferedCovers(bufferMs, log);
  }

  /** Nothing moves between openings: the buffer starts where the last one stopped. */
  lemma {:induction false} BufferedStops(bufferMs: int, log: seq<Emission>, before: nat, start: nat)
    requires log != []
    requires before == Start(bufferMs, log[..LastOpening(log)]) && start == Start(bufferMs, log)
    ensures StopsAt(log, before, start, LastCutoff(bufferMs, log))
  {
    if Opens(log, |log| - 1) {
      OpeningStops(bufferMs, log, before, start);
    } else {
      var front := log[..|log| - 1];
      LastOpeningFront(log);
      StartStays(bufferMs, log);
      assert log[..LastOpening(log)] == front[..LastOpening(front)];
      BufferedStops(bufferMs, front, before, start);
      StopsLater(log, before, start, LastCutoff(bufferMs, log));
    }
  }

  lemma {:induction false} StopsLater(log: seq<Emission>, k: nat, k': nat, cutoff: int)
    requires log != [] && !Opens(log, |log| - 1) && StopsAt(log[..|log| - 1], k, k', cutoff)
    ensures StopsAt(log, k, k', cutoff)
  {
    var front := log[..|log| - 1];
    assert forall j :: 0 <= j < |front| ==> log[j] == front[j] && Opens(log, j) == Opens(front, j);
    forall m | k' < m < |log| && Opens(log, m)
      ensures Blocked(log, k', m, cutoff)
    {
      assert Blocked(front, k', m, cutoff);
      var j :| k' < j <= m && Opens(front, j) && cutoff < front[j].event.timestamp;
      assert Opens(log, j) && log[j] == front[j];
    }
  }

  /** What the last opening finds already dropped has left the window by its own reading too: each
      opening the buffer had moved past, or to, before it. */
  ghost predicate DroppedAreDue(bufferMs: int, log: seq<Emission>)
    requires log != []
  {
    forall j: nat :: 0 < j <= Start(bufferMs, log[..LastOpening(log)]) && j < |log| && Opens(log, j) ==>
                       log[j].event.timestamp <= LastCutoff(bufferMs, log)
  }

  /** For every log, whatever its clock and timestamps: incremental pruning equals one pruning at the last
      opening if and only if everything dropped before that opening is due at it. */
  lemma {:induction false} OneShotIff(bufferMs: int, log: seq<Emission>)
    requires log != []
    ensures Buffered(bufferMs, log) == Prune(Segmented(log), LastCutoff(bufferMs, log)) <==> DroppedAreDue(bufferMs, log)
  {
    var cutoff, start, before := LastCutoff(bufferMs, log), Start(bufferMs, log), Start(bufferMs, log[..LastOpening(log)]);
    SegmentedCovers(log);
    SegmentedNonEmpty(log);
    var k := PruneStops(log, Segmented(log), 0, cutoff);
    BufferedCovers(bufferMs, log[..LastOpening(log)]);
    BufferedCovers(bufferMs, log);
    BufferedStops(bufferMs, log, before, start);
    if Buffered(bufferMs, log) == Prune(Segmented(log), cutoff) {
      StartIs(bufferMs, log, k);
    }
    if DroppedAreDue(bufferMs, log) {
      StopsAgree(log, k, before, start, cutoff);
      CoversUnique(log, Buffered(bufferMs, log), Prune(Segmented(log), cutoff), k);
    }
  }

  lemma {:induction false} StopsAgree(log: seq<Emission>, k: nat, before: nat, start: nat, cutoff: int)
    requires StopsAt(log, 0, k, cutoff) && StopsAt(log, before, start, cutoff)
    requires Opens(log, k) && Opens(log, start)
    requires forall j :: 0 < j <= before && j < |log| && Opens(log, j) ==> log[j].event.timestamp <= cutoff
    ensures k == start
  {
  }

  /** A log that misses the condition, every event stamped with the reading of its emission: the clock
      goes back, and the incremental pruning has dropped what one pruning with the last cutoff keeps. */
  lemma {:induction false} ClockMustNotGoBack()
    ensures exists bufferMs, log ::
              && log != [] && StampedWhenEmitted(log) && !ClockInOrder(log)
              && Buffered(bufferMs, log) != Prune(Segmented(log), LastCutoff(bufferMs, log))
  {
    var e0 := Emission(RawEvent(2, NoData, 0), true, 0);
    var e1 := Emission(RawEvent(2, NoData, 10), true, 10);
    var e2 := Emission(RawEvent(2, NoData, 5), true, 5);
    var log := [e0, e1, e2];
    assert log[..2] == [e0, e1] && [e0, e1][..1] == [e0] && [e0][..0] == [];
    var a, b, c := [e0.event], [e1.event], [e2.event];
    assert Buffered(0, [e0]) == [a];
    assert Prune([a, b], 10) == [b] by { assert [a, b][1..] == [b]; }
    assert Buffered(0, [e0, e1]) == [b];
    assert Prune([b, c], 5) == [c] by { assert [b, c][1..] == [c]; }
    assert Buffered(0, log) == [c];
    assert Segmented([e0]) == [a];
    assert Segmented([e0, e1]) == [a, b];
    assert Segmented(log) == [a, b, c];
    assert Prune([a, b, c], 5) == [a, b, c];
    assert LastOpening(log) == 2;
    assert log[1].now > log[2].now;
  }
}
