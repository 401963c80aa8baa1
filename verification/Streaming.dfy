/** The streaming buffer of the recorder's always mode (packages/browser/src/index.ts): the first
    full snapshot is uploaded at once, everything else is buffered and flushed by size, timer, page
    hide, report or stop. */
module Streaming {
  import opened Prelude
  import opened Rrweb

  datatype Stream = Stream(uploads: seq<seq<RawEvent>>, pending: seq<RawEvent>, firstSnapshot: bool)

  const EMPTY := Stream([], [], true)

  datatype Op = Emit(event: RawEvent) | Flush

  function Flushed(s: Stream): Stream {
    if s.pending == [] then s else Stream(s.uploads + [s.pending], [], s.firstSnapshot)
  }

  /** Whether this emission is the snapshot that bypasses the buffer. */
  predicate Bypasses(s: Stream, e: RawEvent) {
    e.kind == FULL_SNAPSHOT && s.firstSnapshot
  }

  /** One operation. `size` is the length of the encoded buffer, `limit` the flush threshold. */
  function Stepped(size: seq<RawEvent> -> nat, limit: int, s: Stream, op: Op): Stream {
    match op
    case Flush => Flushed(s)
    case Emit(e) =>
      if Bypasses(s, e) then Stream(s.uploads + [[e]], s.pending, false)
      else
        var grown := s.(pending := s.pending + [e]);
        if limit <= size(grown.pending) then Flushed(grown) else grown
  }

  function Run(size: seq<RawEvent> -> nat, limit: int, ops: seq<Op>): Stream {
    if ops == [] then EMPTY else Stepped(size, limit, Run(size, limit, ops[..|ops| - 1]), ops[|ops| - 1])
  }

  /** Everything emitted, in order. */
  function Emitted(ops: seq<Op>): seq<RawEvent> {
    if ops == [] then []
    else
      var front := Emitted(ops[..|ops| - 1]);
      match ops[|ops| - 1]
      case Emit(e) => front + [e]
      case Flush => front
  }

  /** The index of the first full snapshot, or the length. */
  function FirstSnapshot(log: seq<RawEvent>): (k: nat)
    ensures k <= |log|
    ensures forall i :: 0 <= i < k ==> log[i].kind != FULL_SNAPSHOT
    ensures k < |log| ==> log[k].kind == FULL_SNAPSHOT
  {
    if log == [] then 0
    else
      var k := FirstSnapshot(log[..|log| - 1]);
      if k < |log| - 1 || log[|log| - 1].kind == FULL_SNAPSHOT then k else |log|
  }

  /** How many events had been uploaded when the first full snapshot was emitted. */
  function SnapshotCut(size: seq<RawEvent> -> nat, limit: int, ops: seq<Op>): nat {
    if ops == [] then 0
    else
      var front, op := ops[..|ops| - 1], ops[|ops| - 1];
      if op.Emit? && Bypasses(Run(size, limit, front), op.event)
      then |Flatten(Run(size, limit, front).uploads)|
      else SnapshotCut(size, limit, front)
  }

  /** The log with its first full snapshot, if any, moved forward to position `cut`. */
  function Arranged(log: seq<RawEvent>, cut: nat): seq<RawEvent>
    requires cut <= FirstSnapshot(log)
  {
    var k := FirstSnapshot(log);
    if k == |log| then log else log[..cut] + [log[k]] + log[cut..k] + log[k + 1..]
  }

  lemma {:induction false} ArrangedSnoc(log: seq<RawEvent>, cut: nat, e: RawEvent)
    requires cut <= FirstSnapshot(log)
    requires e.kind != FULL_SNAPSHOT || FirstSnapshot(log) < |log|
    ensures cut <= FirstSnapshot(log + [e])
    ensures Arranged(log + [e], cut) == Arranged(log, cut) + [e]
    ensures FirstSnapshot(log + [e]) == |log + [e]| <==> FirstSnapshot(log) == |log|
  {
    assert (log + [e])[..|log|] == log;
    var k := FirstSnapshot(log);
    if k < |log| {
      assert (log + [e])[..cut] == log[..cut];
      assert (log + [e])[cut..k] == log[cut..k];
      assert (log + [e])[k + 1..] == log[k + 1..] + [e];
    }
  }

  lemma {:induction false} ArrangedFirst(log: seq<RawEvent>, cut: nat, e: RawEvent)
    requires FirstSnapshot(log) == |log| && cut <= |log| && e.kind == FULL_SNAPSHOT
    ensures FirstSnapshot(log + [e]) == |log|
    ensures Arranged(log + [e], cut) == log[..cut] + [e] + log[cut..]
  {
    var log' := log + [e];
    assert log'[..|log'| - 1] == log;
    assert log'[..cut] == log[..cut];
    assert log'[cut..|log|] == log[cut..];
    assert log'[|log| + 1..] == [];
  }

  /** All uploads in order, then the pending buffer. */
  function Handed(s: Stream): seq<RawEvent> {
    Flatten(s.uploads) + s.pending
  }

  lemma {:induction false} FlushedKeeps(s: Stream)
    ensures Handed(Flushed(s)) == Handed(s) && Flushed(s).pending == []
  {
    FlattenSnoc(s.uploads, s.pending);
  }

  /** Uploading the first snapshot at once puts it between the uploads and the buffer. */
  lemma {:induction false} BypassKeeps(s: Stream, log: seq<RawEvent>, e: RawEvent)
    requires Handed(s) == log && FirstSnapshot(log) == |log| && e.kind == FULL_SNAPSHOT
    ensures FirstSnapshot(log + [e]) == |log| && |Flatten(s.uploads)| <= |log|
    ensures Handed(Stream(s.uploads + [[e]], s.pending, false)) == Arranged(log + [e], |Flatten(s.uploads)|)
  {
    var n := |Flatten(s.uploads)|;
    FlattenSnoc(s.uploads, [e]);
    ArrangedFirst(log, n, e);
    assert log[..n] == Flatten(s.uploads) && log[n..] == s.pending;
  }

  ghost predicate Conserves(s: Stream, log: seq<RawEvent>, cut: nat) {
    && cut <= FirstSnapshot(log)
    && Handed(s) == Arranged(log, cut)
    && (s.firstSnapshot <==> FirstSnapshot(log) == |log|)
  }

  lemma {:induction false} EmitConserves(size: seq<RawEvent> -> nat, limit: int, s: Stream, log: seq<RawEvent>, cut: nat, e: RawEvent)
    requires Conserves(s, log, cut)
    ensures Conserves(Stepped(size, limit, s, Emit(e)), log + [e], if Bypasses(s, e) then |Flatten(s.uploads)| else cut)
  {
    if Bypasses(s, e) {
      BypassKeeps(s, log, e);
    } else {
      ArrangedSnoc(log, cut, e);
      var grown := s.(pending := s.pending + [e]);
      assert Handed(grown) == Handed(s) + [e];
      FlushedKeeps(grown);
    }
  }

  /** Conservation: uploads and buffer together are the emitted log, nothing lost, doubled or
      reordered, except that the first full snapshot stands ahead of the events then pending. */
  lemma {:induction false} Conservation(size: seq<RawEvent> -> nat, limit: int, ops: seq<Op>)
    ensures Conserves(Run(size, limit, ops), Emitted(ops), SnapshotCut(size, limit, ops))
  {
    if ops != [] {
      var front, op := ops[..|ops| - 1], ops[|ops| - 1];
      Conservation(size, limit, front);
      var s := Run(size, limit, front);
      match op {
        case Flush => FlushedKeeps(s);
        case Emit(e) => EmitConserves(size, limit, s, Emitted(front), SnapshotCut(size, limit, front), e);
      }
    }
  }

  /** After every operation the buffer is empty or encodes below the flush threshold. */
  lemma {:induction false} PendingStaysSmall(size: seq<RawEvent> -> nat, limit: int, ops: seq<Op>)
    ensures var s := Run(size, limit, ops); s.pending == [] || size(s.pending) < limit
  {
    if ops != [] { PendingStaysSmall(size, limit, ops[..|ops| - 1]); }
  }

  /** Upload `u` was made by operation `k`, and for a reason: a flush handed over the whole buffer; the first
      full snapshot went out at once, alone; or an emission brought the buffer up to the threshold, which
      it had not reached before. */
  ghost predicate MadeBy(size: seq<RawEvent> -> nat, limit: int, ops: seq<Op>, u: nat, k: nat) {
    && k < |ops| && u < |Run(size, limit, ops).uploads|
    && var before, log, upload := Run(size, limit, ops[..k]), Emitted(ops[..k]), Run(size, limit, ops).uploads[u];
       && |before.uploads| == u
       && match ops[k]
          case Flush => upload == before.pending && upload != []
          case Emit(e) =>
            || (e.kind == 2 && upload == [e] && forall i :: 0 <= i < |log| ==> log[i].kind != 2)
            || (upload == before.pending + [e] && limit <= size(upload) && (before.pending == [] || size(before.pending) < limit))
  }

  /** Every upload was made for one of these reasons: the buffer is not cut anywhere else. */
  lemma {:induction false} UploadsHaveReasons(size: seq<RawEvent> -> nat, limit: int, ops: seq<Op>, u: nat) returns (k: nat)
    requires u < |Run(size, limit, ops).uploads|
    ensures MadeBy(size, limit, ops, u, k)
    decreases |ops|
  {
    var front, n := ops[..|ops| - 1], |ops| - 1;
    var before := Run(size, limit, front);
    if u < |before.uploads| {
      k := UploadsHaveReasons(size, limit, front, u);
      assert front[..k] == ops[..k] && front[k] == ops[k];
      assert Run(size, limit, ops).uploads[u] == before.uploads[u];
    } else {
      k := n;
      PendingStaysSmall(size, limit, front);
      Conservation(size, limit, front);
    }
  }

  /** What one emission does: the first full snapshot is uploaded at once and leaves the buffer alone;
      otherwise the event is buffered, and the buffer is uploaded if and only if it reaches the
      threshold. */
  lemma {:induction false} EmissionDecides(size: seq<RawEvent> -> nat, limit: int, ops: seq<Op>, e: RawEvent)
    ensures
      var s, s', log := Run(size, limit, ops), Run(size, limit, ops + [Emit(e)]), Emitted(ops);
      if e.kind == 2 && (forall i :: 0 <= i < |log| ==> log[i].kind != 2)
      then s'.uploads == s.uploads + [[e]] && s'.pending == s.pending
      else if size(s.pending + [e]) < limit
      then s'.uploads == s.uploads && s'.pending == s.pending + [e]
      else s'.uploads == s.uploads + [s.pending + [e]] && s'.pending == []
  {
    assert (ops + [Emit(e)])[..|ops|] == ops;
    Conservation(size, limit, ops);
  }

  /** A final flush, as `stop` makes, hands over everything that was emitted. */
  lemma {:induction false} StopHandsOverEverything(size: seq<RawEvent> -> nat, limit: int, ops: seq<Op>)
    ensures
      var s, log, cut := Run(size, limit, ops + [Flush]), Emitted(ops), SnapshotCut(size, limit, ops);
      && s.pending == []
      && cut <= FirstSnapshot(log) && Flatten(s.uploads) == Arranged(log, cut)
      && multiset(Flatten(s.uploads)) == multiset(log)
  {
    Conservation(size, limit, ops);
    assert (ops + [Flush])[..|ops|] == ops;
    var s := Run(size, limit, ops);
    FlushedKeeps(s);
    ArrangedPermutes(Emitted(ops), SnapshotCut(size, limit, ops));
    assert Handed(Flushed(s)) == Flatten(Flushed(s).uploads);
  }

  lemma {:induction false} ArrangedPermutes(log: seq<RawEvent>, cut: nat)
    requires cut <= FirstSnapshot(log)
    ensures multiset(Arranged(log, cut)) == multiset(log)
  {
    var k := FirstSnapshot(log);
    if k < |log| {
      assert log == log[..cut] + log[cut..k] + [log[k]] + log[k + 1..];
    }
  }
}
