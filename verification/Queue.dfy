/** The Redis stream with its consumer group (internal/queue/queue.go). Every worker process uses the
    same consumer name, so the entries delivered but not acknowledged are one set. */
module Queue {
  import opened Prelude

  /** An entry's id is its position; `cursor` is the first entry not delivered yet. */
  datatype State<T> = State(entries: seq<T>, cursor: nat, pending: set<nat>)
  {
    ghost predicate Valid() {
      cursor <= |entries| && forall id :: id in pending ==> id < cursor
    }
  }

  function Added<T>(q: State<T>, x: T): State<T> {
    q.(entries := q.entries + [x])
  }

  function Delivered<T>(q: State<T>): State<T> {
    q.(cursor := q.cursor + 1, pending := q.pending + {q.cursor})
  }

  function Acked<T>(q: State<T>, id: nat): State<T> {
    q.(pending := q.pending - {id})
  }

  /** The pending ids below `n`, oldest first. */
  function PendingBelow(pending: set<nat>, n: nat): (r: seq<nat>)
    ensures forall i :: 0 <= i < |r| ==> r[i] < n && r[i] in pending
    ensures forall id :: id in pending && id < n ==> id in r
  {
    if n == 0 then []
    else PendingBelow(pending, n - 1) + if n - 1 in pending then [n - 1] else []
  }

  const RECLAIM_LIMIT := 100

  /** What a reclaiming read returns: the oldest pending ids, at most the limit of one read. */
  function Reclaimable<T>(q: State<T>): seq<nat> {
    var ids := PendingBelow(q.pending, q.cursor);
    if |ids| <= RECLAIM_LIMIT then ids else ids[..RECLAIM_LIMIT]
  }

  /** The well-formed messages among `ids`, in order; an entry without a payload is `None`. */
  function Messages<T>(entries: seq<Option<T>>, ids: seq<nat>): seq<(nat, T)>
    requires forall i :: 0 <= i < |ids| ==> ids[i] < |entries|
  {
    if ids == [] then []
    else
      var front, id := Messages(entries, ids[..|ids| - 1]), ids[|ids| - 1];
      match entries[id]
      case None => front
      case Some(x) => front + [(id, x)]
  }

  ghost predicate Ascending(ids: seq<nat>) {
    forall i, j :: 0 <= i < j < |ids| ==> ids[i] < ids[j]
  }

  lemma {:induction false} PendingInOrder(pending: set<nat>, n: nat)
    ensures Ascending(PendingBelow(pending, n))
  {
    if n != 0 { PendingInOrder(pending, n - 1); }
  }

  /** A reclaiming read takes up the pending entries from the oldest on: in order, and one it leaves out
      is younger than all of a full hundred it takes. */
  lemma {:induction false} ReclaimsOldest<T>(q: State<T>)
    requires q.Valid()
    ensures
      var ids := Reclaimable(q);
      && Ascending(ids) && |ids| <= 100
      && (forall i :: 0 <= i < |ids| ==> ids[i] in q.pending)
      && (forall id :: id in q.pending && id !in ids ==>
            |ids| == 100 && forall i :: 0 <= i < |ids| ==> ids[i] < id)
  {
    PendingInOrder(q.pending, q.cursor);
    var all, ids := PendingBelow(q.pending, q.cursor), Reclaimable(q);
    forall id | id in q.pending && id !in ids
      ensures |ids| == 100 && forall i :: 0 <= i < |ids| ==> ids[i] < id
    {
      var k :| 0 <= k < |all| && all[k] == id;
    }
  }

  /** The messages read out are those entries among `ids` that have a payload, in the order of `ids`. */
  lemma {:induction false} MessagesAre<T>(entries: seq<Option<T>>, ids: seq<nat>)
    requires Ascending(ids) && forall i :: 0 <= i < |ids| ==> ids[i] < |entries|
    ensures
      var msgs := Messages(entries, ids);
      && (forall k :: 0 <= k < |msgs| ==> IsMessage(entries, ids, msgs[k]))
      && (forall i, j :: 0 <= i < j < |msgs| ==> msgs[i].0 < msgs[j].0)
      && (forall id :: id in ids && entries[id].Some? ==> (id, entries[id].value) in msgs)
  {
    if ids != [] {
      var n := |ids| - 1;
      MessagesAre(entries, ids[..n]);
      var front := Messages(entries, ids[..n]);
      forall k | 0 <= k < |front|
        ensures IsMessage(entries, ids, front[k]) && front[k].0 < ids[n]
      {
        var i := Position(ids[..n], front[k].0);
        assert ids[i] == front[k].0;
      }
    }
  }

  ghost predicate IsMessage<T>(entries: seq<Option<T>>, ids: seq<nat>, msg: (nat, T)) {
    msg.0 in ids && msg.0 < |entries| && entries[msg.0] == Some(msg.1)
  }

  lemma {:induction false} Position(ids: seq<nat>, id: nat) returns (i: nat)
    requires id in ids
    ensures i < |ids| && ids[i] == id
  {
    i :| 0 <= i < |ids| && ids[i] == id;
  }

  /** The entries among `ids` that have no payload, in order. */
  function Malformed<T>(entries: seq<Option<T>>, ids: seq<nat>): (r: seq<nat>)
    requires forall i :: 0 <= i < |ids| ==> ids[i] < |entries|
    ensures forall id :: id in r <==> id in ids && entries[id].None?
    ensures |r| <= |ids|
  {
    if ids == [] then []
    else
      var front, id := Malformed(entries, ids[..|ids| - 1]), ids[|ids| - 1];
      if entries[id].None? then front + [id] else front
  }

  datatype ReadResult<T> = ReadError | Nothing | Message(id: nat, payload: T)

  /** What the code sends to the server, and how that ended. */
  datatype Command = Add | ReadNext | ReadPending | Acknowledge(id: nat)

  datatype Sent = Sent(command: Command, outcome: Outcome)

  /** One more command was sent. */
  ghost predicate Sends(before: seq<Sent>, after: seq<Sent>, command: Command) {
    |after| == |before| + 1 && before <= after && after[|before|].command == command
  }

  /** What a read does and answers, by how its commands ended. The next undelivered entry becomes pending
      even when the answer gets lost; one with no payload is acknowledged and skipped. */
  ghost predicate ReadAnswers<T>(q: State<Option<T>>, q': State<Option<T>>, r: ReadResult<T>, sent: seq<Sent>) {
    && sent != [] && sent[0].command == ReadNext
    && if sent[0].outcome == Refused then
         |sent| == 1 && r == ReadError && q' == q
       else if q.cursor == |q.entries| then
         |sent| == 1 && r == (if sent[0].outcome == Ok then Nothing else ReadError) && q' == q
       else if sent[0].outcome == Unconfirmed then
         |sent| == 1 && r == ReadError && q' == Delivered(q)
       else if q.cursor < |q.entries| && q.entries[q.cursor].Some? then
         |sent| == 1 && r == Message(q.cursor, q.entries[q.cursor].value) && q' == Delivered(q)
       else
         && |sent| == 2 && sent[1].command == Acknowledge(q.cursor) && r == Nothing
         && q' == if sent[1].outcome == Refused then Delivered(q) else Acked(Delivered(q), q.cursor)
  }

  class Stream<T> {
    var entries: seq<Option<T>>
    var cursor: nat
    var pending: set<nat>
    ghost var log: seq<Sent>

    ghost function View(): State<Option<T>>
      reads this
    {
      State(entries, cursor, pending)
    }

    constructor ()
      ensures View() == State([], 0, {}) && View().Valid() && log == []
    {
      entries, cursor, pending, log := [], 0, {}, [];
    }

    /** An error leaves open whether the entry was added. */
    method Enqueue(x: T) returns (err: bool)
      requires View().Valid()
      modifies this`entries, this`log
      ensures View().Valid() && Sends(old(log), log, Add)
      ensures
        var o := log[|old(log)|].outcome;
        View() == (if o == Refused then old(View()) else Added(old(View()), Some(x))) && (err <==> o != Ok)
    {
      var o := Fate();
      if o != Refused {
        entries := entries + [Some(x)];
      }
      log := log + [Sent(Add, o)];
      err := o != Ok;
    }

    /** Acknowledging twice is harmless; an error leaves open whether it took effect. */
    method Ack(id: nat) returns (err: bool)
      requires View().Valid()
      modifies this`pending, this`log
      ensures View().Valid() && Sends(old(log), log, Acknowledge(id))
      ensures
        var o := log[|old(log)|].outcome;
        View() == (if o == Refused then old(View()) else Acked(old(View()), id)) && (err <==> o != Ok)
    {
      var o := Fate();
      if o != Refused {
        pending := pending - {id};
      }
      log := log + [Sent(Acknowledge(id), o)];
      err := o != Ok;
    }

    method Read() returns (r: ReadResult<T>)
      requires View().Valid()
      modifies this`cursor, this`pending, this`log
      ensures View().Valid() && old(log) <= log
      ensures ReadAnswers(old(View()), View(), r, log[|old(log)|..])
    {
      var o := Fate();
      log := log + [Sent(ReadNext, o)];
      if o == Refused {
        return ReadError;
      }
      if cursor == |entries| {
        return if o == Ok then Nothing else ReadError;
      }
      var id := cursor;
      cursor, pending := cursor + 1, pending + {cursor};
      if o == Unconfirmed {
        return ReadError;
      }
      match entries[id] {
        case None =>
          var _ := Ack(id);
          r := Nothing;
        case Some(x) =>
          r := Message(id, x);
      }
    }

    /** The messages of the reclaimable entries. Those without a payload are acknowledged one by one, and
        only such a one leaves the pending set, if its acknowledgement took effect. */
    method ReclaimPending() returns (r: Option<seq<(nat, T)>>)
      requires View().Valid()
      modifies this`pending, this`log
      ensures View().Valid() && cursor == old(cursor) && entries == old(entries)
      ensures |old(log)| < |log| && old(log) <= log && log[|old(log)|].command == ReadPending
      ensures log[|old(log)|].outcome != Ok ==> r.None? && pending == old(pending) && |log| == |old(log)| + 1
      ensures log[|old(log)|].outcome == Ok ==>
                var ids := Reclaimable(old(View()));
                var bad := Malformed(entries, ids);
                && r == Some(Messages(entries, ids))
                && Acknowledged(old(pending), pending, bad, log[|old(log)| + 1..])
    {
      var o := Fate();
      log := log + [Sent(ReadPending, o)];
      if o != Ok {
        return None;
      }
      var ids := PendingBelow(pending, cursor);
      if |ids| > RECLAIM_LIMIT {
        ids := ids[..RECLAIM_LIMIT];
      }
      var msgs := TakeUp(ids);
      r := Some(msgs);
    }

    /** The messages of the given entries; one without a payload is acknowledged instead. */
    method TakeUp(ids: seq<nat>) returns (msgs: seq<(nat, T)>)
      requires View().Valid() && forall i :: 0 <= i < |ids| ==> ids[i] < |entries|
      modifies this`pending, this`log
      ensures View().Valid() && old(log) <= log
      ensures msgs == Messages(entries, ids)
      ensures Acknowledged(old(pending), pending, Malformed(entries, ids), log[|old(log)|..])
    {
      msgs := [];
      for i := 0 to |ids|
        invariant View().Valid()
        invariant msgs == Messages(entries, ids[..i])
        invariant old(log) <= log && Acknowledged(old(pending), pending, Malformed(entries, ids[..i]), log[|old(log)|..])
      {
        assert ids[..i + 1][..i] == ids[..i];
        match entries[ids[i]] {
          case None =>
            ghost var before, was := log, pending;
            var _ := Ack(ids[i]);
            AcknowledgedOne(old(pending), was, pending, Malformed(entries, ids[..i]), before[|old(log)|..], log[|old(log)|..], ids[i]);
          case Some(x) =>
            msgs := msgs + [(ids[i], x)];
        }
      }
      assert ids[..|ids|] == ids;
    }
  }

  /** The entries `bad` were acknowledged in order, and those whose acknowledgement took effect, and no
      others, have left the pending set. */
  ghost predicate Acknowledged(before: set<nat>, after: set<nat>, bad: seq<nat>, sent: seq<Sent>) {
    && |sent| == |bad| && (forall k :: 0 <= k < |bad| ==> sent[k].command == Acknowledge(bad[k]))
    && after == before - (set k | 0 <= k < |bad| && sent[k].outcome != Refused :: bad[k])
  }

  lemma {:induction false} AcknowledgedOne(start: set<nat>, before: set<nat>, after: set<nat>, bad: seq<nat>, sent: seq<Sent>, sent': seq<Sent>, id: nat)
    requires Acknowledged(start, before, bad, sent)
    requires |sent'| == |sent| + 1 && sent <= sent' && sent'[|sent|].command == Acknowledge(id)
    requires after == if sent'[|sent|].outcome == Refused then before else before - {id}
    ensures Acknowledged(start, after, bad + [id], sent')
  {
    var bad' := bad + [id];
    var gone, gone' := (set k | 0 <= k < |bad| && sent[k].outcome != Refused :: bad[k]),
                       (set k | 0 <= k < |bad'| && sent'[k].outcome != Refused :: bad'[k]);
    forall x
      ensures x in gone' <==> x in gone || (x == id && sent'[|sent|].outcome != Refused)
    {
      if x in gone {
        var k :| 0 <= k < |bad| && sent[k].outcome != Refused && bad[k] == x;
        assert sent'[k] == sent[k] && bad'[k] == x;
      }
      if sent'[|sent|].outcome != Refused {
        assert bad'[|bad|] == id && sent'[|bad|].outcome != Refused;
      }
      if x in gone' {
        var k :| 0 <= k < |bad'| && sent'[k].outcome != Refused && bad'[k] == x;
        if k < |bad| {
          assert sent[k] == sent'[k] && bad[k] == x;
        }
      }
    }
  }
}
