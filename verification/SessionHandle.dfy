/** The browser's session and share-token store (packages/browser/src/session.ts).

    Generated identifiers are numbers drawn from a counter, which makes every one of them fresh; a
    zero stands for the empty string. */
module SessionHandle {
  import opened Prelude

  const SESSION_TTL_MS := 30 * 60 * 1000

  type Id = nat

  datatype Handle = Handle(id: Id, shareToken: Id)

  /** What the storage slot holds: nothing, text that does not decode, or a stored session. */
  datatype Item = Missing | Garbled | Stored(id: Id, shareToken: Id, expiresAt: int)

  /** What the storage does to one call: whether reading works, whether the refreshing write works
      and whether the write of a new session works. */
  datatype Faults = Faults(readFails: bool, refreshFails: bool, storeFails: bool)

  /** Whether the stored session is still good at `now`. */
  predicate Live(item: Item, now: int) {
    item.Stored? && now < item.expiresAt && item.id != 0
  }

  /** One call: `now` is the reading of the expiry check, `later` the one of the write. */
  datatype Call = Call(now: int, later: int, faults: Faults)

  /** The storage slot, and the first identifier not generated yet. */
  datatype Slot = Slot(item: Item, nextId: Id)

  /** Whether the call brings back the stored session: it could be read, it is live, and its expiry
      could be pushed out. */
  predicate Refreshes(s: Slot, c: Call) {
    !c.faults.readFails && Live(s.item, c.now) && !c.faults.refreshFails
  }

  /** The slot after one call, and the handle it returns. */
  function Fetched(s: Slot, c: Call): (Slot, Handle) {
    var expiresAt := c.later + SESSION_TTL_MS;
    var legacy := !c.faults.readFails && Live(s.item, c.now) && s.item.shareToken == 0;
    var next := if legacy then s.nextId + 1 else s.nextId;
    if Refreshes(s, c) then
      var h := Handle(s.item.id, if legacy then s.nextId else s.item.shareToken);
      (Slot(Stored(h.id, h.shareToken, expiresAt), next), h)
    else
      var h := Handle(next, next + 1);
      (Slot(if c.faults.storeFails then s.item else Stored(h.id, h.shareToken, expiresAt), next + 2), h)
  }

  /** What one call returns and stores. A stored session that can be read, has not expired and has an id is
      brought back, with its own token or, if it has none yet, a new one, and its expiry pushed out by half
      an hour, provided that write works. Otherwise id and token are new, and kept unless storing fails. */
  lemma {:induction false} FetchDecides(s: Slot, c: Call)
    ensures
      var (s', h) := Fetched(s, c);
      var kept := !c.faults.readFails && s.item.Stored? && s.item.id != 0 && c.now < s.item.expiresAt && !c.faults.refreshFails;
      && s.nextId <= s'.nextId
      && (kept ==> h.id == s.item.id && s'.item == Stored(h.id, h.shareToken, c.later + 1_800_000))
      && (kept && s.item.shareToken != 0 ==> h.shareToken == s.item.shareToken)
      && (kept && s.item.shareToken == 0 ==> s.nextId <= h.shareToken < s'.nextId)
      && (!kept ==> s.nextId <= h.id < s'.nextId && s.nextId <= h.shareToken < s'.nextId && h.id != h.shareToken)
      && (!kept ==> s'.item == if c.faults.storeFails then s.item else Stored(h.id, h.shareToken, c.later + 1_800_000))
  {
  }

  function Run(s: Slot, calls: seq<Call>): (r: (Slot, seq<Handle>))
    ensures |r.1| == |calls|
  {
    if calls == [] then (s, [])
    else
      var (before, hs) := Run(s, calls[..|calls| - 1]);
      var (after, h) := Fetched(before, calls[|calls| - 1]);
      (after, hs + [h])
  }

  /** A slot some earlier page of the tab may have left: nothing in it will be generated again. */
  ghost predicate Possible(s: Slot) {
    0 < s.nextId && (s.item.Stored? ==> s.item.id < s.nextId && s.item.shareToken < s.nextId)
  }

  /** No id has been returned with two tokens, nor with a token other than the stored one, and
      nothing in use can be generated again. */
  ghost predicate Consistent(s: Slot, hs: seq<Handle>) {
    && Possible(s)
    && (forall i :: 0 <= i < |hs| ==> 0 < hs[i].id < s.nextId && 0 < hs[i].shareToken < s.nextId)
    && (forall i, j :: 0 <= i < |hs| && 0 <= j < |hs| && hs[i].id == hs[j].id ==> hs[i] == hs[j])
    && (forall i :: 0 <= i < |hs| && s.item.Stored? && s.item.id == hs[i].id ==> s.item.shareToken == hs[i].shareToken)
  }

  lemma {:induction false} FetchedConsistent(s: Slot, hs: seq<Handle>, c: Call)
    requires Consistent(s, hs)
    ensures Consistent(Fetched(s, c).0, hs + [Fetched(s, c).1])
  {
  }

  lemma {:induction false} RunConsistent(s: Slot, calls: seq<Call>)
    requires Possible(s)
    ensures Consistent(Run(s, calls).0, Run(s, calls).1)
  {
    if calls != [] {
      var front := calls[..|calls| - 1];
      RunConsistent(s, front);
      FetchedConsistent(Run(s, front).0, Run(s, front).1, calls[|calls| - 1]);
    }
  }

  /** Whatever the storage does to any number of calls, no id is ever returned with two different
      share tokens. */
  lemma {:induction false} OneTokenPerId(s: Slot, calls: seq<Call>, i: nat, j: nat)
    requires Possible(s) && i < |calls| && j < |calls|
    requires Run(s, calls).1[i].id == Run(s, calls).1[j].id
    ensures Run(s, calls).1[i].shareToken == Run(s, calls).1[j].shareToken
  {
    RunConsistent(s, calls);
  }

  /** Whether call `i + 1` still finds the session call `i` left. */
  predicate WithinTtl(calls: seq<Call>, i: nat)
    requires i + 1 < |calls|
  {
    calls[i + 1].now < calls[i].later + SESSION_TTL_MS
  }

  /** With working storage the session slides: a call returns the handle of the call before it
      exactly when it comes within the time to live. */
  lemma {:induction false} SlidingExpiry(s: Slot, calls: seq<Call>, i: nat)
    requires Possible(s) && i + 1 < |calls|
    requires forall k :: 0 <= k < |calls| ==> calls[k].faults == Faults(false, false, false)
    ensures Run(s, calls).1[i + 1] == Run(s, calls).1[i] <==> WithinTtl(calls, i)
  {
    RunPrefix(s, calls, i + 1);
    RunPrefix(s, calls, i + 2);
    RunConsistent(s, calls[..i + 1]);
    assert calls[..i + 2][..i + 1] == calls[..i + 1];
    assert calls[..i + 1][i] == calls[i] && calls[..i + 2][i + 1] == calls[i + 1];
  }

  lemma {:induction false} RunPrefix(s: Slot, calls: seq<Call>, n: nat)
    requires n <= |calls|
    ensures Run(s, calls[..n]).1 == Run(s, calls).1[..n]
    decreases |calls|
  {
    if n < |calls| {
      var front := calls[..|calls| - 1];
      RunPrefix(s, front, n);
      assert front[..n] == calls[..n];
    } else {
      assert calls[..n] == calls;
    }
  }

  class Store {
    var item: Item
    var nextId: Id

    ghost function View(): Slot
      reads this
    {
      Slot(item, nextId)
    }

    method GenerateId() returns (id: Id)
      modifies this`nextId
      ensures id == old(nextId) && nextId == id + 1
    {
      id := nextId;
      nextId := nextId + 1;
    }

    method GetOrCreateSession(c: Call) returns (h: Handle)
      modifies this
      ensures (View(), h) == Fetched(old(View()), c)
    {
      if !c.faults.readFails && Live(item, c.now) {
        var token := item.shareToken;
        if token == 0 {
          token := GenerateId();
        }
        if !c.faults.refreshFails {
          h := Handle(item.id, token);
          item := Stored(h.id, h.shareToken, c.later + SESSION_TTL_MS);
          return;
        }
      }
      var id := GenerateId();
      var token := GenerateId();
      h := Handle(id, token);
      if !c.faults.storeFails {
        item := Stored(h.id, h.shareToken, c.later + SESSION_TTL_MS);
      }
    }
  }
}
