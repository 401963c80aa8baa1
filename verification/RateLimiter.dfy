/** The per-key token-bucket limiter of the writer (internal/middleware/middleware.go).

    The bucket keeps two numbers. The specification it is proved against keeps the whole call
    history of a key and counts the allowed calls of every window ending now. Clock readings are
    taken before the lock, so nothing here assumes that they arrive in order, except where said. */
module RateLimiter {
  import opened Prelude

  datatype Bucket = Bucket(tokens: real, last: real)

  /** One call on one key: the reading of the clock it carried and the answer it got. */
  datatype Call = Call(at: real, allowed: bool)

  /** The number of allowed calls among `h[i..]`. */
  function Allowed(h: seq<Call>, i: nat): nat
    requires i <= |h|
    decreases |h| - i
  {
    if i == |h| then 0 else (if h[i].allowed then 1 else 0) + Allowed(h, i + 1)
  }

  /** The number of calls a window from `from` to `to` may let through. */
  ghost function Budget(rate: real, burst: real, from: real, to: real): real {
    burst + rate * (to - from)
  }

  lemma {:induction false} BudgetShift(rate: real, burst: real, from: real, mid: real, to: real)
    ensures Budget(rate, burst, from, to) == Budget(rate, burst, from, mid) + (to - mid) * rate
  {
    var x, y := mid - from, to - mid;
    assert rate * (x + y) == rate * x + rate * y;
    assert to - from == x + y;
  }

  /** The counting specification: one more call at `now` keeps every window, from each earlier call
      to this one and the window of this call alone, within `burst` plus what `rate` has earned. */
  ghost predicate Admits(rate: real, burst: real, h: seq<Call>, now: real) {
    && 1.0 <= burst
    && forall i :: 0 <= i < |h| ==> Allowed(h, i) as real + 1.0 <= Budget(rate, burst, h[i].at, now)
  }

  /** What the window opened by call `i` still leaves at time `now`. */
  ghost function Level(rate: real, burst: real, h: seq<Call>, i: nat, now: real): real
    requires i < |h|
  {
    Budget(rate, burst, h[i].at, now) - Allowed(h, i) as real
  }

  /** The bucket holds the tightest level of any window, as of the last call. */
  ghost predicate Represents(rate: real, burst: real, b: Bucket, h: seq<Call>) {
    && 0 < |h|
    && b.last == h[|h| - 1].at
    && (forall i :: 0 <= i < |h| ==> b.tokens <= Level(rate, burst, h, i, b.last))
    && (exists i :: 0 <= i < |h| && b.tokens == Level(rate, burst, h, i, b.last))
  }

  /** Every answer in the history is the one the specification gives; the first call on a key is
      always let through. */
  ghost predicate Faithful(rate: real, burst: real, h: seq<Call>) {
    forall k :: 0 <= k < |h| ==> h[k].allowed == (k == 0 || Admits(rate, burst, h[..k], h[k].at))
  }

  lemma {:induction false} AllowedSnoc(h: seq<Call>, c: Call, i: nat)
    requires i <= |h|
    ensures Allowed(h + [c], i) == Allowed(h, i) + if c.allowed then 1 else 0
    decreases |h| - i
  {
    if i == |h| {
      assert Allowed(h + [c], i + 1) == 0;
    } else {
      AllowedSnoc(h, c, i + 1);
    }
  }

  lemma {:induction false} AllowedPrefix(h: seq<Call>, i: nat, j: nat)
    requires i <= j < |h|
    ensures Allowed(h[..j + 1], i) == Allowed(h[..j], i) + if h[j].allowed then 1 else 0
  {
    assert h[..j + 1] == h[..j] + [h[j]];
    AllowedSnoc(h[..j], h[j], i);
  }

  lemma {:induction false} AllowedAtMost(h: seq<Call>, i: nat)
    requires i <= |h|
    ensures Allowed(h, i) <= |h| - i
    decreases |h| - i
  {
    if i < |h| { AllowedAtMost(h, i + 1); }
  }

  lemma {:induction false} LevelShift(rate: real, burst: real, h: seq<Call>, i: nat, from: real, to: real)
    requires i < |h|
    ensures Level(rate, burst, h, i, to) == Level(rate, burst, h, i, from) + (to - from) * rate
  {
    BudgetShift(rate, burst, h[i].at, from, to);
  }

  lemma {:induction false} LevelSnoc(rate: real, burst: real, h: seq<Call>, c: Call, i: nat, now: real)
    requires i < |h|
    ensures Level(rate, burst, h + [c], i, now) ==
            Level(rate, burst, h, i, now) - if c.allowed then 1.0 else 0.0
  {
    AllowedSnoc(h, c, i);
  }

  lemma {:induction false} LevelNext(rate: real, burst: real, h: seq<Call>, c: Call, i: nat, from: real, to: real)
    requires i < |h|
    ensures Level(rate, burst, h + [c], i, to) ==
            Level(rate, burst, h, i, from) + (to - from) * rate - if c.allowed then 1.0 else 0.0
  {
    LevelShift(rate, burst, h, i, from, to);
    LevelSnoc(rate, burst, h, c, i, to);
  }

  /** The refilled bucket reaches one token exactly when the counting specification admits a call,
      whatever the order of the readings. */
  lemma {:induction false} RefillDecides(rate: real, burst: real, b: Bucket, h: seq<Call>, now: real)
    requires Represents(rate, burst, b, h)
    ensures (1.0 <= burst && 1.0 <= b.tokens + (now - b.last) * rate) <==> Admits(rate, burst, h, now)
  {
    forall i | 0 <= i < |h|
      ensures Level(rate, burst, h, i, now) == Level(rate, burst, h, i, b.last) + (now - b.last) * rate
    {
      LevelShift(rate, burst, h, i, b.last, now);
    }
    if Admits(rate, burst, h, now) {
      var i :| 0 <= i < |h| && b.tokens == Level(rate, burst, h, i, b.last);
      assert Allowed(h, i) as real + 1.0 <= Budget(rate, burst, h[i].at, now);
      assert 1.0 <= Level(rate, burst, h, i, now);
    }
    if 1.0 <= burst && 1.0 <= b.tokens + (now - b.last) * rate {
      forall i | 0 <= i < |h|
        ensures Allowed(h, i) as real + 1.0 <= Budget(rate, burst, h[i].at, now)
      {
        assert b.tokens <= Level(rate, burst, h, i, b.last);
        assert 1.0 <= Level(rate, burst, h, i, now);
      }
    }
  }

  lemma {:induction false} FirstCall(rate: real, burst: real, now: real)
    ensures Represents(rate, burst, Bucket(burst - 1.0, now), [Call(now, true)])
  {
    var h := [Call(now, true)];
    assert Allowed(h, 0) == 1 + Allowed(h, 1);
    assert rate * 0.0 == 0.0;
    assert Level(rate, burst, h, 0, now) == burst - 1.0;
  }

  /** Refilling and consuming keeps the bucket at the tightest level of the longer history. */
  lemma {:induction false} RepresentsStep(rate: real, burst: real, b: Bucket, h: seq<Call>, now: real, refilled: real, allowed: bool)
    requires Represents(rate, burst, b, h)
    requires refilled == if burst < b.tokens + (now - b.last) * rate then burst
                         else b.tokens + (now - b.last) * rate
    ensures Represents(rate, burst, Bucket(refilled - if allowed then 1.0 else 0.0, now), h + [Call(now, allowed)])
  {
    var gain := (now - b.last) * rate;
    LevelsNext(rate, burst, h, Call(now, allowed), b.last, gain);
    Tightest(rate, burst, b, h, Call(now, allowed), gain);
  }

  /** The levels of all windows after one more call, the old ones `gain` up and all of them charged. */
  lemma {:induction false} LevelsNext(rate: real, burst: real, h: seq<Call>, c: Call, from: real, gain: real)
    requires gain == (c.at - from) * rate
    ensures Level(rate, burst, h + [c], |h|, c.at) == burst - if c.allowed then 1.0 else 0.0
    ensures forall i :: 0 <= i < |h| ==>
                          Level(rate, burst, h + [c], i, c.at) == Level(rate, burst, h, i, from) + gain - if c.allowed then 1.0 else 0.0
  {
    AllowedSnoc(h, c, |h|);
    assert rate * (c.at - c.at) == 0.0;
    forall i | 0 <= i < |h|
      ensures Level(rate, burst, h + [c], i, c.at) == Level(rate, burst, h, i, from) + gain - if c.allowed then 1.0 else 0.0
    {
      LevelNext(rate, burst, h, c, i, from, c.at);
    }
  }

  lemma {:induction false} Tightest(rate: real, burst: real, b: Bucket, h: seq<Call>, c: Call, gain: real)
    requires Represents(rate, burst, b, h)
    requires Level(rate, burst, h + [c], |h|, c.at) == burst - if c.allowed then 1.0 else 0.0
    requires forall i :: 0 <= i < |h| ==>
                           Level(rate, burst, h + [c], i, c.at) == Level(rate, burst, h, i, b.last) + gain - if c.allowed then 1.0 else 0.0
    ensures
      var refilled := if burst < b.tokens + gain then burst else b.tokens + gain;
      Represents(rate, burst, Bucket(refilled - if c.allowed then 1.0 else 0.0, c.at), h + [c])
  {
    var refilled := if burst < b.tokens + gain then burst else b.tokens + gain;
    var h', tokens := h + [c], refilled - if c.allowed then 1.0 else 0.0;
    if burst < b.tokens + gain {
      assert tokens == Level(rate, burst, h', |h|, c.at);
    } else {
      var i :| 0 <= i < |h| && b.tokens == Level(rate, burst, h, i, b.last);
      assert tokens == Level(rate, burst, h', i, c.at);
    }
  }

  /** The tokens after the refill and before the call is charged. */
  function Refilled(rate: real, burst: real, b: Bucket, now: real): real {
    var elapsed := now - b.last;
    if burst < b.tokens + elapsed * rate then burst else b.tokens + elapsed * rate
  }

  /** The bucket a call writes back; no bucket yet means a full burst less this call. */
  function Charged(rate: real, burst: real, b: Option<Bucket>, now: real): (r: (Bucket, bool)) {
    match b
    case None => (Bucket(burst - 1.0, now), true)
    case Some(b) =>
      var tokens := Refilled(rate, burst, b, now);
      if 1.0 <= tokens then (Bucket(tokens - 1.0, now), true) else (Bucket(tokens, now), false)
  }

  /** What one call answers and leaves behind. */
  lemma {:induction false} Decision(rate: real, burst: real, b: Option<Bucket>, h: seq<Call>, now: real)
    requires if b.None? then h == [] else Represents(rate, burst, b.value, h) && Faithful(rate, burst, h)
    ensures
      var (b', ok) := Charged(rate, burst, b, now);
      && ok == (h == [] || Admits(rate, burst, h, now))
      && Represents(rate, burst, b', h + [Call(now, ok)])
      && Faithful(rate, burst, h + [Call(now, ok)])
  {
    var (b', ok) := Charged(rate, burst, b, now);
    match b {
      case None =>
        FirstCall(rate, burst, now);
        assert h + [Call(now, ok)] == [Call(now, true)];
      case Some(b) =>
        RefillDecides(rate, burst, b, h, now);
        RepresentsStep(rate, burst, b, h, now, Refilled(rate, burst, b, now), ok);
    }
    FaithfulSnoc(rate, burst, h, Call(now, ok));
  }

  lemma {:induction false} FaithfulSnoc(rate: real, burst: real, h: seq<Call>, c: Call)
    requires Faithful(rate, burst, h)
    requires c.allowed == (h == [] || Admits(rate, burst, h, c.at))
    ensures Faithful(rate, burst, h + [c])
  {
    var h' := h + [c];
    forall k | 0 <= k < |h'|
      ensures h'[k].allowed == (k == 0 || Admits(rate, burst, h'[..k], h'[k].at))
    {
      if k < |h| { assert h'[..k] == h[..k]; } else { assert h'[..k] == h; }
    }
  }

  /** The bound on every window that ends in an allowed call, for readings in any order. */
  lemma {:induction false} WindowBound(rate: real, burst: real, h: seq<Call>, i: nat, j: nat)
    requires Faithful(rate, burst, h) && 1.0 <= burst
    requires i <= j < |h| && h[j].allowed
    ensures Allowed(h[..j + 1], i) as real <= Budget(rate, burst, h[i].at, h[j].at)
  {
    AllowedPrefix(h, i, j);
    if i < j {
      assert h[..j][i] == h[i];
      assert Admits(rate, burst, h[..j], h[j].at);
    }
  }

  lemma {:induction false} BudgetGrows(rate: real, burst: real, from: real, mid: real, to: real)
    requires 0.0 < rate && mid <= to
    ensures Budget(rate, burst, from, mid) <= Budget(rate, burst, from, to)
  {
    BudgetShift(rate, burst, from, mid, to);
    var x := to - mid;
    assert 0.0 <= x * rate;
  }

  /** A bound that holds up to every allowed call holds up to every call. */
  lemma {:induction false} BoundExtends(rate: real, burst: real, h: seq<Call>, i: nat, j: nat)
    requires 0.0 <= burst && 0.0 < rate
    requires forall a, b :: 0 <= a <= b < |h| ==> h[a].at <= h[b].at
    requires i <= j < |h|
    requires forall k :: i <= k < |h| && h[k].allowed ==>
                           Allowed(h[..k + 1], i) as real <= Budget(rate, burst, h[i].at, h[k].at)
    ensures Allowed(h[..j + 1], i) as real <= Budget(rate, burst, h[i].at, h[j].at)
    decreases j
  {
    if !h[j].allowed {
      AllowedPrefix(h, i, j);
      if i == j {
        BudgetGrows(rate, burst, h[i].at, h[i].at, h[j].at);
      } else {
        BoundExtends(rate, burst, h, i, j - 1);
        BudgetGrows(rate, burst, h[i].at, h[j - 1].at, h[j].at);
      }
    }
  }

  /** With readings in order, the bound on every window whatsoever. */
  lemma {:induction false} EveryWindowBound(rate: real, burst: real, h: seq<Call>, i: nat, j: nat)
    requires Faithful(rate, burst, h) && 1.0 <= burst && 0.0 < rate
    requires forall a, b :: 0 <= a <= b < |h| ==> h[a].at <= h[b].at
    requires i <= j < |h|
    ensures Allowed(h[..j + 1], i) as real <= Budget(rate, burst, h[i].at, h[j].at)
  {
    forall k | i <= k < |h| && h[k].allowed
      ensures Allowed(h[..k + 1], i) as real <= Budget(rate, burst, h[i].at, h[k].at)
    {
      WindowBound(rate, burst, h, i, k);
    }
    BoundExtends(rate, burst, h, i, j);
  }

  /** A caller whose readings are at least 1/rate apart is never turned away. */
  lemma {:induction false} PacedCallerAlwaysAllowed(rate: real, burst: real, h: seq<Call>, k: nat)
    requires Faithful(rate, burst, h) && 1.0 <= burst
    requires forall a :: 0 <= a && a + 1 < |h| ==> 1.0 <= rate * (h[a + 1].at - h[a].at)
    requires k < |h|
    ensures h[k].allowed
  {
    forall i | 0 <= i < k
      ensures Allowed(h[..k], i) as real + 1.0 <= Budget(rate, burst, h[..k][i].at, h[k].at)
    {
      AllowedAtMost(h[..k], i);
      PacedGap(rate, burst, h, i, k);
      assert h[..k][i].at == h[i].at;
      assert Allowed(h[..k], i) as real <= (k - i) as real;
    }
    assert k == 0 || Admits(rate, burst, h[..k], h[k].at);
  }

  lemma {:induction false} PacedGap(rate: real, burst: real, h: seq<Call>, i: nat, k: nat)
    requires i <= k < |h|
    requires forall a :: 0 <= a && a + 1 < |h| ==> 1.0 <= rate * (h[a + 1].at - h[a].at)
    ensures burst + (k - i) as real <= Budget(rate, burst, h[i].at, h[k].at)
    decreases k
  {
    if i == k {
      assert h[k].at - h[i].at == 0.0;
    } else {
      PacedGap(rate, burst, h, i, k - 1);
      BudgetShift(rate, burst, h[i].at, h[k - 1].at, h[k].at);
      assert 1.0 <= rate * (h[(k - 1) + 1].at - h[k - 1].at);
    }
  }

  /** With a burst below one the first call on a key is still let through, which the specification
      forbids, and no later one ever is. So the limiter meets its specification exactly when the
      configured burst is at least one. */
  lemma {:induction false} ExactIffBurst(rate: real, burst: real, h: seq<Call>)
    requires Faithful(rate, burst, h) && h != []
    ensures (forall k :: 0 <= k < |h| ==> h[k].allowed == Admits(rate, burst, h[..k], h[k].at)) <==> 1.0 <= burst
    ensures burst < 1.0 ==> forall k :: 0 <= k < |h| ==> h[k].allowed == (k == 0)
  {
    assert h[0].allowed;
    if 1.0 <= burst {
      assert h[..0] == [];
      assert Admits(rate, burst, h[..0], h[0].at);
    }
  }

  ghost predicate Sound(rate: real, burst: real, b: Bucket, h: seq<Call>) {
    Represents(rate, burst, b, h) && Faithful(rate, burst, h)
  }

  ghost predicate Consistent(rate: real, burst: real, buckets: map<string, Bucket>, history: map<string, seq<Call>>) {
    && history.Keys == buckets.Keys
    && forall key :: key in buckets ==> Sound(rate, burst, buckets[key], history[key])
  }

  class Limiter {
    const rate: real
    const burst: real
    var buckets: map<string, Bucket>
    /** Every call made on each key, with its answer. */
    ghost var history: map<string, seq<Call>>

    ghost predicate Valid()
      reads this
    {
      Consistent(rate, burst, buckets, history)
    }

    ghost function Past(key: string): seq<Call>
      reads this
    {
      if key in history then history[key] else []
    }

    constructor (rate: real, burst: int)
      ensures Valid()
      ensures this.rate == rate && this.burst == burst as real
      ensures forall key :: Past(key) == []
    {
      this.rate := rate;
      this.burst := burst as real;
      buckets, history := map[], map[];
    }

    /** `now` is the reading taken before the lock. */
    method Allow(key: string, now: real) returns (ok: bool)
      requires Valid()
      modifies this
      ensures Valid()
      // A non-positive rate disables limiting and keeps no state.
      ensures rate <= 0.0 ==> ok && buckets == old(buckets) && history == old(history)
      // Otherwise the answer is exactly the counting specification on the key's whole history.
      ensures 0.0 < rate && 1.0 <= burst ==> ok == Admits(rate, burst, old(Past(key)), now)
      ensures 0.0 < rate && burst < 1.0 ==> ok == (old(Past(key)) == [])
      ensures 0.0 < rate ==> Past(key) == old(Past(key)) + [Call(now, ok)]
      // Keys do not interfere.
      ensures forall other :: other != key ==> Past(other) == old(Past(other))
      ensures forall other :: other != key ==> (other in buckets <==> other in old(buckets))
      ensures forall other :: other != key && other in buckets ==> buckets[other] == old(buckets)[other]
    {
      if rate <= 0.0 {
        return true;
      }
      ghost var past := Past(key);
      var b := if key in buckets then Some(buckets[key]) else None;
      Decision(rate, burst, b, past, now);
      var (charged, answer) := Charged(rate, burst, b, now);
      ok := answer;
      buckets, history := buckets[key := charged], history[key := past + [Call(now, ok)]];
    }
  }
}
