/** The worker pool and its autoscaling monitor (internal/worker/service.go, internal/worker/config.go).

    Worker counts are `int`, the scale factor is `real`, and instants and durations are `int`
    nanoseconds handed in by the caller. */
module Autoscaler {
  import opened Prelude

  /** `nonFinite` is the integer the platform converts the quotient of a zero factor to, which the
      language leaves open. */
  datatype Config = Config(initial: int, min: int, max: int, autoscaling: bool, up: int, down: int,
                           factor: real, cooldown: int, nonFinite: int)
  {
    ghost predicate Sane() { 0 <= min <= max }
  }

  const DEFAULT_CONFIG := Config(2, 2, 10, true, 15, 5, 2.0, 15_000_000_000, -0x8000_0000_0000_0000)

  function Ceil(x: real): int { -((-x).Floor) }

  /** The target as `scaleWorkers` clamps it: the lower bound first, then the upper one. */
  function Clamp(cfg: Config, target: int): int {
    var t := if target < cfg.min then cfg.min else target;
    if t > cfg.max then cfg.max else t
  }

  /** The pool size `scaleWorkers` leaves. */
  function Resized(cfg: Config, active: int, target: int): int {
    var t := Clamp(cfg, target);
    if active <= t then t
    else if active <= cfg.min then active
    else if t < 0 then 0 else t
  }

  /** The target `evaluateScaling` asks for, if any. */
  function Target(cfg: Config, active: int, pending: int): Option<int>
  {
    if pending > cfg.up && active < cfg.max then
      var target :=
        if pending > cfg.up * 5 then cfg.max
        else if pending > cfg.up * 3 then Ceil(active as real * cfg.factor * 1.5)
        else Ceil(active as real * cfg.factor);
      Some(if target <= active then active + 1 else target)
    else if pending < cfg.down && active > cfg.min then
      var target := if cfg.factor == 0.0 then cfg.nonFinite else (active as real / cfg.factor).Floor;
      Some(if target < cfg.min then cfg.min else target)
    else
      None
  }

  /** The pool size after one evaluation. */
  function Evaluated(cfg: Config, active: int, pending: int): int
  {
    match Target(cfg, active, pending)
    case None => active
    case Some(target) => Resized(cfg, active, target)
  }

  /** Scaling goes to the size within the bounds that is nearest to the target. */
  lemma {:induction false} ResizedNearest(cfg: Config, active: int, target: int, n: int)
    requires cfg.Sane() && cfg.min <= active <= cfg.max && cfg.min <= n <= cfg.max
    ensures cfg.min <= Resized(cfg, active, target) <= cfg.max
    ensures Distance(Resized(cfg, active, target), target) <= Distance(n, target)
  {
  }

  /** With crossed bounds the maximum wins, and a pool at or below the minimum is never shrunk. */
  lemma {:induction false} CrossedBounds(cfg: Config, active: int, target: int)
    requires cfg.max < cfg.min
    ensures active < cfg.max ==> Resized(cfg, active, target) == cfg.max
    ensures cfg.max <= active <= cfg.min ==> Resized(cfg, active, target) == active
    ensures cfg.min < active && 0 <= cfg.max ==> Resized(cfg, active, target) == cfg.max
  {
  }

  function Distance(a: int, b: int): int {
    if a < b then b - a else a - b
  }

  /** The size the scale factor asks for, by how far the pending count is over the threshold. */
  function Wanted(cfg: Config, active: int, pending: int): real {
    if pending > cfg.up * 3 then active as real * cfg.factor * 1.5 else active as real * cfg.factor
  }

  /** What one evaluation above the threshold gives: everything beyond five times the threshold, and
      otherwise the least size that grows the pool and reaches the wanted one, cut off at the maximum. */
  lemma {:induction false} GrowthIsLeast(cfg: Config, active: int, pending: int)
    requires cfg.Sane() && cfg.up < pending && cfg.min <= active < cfg.max
    ensures
      var n, wanted := Evaluated(cfg, active, pending), Wanted(cfg, active, pending);
      if pending > cfg.up * 5 then n == cfg.max
      else
        && active < n <= cfg.max
        && (n < cfg.max ==> wanted <= n as real)
        && (active + 1 < n ==> (n - 1) as real < wanted)
  {
  }

  /** What one evaluation below the threshold gives, for every positive factor: the greatest size the factor
      takes back to no more than the present one, cut off at the bounds. With a factor above one that is
      a smaller pool. */
  lemma {:induction false} ShrinkageIsGreatest(cfg: Config, active: int, pending: int)
    requires cfg.Sane() && 0.0 < cfg.factor && pending < cfg.down && pending <= cfg.up && cfg.min < active <= cfg.max
    ensures
      var n := Evaluated(cfg, active, pending);
      && cfg.min <= n <= cfg.max && (1.0 < cfg.factor ==> n < active)
      && (cfg.min < n ==> n as real * cfg.factor <= active as real)
      && (n < cfg.max ==> active as real < (n + 1) as real * cfg.factor)
  {
    var n := Evaluated(cfg, active, pending);
    if 1.0 < cfg.factor {
      DivBelow(active as real, cfg.factor);
    }
    QuotientBounds(active as real, cfg.factor, n as real);
    QuotientBounds(active as real, cfg.factor, (n + 1) as real);
  }

  /** The remaining factors: a negative one empties the pool to its minimum, a zero one goes to the size
      nearest to what its quotient converts to. */
  lemma {:induction false} OddFactors(cfg: Config, active: int, pending: int, m: int)
    requires cfg.Sane() && cfg.factor <= 0.0 && pending < cfg.down && pending <= cfg.up && cfg.min < active <= cfg.max
    ensures cfg.factor < 0.0 ==> Evaluated(cfg, active, pending) == cfg.min
    ensures cfg.factor == 0.0 && cfg.min <= m <= cfg.max ==>
              && cfg.min <= Evaluated(cfg, active, pending) <= cfg.max
              && Distance(Evaluated(cfg, active, pending), cfg.nonFinite) <= Distance(m, cfg.nonFinite)
  {
    if cfg.factor < 0.0 {
      NegativeQuotient(active as real, cfg.factor);
    }
  }

  /** Between the thresholds, or at the bound that stands in the way, nothing changes. */
  lemma {:induction false} OtherwiseUnchanged(cfg: Config, active: int, pending: int)
    requires pending <= cfg.up || cfg.max <= active
    requires cfg.down <= pending || active <= cfg.min
    ensures Evaluated(cfg, active, pending) == active
  {
  }

  lemma {:induction false} QuotientBounds(x: real, f: real, m: real)
    requires 0.0 < f && 0.0 < x
    ensures m <= x / f ==> m * f <= x
    ensures x / f < m ==> x < m * f
  {
    assert x / f * f == x;
    ProductOrder(m, x / f, f);
    ProductOrder(x / f, m, f);
  }

  lemma {:induction false} ProductOrder(x: real, y: real, f: real)
    requires 0.0 < f
    ensures x <= y ==> x * f <= y * f
    ensures x < y ==> x * f < y * f
  {
    var d := y - x;
    assert y * f == x * f + d * f;
    assert 0.0 <= d ==> 0.0 <= d * f;
    assert 0.0 < d ==> 0.0 < d * f;
  }

  // ---------------------------------------------------------------------------------------------
  // Convergence at a fixed pending count

  /** `x` doubled `k` times. */
  function Doubled(x: int, k: nat): int {
    if k == 0 then x else 2 * Doubled(x, k - 1)
  }

  lemma {:induction false} MulAtLeast(b: real, x: real)
    requires 1.0 <= b && 0.0 <= x
    ensures x <= b * x
  {
    var d := b - 1.0;
    assert 0.0 <= d * x;
    assert b * x == d * x + x;
  }

  lemma {:induction false} DivBelow(x: real, b: real)
    requires 1.0 < b && 0.0 < x
    ensures 0.0 < x / b < x
    ensures b * (x / b) == x
  {
    var y := x / b;
    var d := b - 1.0;
    assert 0.0 < d * y;
    assert b * y == d * y + y;
  }

  /** A size reached after `k` doublings of `x`; an empty pool first grows to one worker. */
  function Reach(x: int, k: nat): int {
    if 1 <= x then Doubled(x, k) else if k == 0 then x else Doubled(1, k - 1)
  }

  /** `k` evaluations in a row at the same pending count. */
  function Iterated(cfg: Config, active: int, pending: int, k: nat): int
  {
    if k == 0 then active else Evaluated(cfg, Iterated(cfg, active, pending, k - 1), pending)
  }

  /** Above the up threshold one evaluation climbs strictly and stays within the maximum; a factor
      of at least two at least doubles the pool or fills it. */
  lemma {:induction false} ClimbStep(cfg: Config, active: int, pending: int)
    requires cfg.Sane() && 1.0 < cfg.factor && cfg.up < pending
    requires cfg.min <= active < cfg.max
    ensures active < Evaluated(cfg, active, pending) <= cfg.max
    ensures 2.0 <= cfg.factor ==>
              Evaluated(cfg, active, pending) == cfg.max || 2 * active <= Evaluated(cfg, active, pending)
  {
    if pending > cfg.up * 5 {
    } else if pending > cfg.up * 3 {
      Grows(active, cfg.factor, 1.5);
    } else {
      Grows(active, cfg.factor, 1.0);
    }
  }

  /** Scaling by a factor of at least two, and rounding up, at least doubles. */
  lemma {:induction false} Grows(active: int, factor: real, boost: real)
    requires 0 <= active && 1.0 < factor && 1.0 <= boost
    ensures 2.0 <= factor ==> 2 * active <= Ceil(active as real * factor * boost)
    ensures 2.0 <= factor ==> 2 * active <= Ceil(active as real * factor)
  {
    var x := active as real;
    var grown := x * factor;
    if 2.0 <= factor {
      assert 0.0 <= x * (factor - 2.0);
      assert grown == 2.0 * x + x * (factor - 2.0);
      MulAtLeast(boost, grown);
    }
  }

  /** Below the down threshold one evaluation shrinks strictly and stays within the minimum; a
      factor of at least two at least halves the pool or empties it to the minimum. */
  lemma {:induction false} ShrinkStep(cfg: Config, active: int, pending: int)
    requires cfg.Sane() && 1.0 < cfg.factor && cfg.down <= cfg.up && pending < cfg.down
    requires cfg.min < active <= cfg.max
    ensures cfg.min <= Evaluated(cfg, active, pending) < active
    ensures 2.0 <= cfg.factor ==>
              Evaluated(cfg, active, pending) == cfg.min || 2 * Evaluated(cfg, active, pending) <= active
  {
    var n := Evaluated(cfg, active, pending);
    ShrinkageIsGreatest(cfg, active, pending);
    if 2.0 <= cfg.factor && cfg.min < n {
      TwiceFits(n, cfg.factor, active);
    }
  }

  lemma {:induction false} TwiceFits(n: int, b: real, m: int)
    requires 2.0 <= b && 0 <= n && n as real * b <= m as real
    ensures 2 * n <= m
  {
    var x := n as real;
    TwiceAtMost(b, x);
    assert b * x == x * b;
    assert 2.0 * x == (2 * n) as real;
  }

  lemma {:induction false} TwiceAtMost(b: real, x: real)
    requires 2.0 <= b && 0.0 <= x
    ensures 2.0 * x <= b * x
  {
    var d := b - 2.0;
    assert 0.0 <= d * x;
    assert b * x == d * x + 2.0 * x;
  }

  /** Above the threshold: never a step back, at least one worker per evaluation, and with a factor
      of at least two a doubling per evaluation, until the maximum. */
  lemma {:induction false} Climb(cfg: Config, active: int, pending: int, k: nat)
    requires cfg.Sane() && 1.0 < cfg.factor && cfg.down <= cfg.up && cfg.up < pending
    requires cfg.min <= active <= cfg.max
    ensures active <= Iterated(cfg, active, pending, k) <= cfg.max
    ensures Iterated(cfg, active, pending, k) == cfg.max || active + k <= Iterated(cfg, active, pending, k)
    ensures 2.0 <= cfg.factor ==>
              Iterated(cfg, active, pending, k) == cfg.max || Reach(active, k) <= Iterated(cfg, active, pending, k)
  {
    if k > 0 {
      Climb(cfg, active, pending, k - 1);
      if Iterated(cfg, active, pending, k - 1) < cfg.max {
        ClimbStep(cfg, Iterated(cfg, active, pending, k - 1), pending);
      }
    }
  }

  /** Below the threshold: the mirror image, down to the minimum. */
  lemma {:induction false} Shrink(cfg: Config, active: int, pending: int, k: nat)
    requires cfg.Sane() && 1.0 < cfg.factor && cfg.down <= cfg.up && pending < cfg.down
    requires cfg.min <= active <= cfg.max
    ensures cfg.min <= Iterated(cfg, active, pending, k) <= active
    ensures Iterated(cfg, active, pending, k) == cfg.min || Iterated(cfg, active, pending, k) <= active - k
    ensures 2.0 <= cfg.factor ==>
              Iterated(cfg, active, pending, k) == cfg.min || Doubled(Iterated(cfg, active, pending, k), k) <= active
  {
    if k > 0 {
      Shrink(cfg, active, pending, k - 1);
      var a := Iterated(cfg, active, pending, k - 1);
      if cfg.min < a {
        ShrinkStep(cfg, a, pending);
        DoubledShift(Evaluated(cfg, a, pending), k - 1);
        DoubledMonotone(2 * Evaluated(cfg, a, pending), a, k - 1);
      }
    }
  }

  lemma {:induction false} DoubledShift(x: int, k: nat)
    ensures Doubled(x, k + 1) == Doubled(2 * x, k)
  {
    if k > 0 { DoubledShift(x, k - 1); }
  }

  lemma {:induction false} DoubledMonotone(x: int, y: int, k: nat)
    ensures x <= y ==> Doubled(x, k) <= Doubled(y, k)
  {
    if k > 0 { DoubledMonotone(x, y, k - 1); }
  }

  lemma {:induction false} Stay(cfg: Config, active: int, pending: int, k: nat)
    requires cfg.down <= pending <= cfg.up
    ensures Iterated(cfg, active, pending, k) == active
  {
    if k > 0 { Stay(cfg, active, pending, k - 1); }
  }

  /** Repeated evaluation settles at the maximum, at the minimum, or where it is: after at most as
      many evaluations as there are workers to add or remove and, with a factor of at least two, as
      soon as that many doublings cover the distance, the first evaluation of an empty pool giving
      it one worker. */
  lemma {:induction false} Converges(cfg: Config, active: int, pending: int, k: nat)
    requires cfg.Sane() && 1.0 < cfg.factor && cfg.down <= cfg.up
    requires cfg.min <= active <= cfg.max
    ensures cfg.up < pending && (cfg.max - active <= k || (2.0 <= cfg.factor && cfg.max <= Reach(active, k))) ==>
              Iterated(cfg, active, pending, k) == cfg.max
    ensures pending < cfg.down && (active - cfg.min <= k || (2.0 <= cfg.factor && active < Doubled(cfg.min + 1, k))) ==>
              Iterated(cfg, active, pending, k) == cfg.min
    ensures cfg.down <= pending <= cfg.up ==> Iterated(cfg, active, pending, k) == active
  {
    if cfg.up < pending {
      Climb(cfg, active, pending, k);
    } else if pending < cfg.down {
      Shrink(cfg, active, pending, k);
      DoubledMonotone(cfg.min + 1, Iterated(cfg, active, pending, k), k);
    } else {
      Stay(cfg, active, pending, k);
    }
  }

  /** The default pool fills within three evaluations above its up threshold and empties to its
      minimum within two below its down threshold. */
  lemma {:induction false} DefaultSettles(active: int, pending: int)
    requires DEFAULT_CONFIG.min <= active <= DEFAULT_CONFIG.max
    ensures DEFAULT_CONFIG.up < pending ==> Iterated(DEFAULT_CONFIG, active, pending, 3) == DEFAULT_CONFIG.max
    ensures pending < DEFAULT_CONFIG.down ==> Iterated(DEFAULT_CONFIG, active, pending, 2) == DEFAULT_CONFIG.min
    ensures Started(DEFAULT_CONFIG, 0, 0).active == 2
  {
    DoubledMonotone(2, active, 3);
    assert Doubled(2, 3) == 16 && Doubled(3, 2) == 12;
    Converges(DEFAULT_CONFIG, active, pending, 3);
    Converges(DEFAULT_CONFIG, active, pending, 2);
  }

  /** Exactly which factors shrink a pool below its down threshold: those above one, the negative
      ones, and zero where its quotient converts to a smaller size. */
  lemma {:induction false} ShrinksIff(cfg: Config, active: int, pending: int)
    requires cfg.Sane() && pending < cfg.down <= cfg.up
    requires cfg.min < active <= cfg.max
    ensures Evaluated(cfg, active, pending) < active <==>
            1.0 < cfg.factor || cfg.factor < 0.0 || (cfg.factor == 0.0 && cfg.nonFinite < active)
  {
    if 1.0 < cfg.factor {
      ShrinkStep(cfg, active, pending);
    } else if 0.0 < cfg.factor {
      QuotientAtLeast(active as real, cfg.factor);
    } else if cfg.factor < 0.0 {
      NegativeQuotient(active as real, cfg.factor);
    }
  }

  lemma {:induction false} NegativeQuotient(x: real, f: real)
    requires 0.0 < x && f < 0.0
    ensures x / f < 0.0
  {
    var q := x / f;
    assert q * f == x;
  }

  lemma {:induction false} QuotientAtLeast(x: real, f: real)
    requires 0.0 < x && 0.0 < f <= 1.0
    ensures x <= x / f
  {
    var q, d := x / f, 1.0 - f;
    assert q * f == x;
    assert 0.0 <= q;
    assert 0.0 <= d * q;
    assert q == q * f + d * q;
  }

  /** Crossed thresholds make the maximum unstable: it holds exactly when the pending count is not
      also below the down threshold. */
  lemma {:induction false} MaximumStableIff(cfg: Config, pending: int)
    requires cfg.Sane() && cfg.min < cfg.max && 1.0 < cfg.factor && cfg.up < pending
    ensures Evaluated(cfg, cfg.max, pending) == cfg.max <==> cfg.down <= pending
  {
    DivBelow(cfg.max as real, cfg.factor);
  }

  // ---------------------------------------------------------------------------------------------
  // The monitor, over whole runs

  /** One tick of the monitor: the pending count if it could be read, the instant the cooldown is
      checked, and the later instant a scaling that happens is stamped with. */
  datatype Tick = Tick(pending: Option<nat>, checkedAt: int, doneAt: int)

  datatype Action = Action(at: int, from: int, to: int)

  /** The pool as the monitor sees it, with every scaling action so far. */
  datatype Monitored = Monitored(active: int, lastScale: int, actions: seq<Action>)

  /** `scaleWorkers`: the stamp moves when a scaling is carried out; an action is recorded when the
      size changes, which below a minimum of zero it may not. */
  function Scaled(cfg: Config, m: Monitored, target: int, at: int): Monitored {
    var t := Clamp(cfg, target);
    var n := Resized(cfg, m.active, target);
    if t == m.active || (t < m.active <= cfg.min) then m
    else Monitored(n, at, if n == m.active then m.actions else m.actions + [Action(at, m.active, n)])
  }

  function EvaluatedAt(cfg: Config, m: Monitored, pending: int, at: int): Monitored
  {
    match Target(cfg, m.active, pending)
    case None => m
    case Some(target) => Scaled(cfg, m, target, at)
  }

  /** Whether the tick evaluates at all: after the cooldown, or in an emergency below the maximum. */
  predicate Due(cfg: Config, m: Monitored, t: Tick)
    requires t.pending.Some?
  {
    || t.checkedAt - m.lastScale > cfg.cooldown
    || (t.pending.value > cfg.up * 5 && m.active < cfg.max)
  }

  function Ticked(cfg: Config, m: Monitored, t: Tick): Monitored
  {
    if !cfg.autoscaling || t.pending.None? || !Due(cfg, m, t) then m
    else EvaluatedAt(cfg, m, t.pending.value, t.doneAt)
  }

  function Run(cfg: Config, m: Monitored, ticks: seq<Tick>): Monitored
  {
    if ticks == [] then m else Ticked(cfg, Run(cfg, m, ticks[..|ticks| - 1]), ticks[|ticks| - 1])
  }

  /** The pool once `Start` has scaled it to its initial size. */
  function Started(cfg: Config, createdAt: int, at: int): Monitored {
    Scaled(cfg, Monitored(0, createdAt, []), cfg.initial, at)
  }

  /** Ticks come one after another, none before `from`. */
  ghost predicate Ordered(from: int, ticks: seq<Tick>) {
    && (forall i :: 0 <= i < |ticks| ==> from <= ticks[i].checkedAt <= ticks[i].doneAt)
    && (forall i, j :: 0 <= i < j < |ticks| ==> ticks[i].doneAt <= ticks[j].checkedAt)
  }

  /** What every run keeps. An action soon after another one fills the pool, and after an action
      that fills the pool nothing happens for a whole cooldown. */
  ghost predicate Spaced(cfg: Config, m: Monitored) {
    && cfg.min <= m.active <= cfg.max
    && (m.actions != [] ==> var last := m.actions[|m.actions| - 1]; m.lastScale == last.at && m.active == last.to)
    && (forall i :: 0 <= i < |m.actions| ==> m.actions[i].from != m.actions[i].to)
    && (forall i :: 0 <= i && i + 1 < |m.actions| ==>
          var a, b := m.actions[i], m.actions[i + 1];
          && a.at <= b.at && a.to == b.from
          && (b.at - a.at > cfg.cooldown || (a.to < b.to == cfg.max))
          && (a.to == cfg.max ==> b.at - a.at > cfg.cooldown))
  }

  lemma {:induction false} SpacedTriple(cfg: Config, m: Monitored, i: nat)
    requires Spaced(cfg, m) && i + 2 < |m.actions|
    ensures m.actions[i + 2].at - m.actions[i].at > cfg.cooldown
    ensures m.actions[i + 1].at - m.actions[i].at <= cfg.cooldown ==>
              m.actions[i + 2].at - m.actions[i + 1].at > cfg.cooldown
  {
    var a, b, c := m.actions[i], m.actions[i + 1], m.actions[(i + 1) + 1];
    assert b.at - a.at > cfg.cooldown || b.to == cfg.max;
    assert a.at <= b.at <= c.at;
  }

  lemma {:induction false} StartedSpaced(cfg: Config, createdAt: int, at: int)
    requires cfg.Sane() && createdAt <= at
    ensures Spaced(cfg, Started(cfg, createdAt, at)) && Started(cfg, createdAt, at).lastScale <= at
  {
  }

  lemma {:induction false} TickKeepsSpaced(cfg: Config, m: Monitored, t: Tick)
    requires cfg.Sane()
    requires Spaced(cfg, m) && m.lastScale <= t.checkedAt <= t.doneAt
    ensures Spaced(cfg, Ticked(cfg, m, t))
    ensures Ticked(cfg, m, t).lastScale <= t.doneAt
  {
    var m' := Ticked(cfg, m, t);
    if m' != m {
      var n := m'.active;
      assert m'.actions == m.actions + [Action(t.doneAt, m.active, n)];
      assert cfg.min <= n <= cfg.max;
      if t.checkedAt - m.lastScale <= cfg.cooldown {
        assert Target(cfg, m.active, t.pending.value) == Some(cfg.max);
      }
    }
  }

  lemma {:induction false} RunKeepsSpaced(cfg: Config, m: Monitored, ticks: seq<Tick>)
    requires cfg.Sane()
    requires Spaced(cfg, m) && Ordered(m.lastScale, ticks)
    ensures Spaced(cfg, Run(cfg, m, ticks))
    ensures Run(cfg, m, ticks).lastScale <= if ticks == [] then m.lastScale else ticks[|ticks| - 1].doneAt
  {
    if ticks != [] {
      var front := ticks[..|ticks| - 1];
      assert Ordered(m.lastScale, front);
      RunKeepsSpaced(cfg, m, front);
      TickKeepsSpaced(cfg, Run(cfg, m, front), ticks[|ticks| - 1]);
    }
  }

  /** Any three consecutive actions span more than one cooldown, and an action within a cooldown of the
      one before it is a scale-up to the maximum, after which nothing scales for a cooldown. */
  ghost predicate CooldownKept(cfg: Config, actions: seq<Action>) {
    && (forall i :: 0 <= i && i + 2 < |actions| ==> actions[i + 2].at - actions[i].at > cfg.cooldown)
    && (forall i :: 0 <= i && i + 1 < |actions| && actions[i + 1].at - actions[i].at <= cfg.cooldown ==>
          && actions[i + 1].from < actions[i + 1].to == cfg.max
          && (i + 2 < |actions| ==> actions[i + 2].at - actions[i + 1].at > cfg.cooldown))
  }

  lemma {:induction false} SpacedIsCooldownKept(cfg: Config, m: Monitored)
    requires Spaced(cfg, m)
    ensures CooldownKept(cfg, m.actions)
  {
    forall i | 0 <= i && i + 2 < |m.actions|
      ensures m.actions[i + 2].at - m.actions[i].at > cfg.cooldown
      ensures m.actions[i + 1].at - m.actions[i].at <= cfg.cooldown ==>
                m.actions[i + 2].at - m.actions[i + 1].at > cfg.cooldown
    {
      SpacedTriple(cfg, m, i);
    }
  }

  /** What one tick does, case by case. In an emergency, more than five times the threshold pending and
      room in the pool, it fills the pool whatever the last stamp says. After the cooldown it leaves the
      evaluated size. In every other case, autoscaling off, no count, or too soon, it does nothing at all.
      The stamp moves exactly when the size does. */
  lemma {:induction false} TickDecides(cfg: Config, m: Monitored, t: Tick)
    requires cfg.Sane() && 0 <= cfg.up && cfg.min <= m.active <= cfg.max
    ensures
      var m' := Ticked(cfg, m, t);
      && (cfg.autoscaling && t.pending.Some? && t.pending.value > cfg.up * 5 && m.active < cfg.max ==> m'.active == cfg.max)
      && (cfg.autoscaling && t.pending.Some? && t.checkedAt - m.lastScale > cfg.cooldown ==>
            m'.active == Evaluated(cfg, m.active, t.pending.value))
      && (!cfg.autoscaling || t.pending.None? ==> m' == m)
      && (t.pending.Some? && t.checkedAt - m.lastScale <= cfg.cooldown && (t.pending.value <= cfg.up * 5 || m.active == cfg.max) ==> m' == m)
      && m'.lastScale == (if m'.active == m.active then m.lastScale else t.doneAt)
      && m'.actions == (if m'.active == m.active then m.actions else m.actions + [Action(t.doneAt, m.active, m'.active)])
  {
  }

  /** The pool starts with the size nearest to the configured one, stamped if that is not zero. */
  lemma {:induction false} StartsNearInitial(cfg: Config, createdAt: int, at: int, n: int)
    requires cfg.Sane() && cfg.min <= n <= cfg.max
    ensures
      var m := Started(cfg, createdAt, at);
      && cfg.min <= m.active <= cfg.max && Distance(m.active, cfg.initial) <= Distance(n, cfg.initial)
      && m.lastScale == (if m.active == 0 then createdAt else at)
      && m.actions == (if m.active == 0 then [] else [Action(at, 0, m.active)])
  {
  }

  /** Every action is the start's or that of a tick of the run, which had counted the pending messages, and
      is stamped with its instant. */
  ghost predicate Stamped(at: int, ticks: seq<Tick>, a: Action) {
    (a.at == at && a.from == 0) || exists i :: 0 <= i < |ticks| && a.at == ticks[i].doneAt && ticks[i].pending.Some?
  }

  ghost predicate AllStamped(at: int, ticks: seq<Tick>, actions: seq<Action>) {
    forall k :: 0 <= k < |actions| ==> Stamped(at, ticks, actions[k])
  }

  lemma {:induction false} ActionsAreStamped(cfg: Config, createdAt: int, at: int, ticks: seq<Tick>)
    ensures AllStamped(at, ticks, Run(cfg, Started(cfg, createdAt, at), ticks).actions)
  {
    var m := Run(cfg, Started(cfg, createdAt, at), ticks);
    if ticks != [] {
      var front := ticks[..|ticks| - 1];
      ActionsAreStamped(cfg, createdAt, at, front);
      var before := Run(cfg, Started(cfg, createdAt, at), front);
      forall k | 0 <= k < |m.actions|
        ensures Stamped(at, ticks, m.actions[k])
      {
        if k < |before.actions| {
          assert m.actions[k] == before.actions[k];
          assert Stamped(at, front, before.actions[k]);
          StampedLater(at, ticks, m.actions[k]);
        } else {
          assert m.actions[k].at == ticks[|ticks| - 1].doneAt;
        }
      }
    }
  }

  lemma {:induction false} StampedLater(at: int, ticks: seq<Tick>, a: Action)
    requires ticks != [] && Stamped(at, ticks[..|ticks| - 1], a)
    ensures Stamped(at, ticks, a)
  {
    var front := ticks[..|ticks| - 1];
    if !(a.at == at && a.from == 0) {
      var i :| 0 <= i < |front| && a.at == front[i].doneAt && front[i].pending.Some?;
      assert ticks[i] == front[i];
    }
  }

  /** In every run of the monitor from start-up, the pool stays within its bounds, and the scaling actions,
      each made at the start or by a tick, keep the cooldown. */
  lemma {:induction false} CooldownOverRuns(cfg: Config, createdAt: int, at: int, ticks: seq<Tick>)
    requires cfg.Sane()
    requires createdAt <= at && Ordered(at, ticks)
    ensures
      var m := Run(cfg, Started(cfg, createdAt, at), ticks);
      && cfg.min <= m.active <= cfg.max && CooldownKept(cfg, m.actions)
      && AllStamped(at, ticks, m.actions)
  {
    StartedSpaced(cfg, createdAt, at);
    assert Ordered(Started(cfg, createdAt, at).lastScale, ticks);
    RunKeepsSpaced(cfg, Started(cfg, createdAt, at), ticks);
    SpacedIsCooldownKept(cfg, Run(cfg, Started(cfg, createdAt, at), ticks));
    ActionsAreStamped(cfg, createdAt, at, ticks);
  }

  // ---------------------------------------------------------------------------------------------
  // The pool itself

  /** A stop channel of capacity one. Nothing is assumed about when its worker receives, so a second
      send is taken to block. */
  class StopChannel {
    var sent: nat
    var closed: bool

    constructor ()
      ensures sent == 0 && !closed
    {
      sent, closed := 0, false;
    }

    method Send()
      requires !closed && sent < 1
      modifies this
      ensures sent == old(sent) + 1 && !closed
    {
      sent := sent + 1;
    }

    method Close()
      requires !closed
      modifies this
      ensures closed && sent == old(sent)
    {
      closed := true;
    }
  }

  /** One past the largest id in use, whatever order the ids are walked in. */
  method NextId(live: set<int>) returns (n: int)
    ensures 0 <= n && forall id :: id in live ==> id < n
    ensures n == 0 || n - 1 in live
  {
    n := 0;
    var ids := live;
    while ids != {}
      invariant 0 <= n && ids <= live
      invariant forall id :: id in live && id !in ids ==> id < n
      invariant n == 0 || n - 1 in live
      decreases ids
    {
      var id := Any(ids);
      if n <= id {
        n := id + 1;
      }
      ids := ids - {id};
    }
  }

  /** Every worker of `a` is one of `b`, on the same channel. */
  ghost predicate Among(a: map<int, StopChannel>, b: map<int, StopChannel>) {
    forall id :: id in a ==> id in b && b[id] == a[id]
  }

  ghost predicate Injective(m: map<int, StopChannel>) {
    forall i, j :: i in m && j in m && i != j ==> m[i] != m[j]
  }

  /** The workers of `all` that are not in `rest` have each been sent one stop, on a channel closed since. */
  ghost predicate Stopped(all: map<int, StopChannel>, rest: map<int, StopChannel>)
    reads all.Values
  {
    forall id :: id in all && id !in rest ==> all[id].sent == 1 && all[id].closed
  }

  class Pool {
    const cfg: Config
    var activeWorkers: int
    var workerChannels: map<int, StopChannel>
    var lastScaleTime: int
    ghost var actions: seq<Action>

    ghost function Channels(): set<StopChannel>
      reads this
    {
      set id | id in workerChannels :: workerChannels[id]
    }

    /** One channel per worker, none shared, none sent to or closed yet. */
    ghost predicate Valid()
      reads this, Channels()
    {
      && activeWorkers == |workerChannels|
      && (forall id :: id in workerChannels ==> 0 <= id && workerChannels[id].sent == 0 && !workerChannels[id].closed)
      && Injective(workerChannels)
    }

    ghost function View(): Monitored
      reads this
    {
      Monitored(activeWorkers, lastScaleTime, actions)
    }

    constructor (cfg: Config, now: int)
      ensures this.cfg == cfg && Valid() && View() == Monitored(0, now, [])
    {
      this.cfg := cfg;
      activeWorkers, workerChannels, lastScaleTime, actions := 0, map[], now, [];
    }

    /** Registers one worker under an id no live worker has. */
    method Spawn(id: int)
      requires Valid() && 0 <= id && id !in workerChannels
      modifies this
      ensures Valid() && activeWorkers == old(activeWorkers) + 1
      ensures workerChannels.Keys == old(workerChannels.Keys) + {id} && fresh(workerChannels[id])
      ensures forall other :: other in old(workerChannels) ==> workerChannels[other] == old(workerChannels)[other]
      ensures Channels() == old(Channels()) + {workerChannels[id]}
      ensures lastScaleTime == old(lastScaleTime) && actions == old(actions)
    {
      var stop := new StopChannel();
      workerChannels := workerChannels[id := stop];
      activeWorkers := activeWorkers + 1;
      assert |workerChannels.Keys| == |old(workerChannels.Keys)| + 1;
    }

    /** Tells one worker to stop: the send neither blocks nor hits a closed channel. */
    method Retire(id: int)
      requires Valid() && id in workerChannels
      modifies this, workerChannels[id]
      ensures Valid() && activeWorkers == old(activeWorkers) - 1
      ensures workerChannels == old(workerChannels) - {id}
      ensures old(workerChannels)[id].sent == 1 && old(workerChannels)[id].closed
      ensures Channels() <= old(Channels())
      ensures lastScaleTime == old(lastScaleTime) && actions == old(actions)
    {
      var ch := workerChannels[id];
      ch.Send();
      ch.Close();
      workerChannels := workerChannels - {id};
      activeWorkers := activeWorkers - 1;
      assert workerChannels.Keys == old(workerChannels.Keys) - {id};
    }

    /** The same among workers some of which have been stopped already. */
    method StopOne(id: int, ghost all: map<int, StopChannel>)
      requires Valid() && id in workerChannels && Injective(all) && Among(workerChannels, all) && Stopped(all, workerChannels)
      modifies this, workerChannels[id]
      ensures Valid() && activeWorkers == old(activeWorkers) - 1
      ensures workerChannels == old(workerChannels) - {id} && Channels() <= old(Channels())
      ensures Among(workerChannels, all) && Stopped(all, workerChannels)
      ensures lastScaleTime == old(lastScaleTime) && actions == old(actions)
    {
      Retire(id);
    }

    /** Spawns workers until there are `target`; every new id is fresh among the live workers. */
    method ScaleUp(target: int, now: int)
      requires Valid() && activeWorkers < target
      modifies this
      ensures Valid() && activeWorkers == target && lastScaleTime == now && actions == old(actions)
      ensures Among(old(workerChannels), workerChannels)
      ensures forall id :: id in workerChannels && id !in old(workerChannels) ==> fresh(workerChannels[id])
    {
      var nextId := NextId(workerChannels.Keys);
      while activeWorkers < target
        invariant Valid() && activeWorkers <= target && actions == old(actions)
        invariant 0 <= nextId && forall id :: id in workerChannels ==> id < nextId
        invariant Among(old(workerChannels), workerChannels)
        invariant forall id :: id in workerChannels && id !in old(workerChannels) ==> fresh(workerChannels[id])
        decreases target - activeWorkers
      {
        Spawn(nextId);
        nextId := nextId + 1;
      }
      lastScaleTime := now;
    }

    /** Stops workers, picked in whatever order the map is walked, until `target` are left. Each
        channel taken out was sent to once and then closed; the rest are untouched. */
    method ScaleDown(target: int, now: int)
      requires Valid() && target < activeWorkers
      modifies this, Channels()
      ensures Valid() && actions == old(actions)
      ensures old(activeWorkers) <= cfg.min ==> View() == old(View()) && workerChannels == old(workerChannels)
      ensures cfg.min < old(activeWorkers) ==> activeWorkers == (if target < 0 then 0 else target) && lastScaleTime == now
      ensures Among(workerChannels, old(workerChannels))
      ensures Stopped(old(workerChannels), workerChannels)
    {
      if activeWorkers <= cfg.min {
        return;
      }
      ghost var all := workerChannels;
      var toStop := activeWorkers - target;
      var ids := workerChannels.Keys;
      while ids != {}
        invariant Valid() && 0 <= toStop && ids <= workerChannels.Keys
        invariant toStop == 0 || ids == workerChannels.Keys
        invariant activeWorkers - toStop == target
        invariant actions == old(actions)
        invariant Channels() <= old(Channels()) && Among(workerChannels, all) && Stopped(all, workerChannels)
        decreases ids
      {
        if toStop == 0 {
          break;
        }
        var id := Any(ids);
        ids := ids - {id};
        StopOne(id, all);
        toStop := toStop - 1;
      }
      lastScaleTime := now;
    }

    method ScaleWorkers(target: int, now: int)
      requires Valid()
      modifies this, Channels()
      ensures Valid() && View() == Scaled(cfg, old(View()), target, now)
      ensures fresh(Channels() - old(Channels()))
    {
      var t := if target < cfg.min then cfg.min else target;
      t := if t > cfg.max then cfg.max else t;
      if t == activeWorkers {
        return;
      }
      if t > activeWorkers {
        ScaleUp(t, now);
      } else {
        ScaleDown(t, now);
      }
      if activeWorkers != old(activeWorkers) {
        actions := actions + [Action(now, old(activeWorkers), activeWorkers)];
      }
    }

    /** Start-up scales the empty pool to its configured size. */
    method Start(now: int)
      requires Valid() && activeWorkers == 0 && actions == []
      modifies this, Channels()
      ensures Valid() && View() == Started(cfg, old(lastScaleTime), now)
      ensures fresh(Channels() - old(Channels()))
    {
      ScaleWorkers(cfg.initial, now);
    }

    method EvaluateScaling(pending: int, now: int)
      requires Valid()
      modifies this, Channels()
      ensures Valid() && View() == EvaluatedAt(cfg, old(View()), pending, now)
      ensures fresh(Channels() - old(Channels()))
    {
      match Target(cfg, activeWorkers, pending) {
        case None =>
        case Some(target) => ScaleWorkers(target, now);
      }
    }

    /** One turn of the monitor's loop. */
    method MonitorTick(t: Tick)
      requires Valid()
      modifies this, Channels()
      ensures Valid() && View() == Ticked(cfg, old(View()), t)
      ensures fresh(Channels() - old(Channels()))
    {
      if !cfg.autoscaling {
        return;
      }
      match t.pending {
        case None =>
        case Some(pending) =>
          if t.checkedAt - lastScaleTime > cfg.cooldown {
            EvaluateScaling(pending, t.doneAt);
          } else if pending > cfg.up * 5 && activeWorkers < cfg.max {
            EvaluateScaling(pending, t.doneAt);
          }
      }
    }
  }
}
