/** The particle record of the title-screen disintegration effect and the
    per-tick integrator that moves, damps and fades every particle. */
module Particle {

  /** The three colours the rasterizer hands out: the neon border/text colour,
      the dark stipple colour `#2a1540` and the translucent button fill
      `rgba(40, 15, 60, 0.9)`. */
  datatype Colour = NeonPurple | TextDark | Fill

  /** One square of the exploding button. */
  datatype Pixel = Pixel(
    id: nat,
    x: real, y: real,
    vx: real, vy: real,
    size: real,
    colour: Colour,
    opacity: real,
    friction: real)

  /** Added to `vy` on every tick. */
  const Gravity: real := 0.04
  /** Subtracted from `opacity` on every tick. */
  const FadeStep: real := 0.006
  /** A particle is visible while its opacity is above this. */
  const VisibleThreshold: real := 0.05
  /** Mean |vx| + |vy| below which the run switches to fading. */
  const SettleThreshold: real := 0.3

  function Abs(r: real): real { if r < 0.0 then -r else r }

  /** The `map` of one tick: positions move by the old velocity, `vy` gains
      gravity, `vx` is damped and the particle fades; `vy` is damped afterwards. */
  function Drift(p: Pixel): Pixel
  {
    p.(x := p.x + p.vx, y := p.y + p.vy,
       vx := p.vx * p.friction, vy := p.vy + Gravity,
       opacity := p.opacity - FadeStep)
  }

  /** The whole per-particle update of one tick. */
  function Step(p: Pixel): Pixel
  {
    p.(x := p.x + p.vx, y := p.y + p.vy,
       vx := p.vx * p.friction, vy := (p.vy + Gravity) * p.friction,
       opacity := p.opacity - FadeStep)
  }

  /** One tick applied to the whole collection. */
  function Advance(ps: seq<Pixel>): (r: seq<Pixel>)
    ensures |r| == |ps|
    ensures forall i :: 0 <= i < |ps| ==>
      && r[i].id == ps[i].id && r[i].size == ps[i].size
      && r[i].colour == ps[i].colour && r[i].friction == ps[i].friction
      && r[i].opacity < ps[i].opacity
  {
    seq(|ps|, i requires 0 <= i < |ps| => Step(ps[i]))
  }

  /** `k` ticks. */
  function Iterate(ps: seq<Pixel>, k: nat): seq<Pixel>
  {
    if k == 0 then ps else Advance(Iterate(ps, k - 1))
  }

  /** The integrator as the source runs it: a `map` that builds fresh records
      and a second loop that damps `vy` of each record in place. */
  method Integrate(ps: seq<Pixel>) returns (updated: seq<Pixel>)
    ensures updated == Advance(ps)
  {
    updated := seq(|ps|, i requires 0 <= i < |ps| => Drift(ps[i]));
    for i := 0 to |updated|
      invariant |updated| == |ps|
      invariant forall j :: 0 <= j < i ==> updated[j] == Step(ps[j])
      invariant forall j :: i <= j < |ps| ==> updated[j] == Drift(ps[j])
    {
      updated := updated[i := updated[i].(vy := updated[i].vy * updated[i].friction)];
    }
  }

  /** Liveness: some particle is still visible. */
  predicate AnyVisible(ps: seq<Pixel>)
  {
    exists i :: 0 <= i < |ps| && ps[i].opacity > VisibleThreshold
  }

  function Speed(p: Pixel): real { Abs(p.vx) + Abs(p.vy) }

  /** The `reduce` over |vx| + |vy|. */
  function SpeedSum(ps: seq<Pixel>): real
  {
    if ps == [] then 0.0 else SpeedSum(ps[..|ps| - 1]) + Speed(ps[|ps| - 1])
  }

  /** Mean speed of a non-empty collection. */
  function MeanSpeed(ps: seq<Pixel>): real
    requires |ps| > 0
  {
    SpeedSum(ps) / |ps| as real
  }

  /** A visible particle exists only in a non-empty collection, so the mean
      speed of a live collection is always defined. */
  lemma VisibleIsNonEmpty(ps: seq<Pixel>)
    requires AnyVisible(ps)
    ensures |ps| > 0
  {
  }

  /** One tick moves each particle by its velocity from before the tick,
      keeps the record's identity and fixed fields, and fades it by exactly
      one step. */
  lemma {:induction false} AdvanceRule(ps: seq<Pixel>, i: nat)
    requires i < |ps|
    ensures |Advance(ps)| == |ps|
    ensures Advance(ps)[i].x == ps[i].x + ps[i].vx && Advance(ps)[i].y == ps[i].y + ps[i].vy
    ensures Advance(ps)[i].vx == ps[i].vx * ps[i].friction
    ensures Advance(ps)[i].vy == (ps[i].vy + Gravity) * ps[i].friction
    ensures Advance(ps)[i].opacity == ps[i].opacity - FadeStep
    ensures Advance(ps)[i] == ps[i].(x := Advance(ps)[i].x, y := Advance(ps)[i].y,
                                    vx := Advance(ps)[i].vx, vy := Advance(ps)[i].vy,
                                    opacity := Advance(ps)[i].opacity)
  {
  }

  /** Friction in [0, 1] never speeds a particle up horizontally. */
  lemma HorizontalDamping(p: Pixel)
    requires 0.0 <= p.friction <= 1.0
    ensures Abs(Step(p).vx) <= Abs(p.vx)
  {
    if p.vx < 0.0 {
      assert Step(p).vx == p.vx * p.friction;
      assert p.vx * p.friction >= p.vx;
    } else {
      assert Step(p).vx == p.vx * p.friction;
      assert 0.0 <= p.vx * p.friction <= p.vx;
    }
  }

  /** After `k` ticks the collection has the same length, ids and fixed
      fields, and every opacity has dropped by exactly `k` fade steps. */
  lemma {:induction false} IterateFades(ps: seq<Pixel>, k: nat)
    ensures |Iterate(ps, k)| == |ps|
    ensures forall i :: 0 <= i < |ps| ==>
      && Iterate(ps, k)[i].id == ps[i].id
      && Iterate(ps, k)[i].size == ps[i].size
      && Iterate(ps, k)[i].colour == ps[i].colour
      && Iterate(ps, k)[i].friction == ps[i].friction
      && Iterate(ps, k)[i].opacity == ps[i].opacity - FadeStep * k as real
  {
    if k > 0 {
      IterateFades(ps, k - 1);
    }
  }

  /** Opacity `1 - FadeStep * k` is above the visibility threshold exactly
      for the first 159 values of `k`. */
  lemma FadedVisible(k: nat)
    ensures 1.0 - FadeStep * k as real > VisibleThreshold <==> k < 159
  {
  }

  /** When all particles share one opacity, the collection is live exactly
      when it is non-empty and that opacity is above the threshold. */
  lemma UniformVisible(ps: seq<Pixel>, o: real)
    requires forall i :: 0 <= i < |ps| ==> ps[i].opacity == o
    ensures AnyVisible(ps) <==> |ps| > 0 && o > VisibleThreshold
  {
    if |ps| > 0 && o > VisibleThreshold {
      assert ps[0].opacity > VisibleThreshold;
    }
  }

  /** Termination of a run: starting from a non-empty collection of fully
      opaque particles, the collection is live after `k` ticks exactly when
      `k < 159`, so the liveness check first fails on tick 159. */
  lemma {:induction false} CompletesOnTick159(ps: seq<Pixel>, k: nat)
    requires |ps| > 0
    requires forall i :: 0 <= i < |ps| ==> ps[i].opacity == 1.0
    ensures AnyVisible(Iterate(ps, k)) <==> k < 159
  {
    IterateFades(ps, k);
    UniformVisible(Iterate(ps, k), 1.0 - FadeStep * k as real);
    FadedVisible(k);
  }

  /** A falling particle (vy >= 0.3) keeps falling at least that fast: with
      friction of at least 0.96, gravity outweighs the damping. */
  lemma FallingStaysFast(p: Pixel)
    requires p.vy >= SettleThreshold && 0.96 <= p.friction
    ensures Step(p).vy >= SettleThreshold
  {
    assert (p.vy + Gravity) * p.friction >= (SettleThreshold + Gravity) * p.friction;
  }

  /** A collection in which every particle moves at least `s` has a speed
      sum of at least `s` per particle. */
  lemma {:induction false} SpeedSumLowerBound(ps: seq<Pixel>, s: real)
    requires forall i :: 0 <= i < |ps| ==> Speed(ps[i]) >= s
    ensures SpeedSum(ps) >= s * |ps| as real
  {
    if ps != [] {
      SpeedSumLowerBound(ps[..|ps| - 1], s);
    }
  }

  lemma MeanAtLeast(sum: real, n: real, s: real)
    requires n > 0.0 && sum >= s * n
    ensures sum / n >= s
  {
  }

  /** Falling at 0.3 or more per tick, with friction of at least 0.96, is
      kept by any number of ticks. */
  lemma {:induction false} IterateKeepsFalling(ps: seq<Pixel>, k: nat)
    requires forall i :: 0 <= i < |ps| ==> ps[i].vy >= SettleThreshold && 0.96 <= ps[i].friction
    ensures |Iterate(ps, k)| == |ps|
    ensures forall i :: 0 <= i < |ps| ==> Iterate(ps, k)[i].vy >= SettleThreshold
  {
    if k > 0 {
      IterateKeepsFalling(ps, k - 1);
      IterateFades(ps, k - 1);
      var prev := Iterate(ps, k - 1);
      forall i | 0 <= i < |ps| ensures Advance(prev)[i].vy >= SettleThreshold {
        FallingStaysFast(prev[i]);
      }
    }
  }

  /** Once every particle falls at 0.3 or more per tick (and friction is at
      least 0.96), the mean speed never again drops below the settle
      threshold, however many ticks follow: the run then completes without
      ever switching to fading. */
  lemma NeverSettlesOnceFalling(ps: seq<Pixel>, k: nat)
    requires |ps| > 0
    requires forall i :: 0 <= i < |ps| ==> ps[i].vy >= SettleThreshold && 0.96 <= ps[i].friction
    ensures |Iterate(ps, k)| == |ps|
    ensures MeanSpeed(Iterate(ps, k)) >= SettleThreshold
  {
    IterateKeepsFalling(ps, k);
    var cur := Iterate(ps, k);
    forall i | 0 <= i < |cur| ensures Speed(cur[i]) >= SettleThreshold {
      assert cur[i].vy >= SettleThreshold;
    }
    SpeedSumLowerBound(cur, SettleThreshold);
    MeanAtLeast(SpeedSum(cur), |cur| as real, SettleThreshold);
  }
}
