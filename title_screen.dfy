/** The title screen's transition: the start trigger, the per-frame tick
    and the `idle -> exploding -> fading` phases, with the completion
    callback `onStart` counted in `completions`. */
module Title {
  import opened Particle
  import opened Rasterizer

  datatype Phase = Idle | Exploding | Fading

  /** Ticks after which a freshly rasterized run has no visible particle left. */
  const RunLength: nat := 159

  class TitleScreen {
    var phase: Phase
    var pixels: seq<Pixel>
    var buttonHidden: bool
    /** An animation frame that will run `Tick` is requested. */
    var scheduled: bool
    /** How often `onStart` has been called. */
    var completions: nat

    /** Ticks run since the trigger. */
    ghost var ticks: nat
    /** `completions` when the run was triggered. */
    ghost var base: nat

    /** A run is either not started (idle, nothing on screen, nothing
        scheduled) or under way: a non-empty field of fresh-shaped particles
        that all carry the opacity of the same number of ticks; a frame is
        scheduled exactly while the run has not completed, and `onStart` has
        been called once for the run exactly when it has. */
    ghost predicate Valid()
      reads this
    {
      && (phase == Idle ==> pixels == [] && !scheduled && !buttonHidden && ticks == 0)
      && (phase != Idle ==>
            && |pixels| > 0 && buttonHidden && ticks <= RunLength
            && (forall i :: 0 <= i < |pixels| ==>
                  && pixels[i].id == i && pixels[i].size == 4.0
                  && 0.96 <= pixels[i].friction < 0.98
                  && pixels[i].opacity == 1.0 - FadeStep * ticks as real)
            && (scheduled <==> ticks < RunLength)
            && completions == base + (if scheduled then 0 else 1))
    }

    constructor ()
      ensures Valid()
      ensures phase == Idle && pixels == [] && !buttonHidden && !scheduled && completions == 0
    {
      phase, pixels, buttonHidden, scheduled, completions := Idle, [], false, false, 0;
      ticks, base := 0, 0;
    }

    /** The click handler. Ignored unless idle; an unmeasurable or zero-area
        button completes at once and stays idle; otherwise the button is
        hidden, the field is installed and the first frame is requested. */
    method HandleStart(m: Option<Rect>, dist: (real, real) -> Positive, rnd: nat -> Draw)
      requires Valid()
      modifies this
      ensures Valid()
      ensures old(phase) != Idle ==> unchanged(this)
      ensures old(phase) == Idle && (m.None? || m.value.width <= 0.0 || m.value.height <= 0.0) ==>
        && phase == Idle && pixels == [] && !scheduled && !buttonHidden
        && completions == old(completions) + 1
      ensures old(phase) == Idle && m.Some? && m.value.width > 0.0 && m.value.height > 0.0 ==>
        && phase == Exploding && pixels == Raster(m.value, dist, rnd)
        && buttonHidden && scheduled && ticks == 0
        && completions == old(completions)
    {
      if phase != Idle {
        return;
      }
      var generated := Rasterize(m, dist, rnd);
      if m.Some? {
        RasterEmpty(m.value, dist, rnd);
      }
      if generated.None? || |generated.value| == 0 {
        completions := completions + 1;
        return;
      }
      var g := m.value;
      forall i | 0 <= i < |generated.value|
        ensures generated.value[i].id == i && generated.value[i].size == 4.0
        ensures 0.96 <= generated.value[i].friction < 0.98 && generated.value[i].opacity == 1.0
      {
        var rows := Steps(g.height);
        FreshParticle(g, Pitch * ColumnOf(i, rows) as real, Pitch * RowOf(i, rows) as real, i, rnd(i), dist);
      }
      buttonHidden := true;
      phase := Exploding;
      pixels := generated.value;
      scheduled := true;
      ticks, base := 0, completions;
    }

    /** One animation frame: integrate every particle, then either request
        the next frame (switching to fading once the mean speed is below the
        settle threshold) or, when nothing is visible any more, call
        `onStart`. */
    method Tick()
      requires Valid() && scheduled
      modifies this
      ensures Valid()
      ensures pixels == Advance(old(pixels))
      ensures ticks == old(ticks) + 1 && base == old(base) && buttonHidden
      ensures AnyVisible(pixels) ==>
        && scheduled && completions == old(completions)
        && phase == (if MeanSpeed(pixels) < SettleThreshold then Fading else old(phase))
      ensures !AnyVisible(pixels) ==>
        !scheduled && completions == old(completions) + 1 && phase == old(phase)
      ensures phase != Idle && (old(phase) == Fading ==> phase == Fading)
    {
      var updated := Integrate(pixels);
      pixels := updated;
      ticks := ticks + 1;
      forall i | 0 <= i < |updated|
        ensures updated[i].opacity == 1.0 - FadeStep * ticks as real
      {
        AdvanceRule(old(pixels), i);
      }
      UniformVisible(updated, 1.0 - FadeStep * ticks as real);
      FadedVisible(ticks);
      if AnyVisible(updated) {
        VisibleIsNonEmpty(updated);
        if MeanSpeed(updated) < SettleThreshold {
          phase := Fading;
        }
        scheduled := true;
      } else {
        scheduled := false;
        completions := completions + 1;
      }
    }

    /** The chain of animation frames: each frame requests the next until
        the run completes. It always ends, on tick 159, with `onStart`
        called exactly once for the run. */
    method RunFrames()
      requires Valid() && scheduled
      modifies this
      ensures Valid() && !scheduled && ticks == RunLength && phase != Idle
      ensures completions == old(completions) + 1
      ensures pixels == Iterate(old(pixels), RunLength - old(ticks))
    {
      while scheduled
        invariant Valid() && phase != Idle && base == old(base)
        invariant old(ticks) <= ticks
        invariant pixels == Iterate(old(pixels), ticks - old(ticks))
        decreases RunLength - ticks
      {
        Tick();
      }
    }
  }
}
