/** The donut chart animator of the statistics slide: a one-shot guard, then an
    interval that advances a frame counter, eases the shown percentage from 0
    towards the target and clears itself on the last frame. */
module Chart {
  import opened Common
  import opened Easing

  const TargetValue: real := 78.0
  const DurationMs: real := 2000.0
  const FrameRate: real := 60.0

  /** `Math.round((duration / 1000) * frameRate)`: two seconds at 60 frames per second. */
  function TotalFrames(): (n: int)
    ensures n == 120
  {
    JsRound(DurationMs / 1000.0 * FrameRate)
  }

  /** The percentage shown once `frame` ticks have run: the eased value, and the
      exact target from the last frame on. */
  function ValueAt(frame: nat): (v: real)
    ensures 0.0 <= v <= TargetValue
    ensures frame == 0 ==> v == 0.0
    ensures frame >= TotalFrames() ==> v == TargetValue
  {
    if frame >= TotalFrames() then TargetValue
    else
      EaseBounds(frame as real, 0.0, TargetValue, TotalFrames() as real);
      EaseOutCubic(frame as real, 0.0, TargetValue, TotalFrames() as real)
  }

  /** Later frames never show a smaller percentage. */
  lemma ValueAtMonotone(f1: nat, f2: nat)
    requires f1 <= f2
    ensures ValueAt(f1) <= ValueAt(f2)
  {
    if f2 < TotalFrames() {
      EaseMonotone(f1 as real, f2 as real, 0.0, TargetValue, TotalFrames() as real);
    }
  }

  /** The text `Math.round(currentValue)` stays within 0..78 and never goes down. */
  lemma LabelBoundsAndMonotone(f1: nat, f2: nat)
    requires f1 <= f2
    ensures 0 <= JsRound(ValueAt(f1)) <= JsRound(ValueAt(f2)) <= 78
  {
    ValueAtMonotone(f1, f2);
    JsRoundMonotone(0.0, ValueAt(f1));
    JsRoundMonotone(ValueAt(f1), ValueAt(f2));
    JsRoundMonotone(ValueAt(f2), TargetValue);
    JsRoundWhole(0);
    JsRoundWhole(78);
  }

  class ChartAnimator {
    /** Whether `.donut-chart` and `.chart-value` exist. */
    const hasElements: bool
    /** The one-shot guard `chartAnimated`. */
    var chartAnimated: bool
    /** The interval is set and not yet cleared. */
    var running: bool
    var currentFrame: nat
    var currentValue: real
    /** The raspberry share of the conic gradient, once painted. */
    var fill: Option<real>
    /** The rounded percentage in the `.chart-value` text, once painted. */
    var text: Option<int>

    ghost predicate Valid()
      reads this
    {
      currentFrame <= TotalFrames() &&
      currentValue == ValueAt(currentFrame) &&
      (running ==> chartAnimated && hasElements && currentFrame < TotalFrames()) &&
      (!chartAnimated ==> !running && currentFrame == 0) &&
      fill == (if currentFrame == 0 then None else Some(currentValue)) &&
      text == (if currentFrame == 0 then None else Some(JsRound(currentValue)))
    }

    constructor (hasElements: bool)
      ensures Valid() && this.hasElements == hasElements
      ensures !chartAnimated && !running && currentFrame == 0
    {
      this.hasElements := hasElements;
      chartAnimated, running := false, false;
      currentFrame, currentValue := 0, 0.0;
      fill, text := None, None;
    }

    /** `animateChart()`: the guard is set before the elements are looked up, so
        a call with the elements missing also uses up the one run. */
    method AnimateChart()
      requires Valid()
      modifies this
      ensures Valid() && chartAnimated
      ensures old(chartAnimated) ==> unchanged(this)
      ensures !old(chartAnimated) ==> running == hasElements && currentFrame == 0
                                      && fill == None && text == None
    {
      if chartAnimated { return; }
      chartAnimated := true;
      if !hasElements { return; }
      currentValue, currentFrame := 0.0, 0;
      running := true;
    }

    /** One firing of the interval. Once it has been cleared, nothing changes. */
    method Tick()
      requires Valid()
      modifies this
      ensures Valid()
      ensures !old(running) ==> unchanged(this)
      ensures old(running) ==>
        currentFrame == old(currentFrame) + 1 && chartAnimated &&
        currentValue == ValueAt(currentFrame) &&
        running == (currentFrame < TotalFrames()) &&
        fill == Some(currentValue) && text == Some(JsRound(currentValue))
      ensures old(running) && currentFrame == TotalFrames() ==> currentValue == TargetValue && !running
    {
      if !running { return; }
      currentFrame := currentFrame + 1;
      currentValue := EaseOutCubic(currentFrame as real, 0.0, TargetValue, TotalFrames() as real);
      if currentFrame >= TotalFrames() {
        currentValue := TargetValue;
        running := false;
      }
      fill := Some(currentValue);
      text := Some(JsRound(currentValue));
    }
  }
}
