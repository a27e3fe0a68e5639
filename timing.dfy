/**
 * Slide timing of the encoding stage (src/routes/jobs.js): the slide images are
 * the files of the job directory named like `slide-*.png`, every slide is shown
 * for the requested duration divided by the number of slides, rounded, but at
 * least three seconds, and the zoom filter lasts that many seconds at 30 frames
 * per second.
 */
module Timing {
  import opened JsText

  const DefaultDuration := 90
  const MinSlideSeconds := 3
  const FramesPerSecond := 30

  /** `/^slide-.*\.png$/i.test(f)`. */
  predicate IsSlideFile(f: string) {
    && |f| >= 10
    && Lower(f[..6]) == "slide-"
    && Lower(f[|f| - 4..]) == ".png"
    && forall i :: 6 <= i < |f| - 4 ==> !IsLineTerminator(f[i])
  }

  /** `Math.max(1, slides.length)` over the directory listing. */
  function SlideCount(files: seq<string>): nat {
    var n := |Filter(files, IsSlideFile)|;
    if n < 1 then 1 else n
  }

  /** `ctx.duration || 90`: an absent or zero duration means ninety seconds. */
  function EffectiveDuration(duration: Option<int>): int {
    if duration.None? || duration.value == 0 then DefaultDuration else duration.value
  }

  /** `Math.round(a / b)` for a positive `b`: the nearest integer, halves rounded up. */
  function RoundDiv(a: int, b: int): (r: int)
    requires b > 0
    ensures 2 * b * r - b <= 2 * a < 2 * b * r + b
  {
    var q := (2 * a + b) / (2 * b);
    DivBounds(2 * a + b, 2 * b);
    q
  }

  lemma DivBounds(n: int, d: int)
    requires d > 0
    ensures d * (n / d) <= n < d * (n / d) + d
  {
    assert n == d * (n / d) + n % d;
  }

  datatype SlideTiming = SlideTiming(slides: nat, perSlideSec: int, frames: int)

  /** `nSlides`, `perSlideSec` and `dFrames` of the encoding stage. */
  function PlanTiming(duration: Option<int>, files: seq<string>): SlideTiming {
    var n := SlideCount(files);
    var rounded := RoundDiv(EffectiveDuration(duration), n);
    var per := if rounded < MinSlideSeconds then MinSlideSeconds else rounded;
    SlideTiming(n, per, per * FramesPerSecond)
  }

  /** At least one slide, at least three seconds a slide, a whole number of seconds of frames. */
  lemma PlanBounds(duration: Option<int>, files: seq<string>)
    ensures var p := PlanTiming(duration, files);
      && p.slides >= 1 && p.perSlideSec >= MinSlideSeconds
      && p.frames >= MinSlideSeconds * FramesPerSecond && p.frames % FramesPerSecond == 0
      && p.frames / FramesPerSecond == p.perSlideSec
  {
  }

  /**
   * The seconds per slide are the duration divided by the slides rounded to the
   * nearest integer, unless that is below three: then they are three.
   */
  lemma PlanRounds(duration: Option<int>, files: seq<string>)
    ensures var p, d := PlanTiming(duration, files), EffectiveDuration(duration);
      && (p.perSlideSec > MinSlideSeconds ==>
            2 * p.slides * p.perSlideSec - p.slides <= 2 * d < 2 * p.slides * p.perSlideSec + p.slides)
      && (p.perSlideSec == MinSlideSeconds <==> 2 * d < 7 * p.slides)
  {
    var n, d := SlideCount(files), EffectiveDuration(duration);
    var r := RoundDiv(d, n);
    if r >= 4 {
      MulMonotone(2 * n, 4, r);
    } else {
      MulMonotone(2 * n, r, 3);
    }
  }

  /** A missing duration, a zero duration and ninety seconds give the same timing. */
  lemma PlanDefault(files: seq<string>)
    ensures PlanTiming(None, files) == PlanTiming(Some(0), files) == PlanTiming(Some(DefaultDuration), files)
  {
  }

  /** The slide count is the number of slide images, or one when there is none. */
  lemma SlideCountOfFiles(files: seq<string>)
    ensures SlideCount(files) >= 1
    ensures Filter(files, IsSlideFile) != [] ==> SlideCount(files) == |Filter(files, IsSlideFile)|
  {
  }

  lemma MulMonotone(b: int, x: int, y: int)
    requires b > 0 && x <= y
    ensures b * x <= b * y
  {
  }

  /** Rounding the quotient preserves the order of the dividends. */
  lemma RoundMonotone(a1: int, a2: int, b: int)
    requires b > 0 && a1 <= a2
    ensures RoundDiv(a1, b) <= RoundDiv(a2, b)
  {
    var r1, r2 := RoundDiv(a1, b), RoundDiv(a2, b);
    if r1 > r2 {
      MulMonotone(2 * b, r2 + 1, r1);
    }
  }

  /** A longer requested duration never shortens the time a slide is shown. */
  lemma PlanMonotone(d1: int, d2: int, files: seq<string>)
    requires d1 != 0 && d2 != 0 && d1 <= d2
    ensures PlanTiming(Some(d1), files).perSlideSec <= PlanTiming(Some(d2), files).perSlideSec
  {
    RoundMonotone(d1, d2, SlideCount(files));
  }

  /** One slide for ten seconds is shown ten seconds, three hundred frames. */
  lemma PlanOneSlide()
    ensures PlanTiming(Some(10), ["slide-1.png"]) == SlideTiming(1, 10, 300)
  {
    assert IsSlideFile("slide-1.png") by {
      assert Lower("slide-") == "slide-";
      assert Lower(".png") == ".png";
    }
    assert Filter(["slide-1.png"], IsSlideFile) == ["slide-1.png"];
  }

  /** Twenty slides in ten seconds get the three-second minimum each. */
  lemma PlanManySlides(files: seq<string>)
    requires |Filter(files, IsSlideFile)| == 20
    ensures PlanTiming(Some(10), files) == SlideTiming(20, 3, 90)
  {
  }
}
