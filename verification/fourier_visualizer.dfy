/**
 * The state of the Fourier Transform plugin: the two coefficient sets,
 * the trace buffer, the loop phase, the reversed epicycle and the
 * preparation / ready / error / destroy lifecycle. Drawing is not modelled;
 * the SVG sampler, the random draws and the trigonometric functions are
 * parameters.
 */
module FourierVisualizer {
  import opened Common
  import opened FourierMath
  import opened FourierDft

  const SamplePointCount: nat := 100
  const TargetSamplePointCount: nat := 720
  const TargetWidthRatio: real := 1.0
  const NoCoefficientMessage: string := "No coefficient generated."
  const LoadFailedPrefix: string := "Load failed: "

  /**
   * What the SVG sampler promises: either it fails with a message, or it
   * returns at least two points (it throws 'Insufficient sampled points.'
   * otherwise).
   */
  predicate SamplerContract(r: Result<seq<Point>>)
  {
    r.Ok? ==> |r.value| >= 2
  }

  /** The phase of sub-step `s` of a frame: `_wrap01(basePhase + (step * s) / 4)`. */
  function SamplePhase(basePhase: real, step: real, s: nat): (r: real)
    ensures 0.0 <= r < 1.0
  {
    Wrap01(basePhase + (step * s as real) / TracePointsPerFrame as real)
  }

  /**
   * The sample one sub-step appends: where the chain of `coeffs` ends, and,
   * as its morph target, where the chain of `targetCoeffs` ends.
   */
  function FrameSample(trig: Trig, center: Point, drawScale: real, phase01: real,
                       coeffs: seq<Coeff>, targetCoeffs: seq<Coeff>, reverseIndex: int): TracePoint
  {
    var e := ChainTip(trig, center, drawScale, phase01, coeffs, reverseIndex, |coeffs|);
    var t := ChainTip(trig, center, drawScale, phase01, targetCoeffs, reverseIndex, |targetCoeffs|);
    TracePoint(e.x, e.y, t.x, t.y)
  }

  /** The `TRACE_POINTS_PER_FRAME` samples of one frame, sub-steps 1 to 4 in order. */
  function FrameSamples(trig: Trig, center: Point, drawScale: real, basePhase: real, step: real,
                        coeffs: seq<Coeff>, targetCoeffs: seq<Coeff>, reverseIndex: int): (r: seq<TracePoint>)
    ensures |r| == TracePointsPerFrame
  {
    seq(TracePointsPerFrame, i requires 0 <= i < TracePointsPerFrame =>
      FrameSample(trig, center, drawScale, SamplePhase(basePhase, step, i + 1), coeffs, targetCoeffs, reverseIndex))
  }

  /** `targetWidth / Math.max(1e-6, shapeNormWidth)`: pixels per normalised unit. */
  function DrawScale(width: real, shapeNormWidth: real): real
  {
    width * TargetWidthRatio / MaxReal(MinNormSize, shapeNormWidth)
  }

  /** The set the morph targets follow: the 720-point set, or the drawn set when that is empty. */
  function TargetSet(coeffs: seq<Coeff>, coeffsTarget: seq<Coeff>): seq<Coeff>
  {
    if |coeffsTarget| > 0 then coeffsTarget else coeffs
  }

  /**
   * The trace after frame number `frames`: once past the 20-frame warm-up
   * the old samples drift toward their targets, the frame's four samples
   * are appended, and the oldest are evicted down to 400.
   */
  function TraceAfterFrame(trig: Trig, center: Point, drawScale: real, frames: nat, trace: seq<TracePoint>,
                           basePhase: real, step: real, coeffs: seq<Coeff>, targetCoeffs: seq<Coeff>,
                           reverseIndex: int): (r: seq<TracePoint>)
    ensures |r| <= MaxTracePoints
  {
    var kept := if frames > DriftStartDelayFrames then MorphAll(trace) else trace;
    KeepLast(kept + FrameSamples(trig, center, drawScale, basePhase, step, coeffs, targetCoeffs, reverseIndex),
             MaxTracePoints)
  }

  /** The coefficient set a sampled shape yields: DFT, sort by amplitude, keep 120. */
  function CoefficientsOf(trig: Trig, ps: seq<Point>): seq<Coeff>
    requires |ps| > 0
  {
    SelectTop(Dft(trig, Normalize(ps).points))
  }

  /**
   * From a successful sample of at least one point, the coefficient set is
   * non-empty, at most 120 long and ordered by non-increasing amplitude, so
   * the 'No coefficient generated.' outcome cannot follow a successful sample.
   */
  lemma CoefficientsOfSample(trig: Trig, ps: seq<Point>)
    requires |ps| > 0
    ensures var cs := CoefficientsOf(trig, ps);
      && |cs| == (if |ps| < MaxCoefficients then |ps| else MaxCoefficients)
      && |cs| > 0
      && AmpsNonIncreasing(cs)
  {
    NormalizeBounds(ps);
    SelectTopProperties(Dft(trig, Normalize(ps).points));
  }

  /**
   * One shape's part of `_startPreparation`: normalise the samples, take
   * their DFT, sort by amplitude and keep the first 120, and report the
   * normalised extents floored at 1e-6.
   */
  method PrepareShape(trig: Trig, ps: seq<Point>) returns (cs: seq<Coeff>, normWidth: real, normHeight: real)
    requires |ps| > 0
    ensures cs == CoefficientsOf(trig, ps)
    ensures |cs| > 0 && |cs| <= MaxCoefficients && AmpsNonIncreasing(cs)
    ensures normWidth == MaxReal(MinNormSize, Normalize(ps).width)
    ensures normHeight == MaxReal(MinNormSize, Normalize(ps).height)
    ensures MinNormSize <= normWidth <= 1.0 && MinNormSize <= normHeight <= 1.0
  {
    var normalized := NormalizePoints(ps);
    NormalizeBounds(ps);
    var all := ComputeDft(trig, normalized.points);
    cs := SelectTop(all);
    CoefficientsOfSample(trig, ps);
    normWidth := MaxReal(MinNormSize, normalized.width);
    normHeight := MaxReal(MinNormSize, normalized.height);
  }

  /**
   * Both coefficient sets hold at most 120 terms in non-increasing
   * amplitude, and the reversed epicycle is none (-1) or a reversible term
   * of the drawn set.
   */
  predicate CoefficientSetsValid(coeffs: seq<Coeff>, coeffsTarget: seq<Coeff>, reverseIndex: int)
  {
    && |coeffs| <= MaxCoefficients && |coeffsTarget| <= MaxCoefficients
    && AmpsNonIncreasing(coeffs) && AmpsNonIncreasing(coeffsTarget)
    && ReversibleOrNone(coeffs, reverseIndex)
  }

  /** No reversed epicycle (-1), or the index of a reversible term. */
  predicate ReversibleOrNone(coeffs: seq<Coeff>, reverseIndex: int)
  {
    reverseIndex == -1 || (0 <= reverseIndex < |coeffs| && IsCandidate(coeffs[reverseIndex]))
  }

  class Visualizer {
    /** Whether the p5 sketch exists (`this._sk` is not null). */
    var attached: bool
    var coeffs: seq<Coeff>
    var coeffsTarget: seq<Coeff>
    /** The single trace (`TRACE_COUNT` is 1). */
    var trace: seq<TracePoint>
    var phase: real
    /** `1 / LOOP_FRAMES`: one frame's step along the loop. */
    const phaseStep: real := 1.0 / LoopFrames as real
    var reverseIndex: int
    var shapeNormWidth: real
    var shapeNormHeight: real
    var drawFramesSinceReady: nat
    var loading: bool
    var ready: bool
    var errorMessage: string
    var destroyed: bool

    ghost predicate Valid()
      reads this`phase, this`trace, this`coeffs, this`coeffsTarget, this`reverseIndex, this`ready,
            this`shapeNormWidth, this`shapeNormHeight
    {
      && 0.0 <= phase < 1.0
      && |trace| <= MaxTracePoints
      && CoefficientSetsValid(coeffs, coeffsTarget, reverseIndex)
      && (ready ==> |coeffs| > 0)
      && MinNormSize <= shapeNormWidth <= 1.0 && MinNormSize <= shapeNormHeight <= 1.0
    }

    /**
     * The drawing state a destroy leaves: no coefficients, no trace, no
     * reversed epicycle, unit extents, frame counter 0, not ready.
     */
    ghost predicate Cleared()
      reads this`coeffs, this`coeffsTarget, this`trace, this`reverseIndex, this`ready,
            this`drawFramesSinceReady, this`shapeNormWidth, this`shapeNormHeight
    {
      && coeffs == [] && coeffsTarget == [] && trace == [] && reverseIndex == -1 && !ready
      && drawFramesSinceReady == 0 && shapeNormWidth == 1.0 && shapeNormHeight == 1.0
    }

    /**
     * The drawing state a preparation installs and a destroy clears:
     * both coefficient sets, the extents, the trace, the reversed epicycle
     * and the frame counter (the phase, which the `finally` keeps, is apart).
     */
    ghost function Drawing(): (seq<Coeff>, seq<Coeff>, real, real, seq<TracePoint>, int, nat)
      reads this`coeffs, this`coeffsTarget, this`shapeNormWidth, this`shapeNormHeight, this`trace,
            this`reverseIndex, this`drawFramesSinceReady
    {
      (coeffs, coeffsTarget, shapeNormWidth, shapeNormHeight, trace, reverseIndex, drawFramesSinceReady)
    }

    /**
     * The state after a successful preparation from samples `low` and
     * `high`: the coefficient sets of both shapes, the extents of `low`
     * floored at 1e-6, trace, phase and frame counter restarted, and the
     * reversed epicycle the draws `u1`, `u2` pick.
     */
    ghost predicate Installed(trig: Trig, low: seq<Point>, high: seq<Point>, u1: real, u2: real)
      requires |low| > 0 && |high| > 0
      reads this`coeffs, this`coeffsTarget, this`shapeNormWidth, this`shapeNormHeight, this`trace,
            this`phase, this`drawFramesSinceReady, this`reverseIndex
    {
      && coeffs == CoefficientsOf(trig, low) && coeffsTarget == CoefficientsOf(trig, high)
      && shapeNormWidth == MaxReal(MinNormSize, Normalize(low).width)
      && shapeNormHeight == MaxReal(MinNormSize, Normalize(low).height)
      && trace == [] && phase == 0.0 && drawFramesSinceReady == 0
      && reverseIndex == PickReverseIndex(coeffs, u1, u2)
    }

    /** The field values `init` starts from. */
    constructor ()
      ensures Valid()
      ensures attached && coeffs == [] && coeffsTarget == [] && trace == []
      ensures phase == 0.0 && reverseIndex == -1 && drawFramesSinceReady == 0
      ensures shapeNormWidth == 1.0 && shapeNormHeight == 1.0
      ensures !loading && !ready && errorMessage == "" && !destroyed
    {
      attached := true;
      coeffs, coeffsTarget := [], [];
      trace := [];
      phase := 0.0;
      reverseIndex := -1;
      shapeNormWidth, shapeNormHeight := 1.0, 1.0;
      drawFramesSinceReady := 0;
      loading, ready := false, false;
      errorMessage := "";
      destroyed := false;
    }

    /**
     * `resize`: with a sketch, the trace, the phase, the reversed epicycle
     * and the frame counter restart; both coefficient sets, the readiness
     * and the error are kept. Without a sketch nothing happens.
     */
    method Resize()
      requires Valid()
      modifies this
      ensures Valid()
      ensures coeffs == old(coeffs) && coeffsTarget == old(coeffsTarget)
      ensures ready == old(ready) && loading == old(loading) && errorMessage == old(errorMessage)
      ensures destroyed == old(destroyed) && attached == old(attached)
      ensures shapeNormWidth == old(shapeNormWidth) && shapeNormHeight == old(shapeNormHeight)
      ensures old(attached) ==> trace == [] && phase == 0.0 && reverseIndex == -1 && drawFramesSinceReady == 0
      ensures !old(attached) ==>
        trace == old(trace) && phase == old(phase) && reverseIndex == old(reverseIndex)
        && drawFramesSinceReady == old(drawFramesSinceReady)
    {
      if !attached {
        return;
      }
      trace := [];
      phase := 0.0;
      reverseIndex := -1;
      drawFramesSinceReady := 0;
    }

    /**
     * `destroy`: marks the plugin destroyed, drops the sketch and resets
     * every piece of drawing state; a preparation still in flight sees the
     * mark when it completes.
     */
    method Destroy()
      modifies this`destroyed, this`attached, this`coeffs, this`coeffsTarget, this`trace, this`phase,
               this`reverseIndex, this`shapeNormWidth, this`shapeNormHeight, this`drawFramesSinceReady, this`ready
      ensures Valid()
      ensures destroyed && !attached && Cleared() && phase == 0.0
    {
      destroyed := true;
      attached := false;
      coeffs, coeffsTarget := [], [];
      trace := [];
      phase := 0.0;
      reverseIndex := -1;
      shapeNormWidth, shapeNormHeight := 1.0, 1.0;
      drawFramesSinceReady := 0;
      ready := false;
    }

    /**
     * The synchronous start of `_startPreparation`: nothing happens while a
     * preparation runs or once ready; otherwise loading begins and the
     * error is cleared.
     */
    method StartPreparation() returns (started: bool)
      requires Valid()
      modifies this`loading, this`errorMessage
      ensures Valid()
      ensures started <==> !old(loading) && !old(ready)
      ensures started ==> loading && errorMessage == ""
      ensures !started ==> loading == old(loading) && errorMessage == old(errorMessage)
    {
      if loading || ready {
        return false;
      }
      loading := true;
      errorMessage := "";
      return true;
    }

    /**
     * The rest of `_startPreparation`, once both samplings have finished:
     * `low` and `high` are the results of sampling 100 and 720 points, `u1`
     * and `u2` the draws of the reverse pick.
     * - On a sampler error the message is recorded, prefixed with
     *   'Load failed: ', and the plugin is not ready.
     * - Otherwise both shapes are normalised and transformed, each
     *   coefficient set is sorted by amplitude and cut to 120, the trace
     *   and phase restart, a reversed epicycle is picked, and the plugin is
     *   ready exactly when the low-resolution set is non-empty.
     * - Either way loading ends, and if the plugin was destroyed meanwhile
     *   the drawing state is cleared and it is not ready; the message and
     *   the phase are kept by that reset.
     */
    method CompletePreparation(trig: Trig, low: Result<seq<Point>>, high: Result<seq<Point>>, u1: real, u2: real)
      requires Valid() && loading
      requires SamplerContract(low) && SamplerContract(high)
      modifies this`coeffs, this`coeffsTarget, this`shapeNormWidth, this`shapeNormHeight, this`trace,
               this`phase, this`reverseIndex, this`drawFramesSinceReady, this`ready, this`errorMessage, this`loading
      ensures Valid() && !loading
      ensures destroyed ==> Cleared()
      ensures !destroyed ==> Outcome(trig, low, high, u1, u2)
      ensures !destroyed && (low.Err? || high.Err?) ==> Drawing() == old(Drawing())
      ensures errorMessage == (if low.Err? then LoadFailedPrefix + low.message
                               else if high.Err? then LoadFailedPrefix + high.message
                               else old(errorMessage))
      ensures phase == if low.Ok? && high.Ok? then 0.0 else old(phase)
    {
      Settle(trig, low, high, u1, u2);
      loading := false;
      ClearAfterDestroy();
    }

    /**
     * What the `try` / `catch` of `_startPreparation` leaves: the first
     * sampler error, prefixed with 'Load failed: ', and not ready; or, with
     * both samples, the installed coefficient sets and ready.
     */
    ghost predicate Outcome(trig: Trig, low: Result<seq<Point>>, high: Result<seq<Point>>, u1: real, u2: real)
      requires SamplerContract(low) && SamplerContract(high)
      reads this`coeffs, this`coeffsTarget, this`shapeNormWidth, this`shapeNormHeight, this`trace,
            this`phase, this`drawFramesSinceReady, this`reverseIndex, this`ready, this`errorMessage
    {
      if low.Err? then !ready && errorMessage == LoadFailedPrefix + low.message
      else if high.Err? then !ready && errorMessage == LoadFailedPrefix + high.message
      else Installed(trig, low.value, high.value, u1, u2) && ready
    }

    /** The `try` / `catch` of `_startPreparation`. */
    method Settle(trig: Trig, low: Result<seq<Point>>, high: Result<seq<Point>>, u1: real, u2: real)
      requires Valid()
      requires SamplerContract(low) && SamplerContract(high)
      modifies this`coeffs, this`coeffsTarget, this`shapeNormWidth, this`shapeNormHeight, this`trace,
               this`phase, this`reverseIndex, this`drawFramesSinceReady, this`ready, this`errorMessage
      ensures Valid()
      ensures Outcome(trig, low, high, u1, u2)
      ensures (low.Err? || high.Err?) ==> Drawing() == old(Drawing())
      ensures errorMessage == (if low.Err? then LoadFailedPrefix + low.message
                               else if high.Err? then LoadFailedPrefix + high.message
                               else old(errorMessage))
      ensures phase == if low.Ok? && high.Ok? then 0.0 else old(phase)
    {
      if low.Err? {
        Fail(low.message);
      } else if high.Err? {
        Fail(high.message);
      } else {
        Install(trig, low.value, high.value, u1, u2);
      }
    }

    /** The `catch` of `_startPreparation`: record the failure, not ready. */
    method Fail(message: string)
      requires Valid()
      modifies this`errorMessage, this`ready
      ensures Valid()
      ensures errorMessage == LoadFailedPrefix + message && !ready
    {
      errorMessage := LoadFailedPrefix + message;
      ready := false;
    }

    /**
     * The successful path of `_startPreparation`: install both coefficient
     * sets and the normalised extents, restart the trace, phase and frame
     * counter, pick the reversed epicycle, and become ready.
     */
    method Install(trig: Trig, low: seq<Point>, high: seq<Point>, u1: real, u2: real)
      requires Valid() && |low| > 0 && |high| > 0
      modifies this`coeffs, this`coeffsTarget, this`shapeNormWidth, this`shapeNormHeight, this`trace,
               this`phase, this`reverseIndex, this`drawFramesSinceReady, this`ready, this`errorMessage
      ensures Valid()
      ensures Installed(trig, low, high, u1, u2)
      ensures ready && errorMessage == old(errorMessage)
    {
      var cs, normWidth, normHeight := PrepareShape(trig, low);
      var csTarget, _, _ := PrepareShape(trig, high);
      coeffs := cs;
      coeffsTarget := csTarget;
      shapeNormWidth := normWidth;
      shapeNormHeight := normHeight;
      trace := [];
      phase := 0.0;
      reverseIndex := PickReverseEpicycleIndex(coeffs, u1, u2);
      PickIsCandidate(coeffs, u1, u2);
      drawFramesSinceReady := 0;
      ready := |coeffs| > 0;
      errorMessage := if ready then errorMessage else NoCoefficientMessage;
    }

    /**
     * The `finally` of `_startPreparation`: after a destroy the drawing
     * state is dropped; otherwise nothing changes.
     */
    method ClearAfterDestroy()
      requires Valid()
      modifies this`coeffs, this`coeffsTarget, this`trace, this`reverseIndex,
               this`shapeNormWidth, this`shapeNormHeight, this`drawFramesSinceReady, this`ready
      ensures Valid()
      ensures destroyed ==> Cleared()
      ensures !destroyed ==> unchanged(this)
    {
      if !destroyed {
        return;
      }
      coeffs, coeffsTarget := [], [];
      trace := [];
      reverseIndex := -1;
      shapeNormWidth, shapeNormHeight := 1.0, 1.0;
      drawFramesSinceReady := 0;
      ready := false;
    }

    /** `_deformTracePoints`: every sample moves 0.5% of the way to its target. */
    method DeformTracePoints()
      modifies this`trace
      ensures trace == MorphAll(old(trace))
    {
      for i := 0 to |trace|
        invariant |trace| == |old(trace)|
        invariant forall j :: 0 <= j < i ==> trace[j] == Morph(old(trace)[j])
        invariant forall j :: i <= j < |trace| ==> trace[j] == old(trace)[j]
      {
        var p := trace[i];
        trace := trace[i := p.(x := p.x + (p.targetX - p.x) * TraceMorphLerp,
                               y := p.y + (p.targetY - p.y) * TraceMorphLerp)];
      }
    }

    /**
     * The state update of `_drawFrame` on a canvas of `width` by `height`:
     * the trace update of `AdvanceTrace`, then one step along the loop,
     * re-picking the reversed epicycle (with draws `u1`, `u2`) exactly when
     * the phase wraps.
     */
    method DrawFrame(trig: Trig, width: real, height: real, u1: real, u2: real)
      requires Valid()
      modifies this`drawFramesSinceReady, this`trace, this`phase, this`reverseIndex
      ensures Valid()
      ensures drawFramesSinceReady == old(drawFramesSinceReady) + 1
      ensures trace == TraceAfterFrame(trig, Point(width * 0.5, height * 0.5), DrawScale(width, shapeNormWidth),
                                       drawFramesSinceReady, old(trace), old(phase), phaseStep,
                                       coeffs, TargetSet(coeffs, coeffsTarget), old(reverseIndex))
      ensures var (p, wrapped) := AdvancePhase(old(phase), phaseStep);
        && phase == p
        && (wrapped ==> reverseIndex == PickReverseIndex(coeffs, u1, u2))
        && (!wrapped ==> reverseIndex == old(reverseIndex))
    {
      AdvanceTrace(trig, width, height);
      AdvanceLoop(u1, u2);
    }

    /**
     * The trace part of `_drawFrame`: count the frame; once past the
     * 20-frame warm-up morph the trace; push the frame's four samples and
     * evict from the front down to 400.
     */
    method AdvanceTrace(trig: Trig, width: real, height: real)
      modifies this`drawFramesSinceReady, this`trace
      ensures drawFramesSinceReady == old(drawFramesSinceReady) + 1
      ensures trace == TraceAfterFrame(trig, Point(width * 0.5, height * 0.5), DrawScale(width, shapeNormWidth),
                                       drawFramesSinceReady, old(trace), phase, phaseStep,
                                       coeffs, TargetSet(coeffs, coeffsTarget), reverseIndex)
    {
      drawFramesSinceReady := drawFramesSinceReady + 1;
      if drawFramesSinceReady > DriftStartDelayFrames {
        DeformTracePoints();
      }

      var centerX := width * 0.5;
      var centerY := height * 0.5;
      var drawScale := DrawScale(width, shapeNormWidth);
      var targetCoeffs := if |coeffsTarget| > 0 then coeffsTarget else coeffs;
      PushFrameSamples(trig, Point(centerX, centerY), drawScale, targetCoeffs);
      EvictOldest();
    }

    /** Drops samples from the front of the trace down to `maxTracePoints` (400). */
    method EvictOldest()
      modifies this`trace
      ensures trace == KeepLast(old(trace), MaxTracePoints)
    {
      var maxTracePoints := MaxTracePoints;
      if |trace| > maxTracePoints {
        trace := trace[|trace| - maxTracePoints..];
      }
    }

    /**
     * The sampling loop of `_drawFrame`: for sub-steps 1 to 4, push where the
     * chain of `coeffs` ends at that sub-step's phase, with the end of the
     * chain of `targetCoeffs` as its morph target.
     */
    method PushFrameSamples(trig: Trig, center: Point, drawScale: real, targetCoeffs: seq<Coeff>)
      modifies this`trace
      ensures trace == old(trace) + FrameSamples(trig, center, drawScale, phase, phaseStep,
                                                 coeffs, targetCoeffs, reverseIndex)
    {
      var basePhase := phase;
      var subStepCount := TracePointsPerFrame;
      ghost var samples := FrameSamples(trig, center, drawScale, basePhase, phaseStep,
                                        coeffs, targetCoeffs, reverseIndex);
      for s := 1 to subStepCount + 1
        invariant trace == old(trace) + samples[..s - 1]
      {
        var samplePhase := SamplePhase(basePhase, phaseStep, s);
        var endpoint := GetEndpointForCoeffs(trig, center.x, center.y, drawScale, samplePhase, coeffs, reverseIndex);
        var targetEndpoint := GetEndpointForCoeffs(trig, center.x, center.y, drawScale, samplePhase, targetCoeffs, reverseIndex);
        assert samples[s - 1] == TracePoint(endpoint.x, endpoint.y, targetEndpoint.x, targetEndpoint.y);
        assert samples[..s] == samples[..s - 1] + [samples[s - 1]];
        trace := trace + [TracePoint(endpoint.x, endpoint.y, targetEndpoint.x, targetEndpoint.y)];
      }
      assert samples[..subStepCount] == samples;
    }

    /**
     * The end of `_drawFrame`: one step along the loop; on wrapping past 1
     * the phase drops by 1 and a new reversed epicycle is drawn.
     */
    method AdvanceLoop(u1: real, u2: real)
      requires 0.0 <= phase < 1.0
      modifies this`phase, this`reverseIndex
      ensures 0.0 <= phase < 1.0
      ensures reverseIndex == old(reverseIndex) || ReversibleOrNone(coeffs, reverseIndex)
      ensures var (p, wrapped) := AdvancePhase(old(phase), phaseStep);
        && phase == p
        && (wrapped ==> reverseIndex == PickReverseIndex(coeffs, u1, u2))
        && (!wrapped ==> reverseIndex == old(reverseIndex))
    {
      PhaseAdvanceStaysInUnit(phase, phaseStep);
      phase := phase + phaseStep;
      if phase >= 1.0 {
        phase := phase - 1.0;
        reverseIndex := PickReverseEpicycleIndex(coeffs, u1, u2);
        PickIsCandidate(coeffs, u1, u2);
      }
    }

    /** The sketch's `draw`: a frame is only computed once the plugin is ready. */
    method Draw(trig: Trig, width: real, height: real, u1: real, u2: real)
      requires Valid()
      modifies this`drawFramesSinceReady, this`trace, this`phase, this`reverseIndex
      ensures Valid()
      ensures !old(ready) ==> unchanged(this)
      ensures old(ready) ==> drawFramesSinceReady == old(drawFramesSinceReady) + 1
      ensures old(ready) ==>
        trace == TraceAfterFrame(trig, Point(width * 0.5, height * 0.5), DrawScale(width, shapeNormWidth),
                                 drawFramesSinceReady, old(trace), old(phase), phaseStep,
                                 coeffs, TargetSet(coeffs, coeffsTarget), old(reverseIndex))
      ensures old(ready) ==>
        var (p, wrapped) := AdvancePhase(old(phase), phaseStep);
        && phase == p
        && (wrapped ==> reverseIndex == PickReverseIndex(coeffs, u1, u2))
        && (!wrapped ==> reverseIndex == old(reverseIndex))
    {
      if !ready {
        return;
      }
      DrawFrame(trig, width, height, u1, u2);
    }
  }
}
