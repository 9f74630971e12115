/**
 * Pure arithmetic of the Fourier Transform plugin: the phase wrap, the
 * signed-frequency mapping of the DFT, the ordering and truncation of
 * coefficients by amplitude, the fade ramp of the trace stroke and the
 * morph of a trace sample toward its target.
 */
module FourierMath {
  import opened Common

  const LoopFrames: nat := 300
  const MaxCoefficients: nat := 120
  const DriftStartDelayFrames: nat := 20
  const TraceMorphLerp: real := 0.005
  const TraceLifetimeFrames: nat := 100
  const TracePointsPerFrame: nat := 4
  const TraceFadeWindowRatio: real := 0.8
  const ReverseOneProbability: real := 0.5

  /** `Math.max(2, TRACE_LIFETIME_FRAMES * subStepCount)`: the trace's bound. */
  const MaxTracePoints: nat := 400

  // ---------------------------------------------------------------------
  // Phase

  /** The integer part toward zero, as JavaScript's `%` uses it. */
  function Trunc(v: real): (t: int)
    ensures v >= 0.0 ==> t as real <= v < t as real + 1.0
    ensures v < 0.0 ==> t as real - 1.0 < v <= t as real
  {
    if v >= 0.0 then v.Floor else -((-v).Floor)
  }

  /** JavaScript `v % 1`: the remainder keeps the sign of `v`. */
  function JsRem1(v: real): (r: real)
    ensures -1.0 < r < 1.0
    ensures v >= 0.0 ==> r >= 0.0
    ensures v < 0.0 ==> r <= 0.0
  {
    v - Trunc(v) as real
  }

  /** `_wrap01`: `((v % 1) + 1) % 1`. */
  function Wrap01(v: real): (r: real)
    ensures 0.0 <= r < 1.0
  {
    JsRem1(JsRem1(v) + 1.0)
  }

  /** The wrap is the fractional part `v - floor(v)`, for negative `v` too. */
  lemma Wrap01IsFraction(v: real)
    ensures Wrap01(v) == v - v.Floor as real
  {
    var t := Trunc(v);
    var a := JsRem1(v);
    assert a == v - t as real;
    var b := a + 1.0;
    if v >= 0.0 {
      assert t == v.Floor;
      assert 1.0 <= b < 2.0;
      assert b.Floor == 1;
    } else if a == 0.0 {
      assert v == t as real;
      assert v.Floor == t;
      assert b.Floor == 1;
    } else {
      assert t as real - 1.0 < v < t as real;
      assert v.Floor == t - 1;
      assert 0.0 < b < 1.0;
      assert b.Floor == 0;
    }
  }

  /** On [0, 1) the wrap is the identity. */
  lemma Wrap01Identity(v: real)
    requires 0.0 <= v < 1.0
    ensures Wrap01(v) == v
  {
    Wrap01IsFraction(v);
    assert v.Floor == 0;
  }

  /**
   * The end of `_drawFrame`: `_phase += _phaseStep`, then subtract 1 once
   * when it reached 1. The boolean tells whether the wrap happened (and the
   * reverse epicycle is re-picked).
   */
  function AdvancePhase(phase: real, step: real): (real, bool)
  {
    var p := phase + step;
    if p >= 1.0 then (p - 1.0, true) else (p, false)
  }

  /**
   * For a phase in [0, 1) and a step in (0, 1], the advanced phase stays in
   * [0, 1), agrees with `_wrap01` of the sum, and the wrap happens exactly
   * when the sum reaches 1.
   */
  lemma PhaseAdvanceStaysInUnit(phase: real, step: real)
    requires 0.0 <= phase < 1.0 && 0.0 < step <= 1.0
    ensures var (p, wrapped) := AdvancePhase(phase, step);
      && 0.0 <= p < 1.0
      && (wrapped <==> phase + step >= 1.0)
      && p == Wrap01(phase + step)
  {
    var v := phase + step;
    Wrap01IsFraction(v);
    if v >= 1.0 {
      assert v.Floor == 1;
    } else {
      assert v.Floor == 0;
    }
  }

  // ---------------------------------------------------------------------
  // Frequencies and coefficients

  /**
   * The frequency of DFT bin `k` of `n`: `k <= n / 2 ? k : k - n`, with
   * `/` the real division of JavaScript. The result lies in (-n/2, n/2],
   * and the bin is recovered from it by adding `n` to a negative frequency.
   */
  function SignedFreq(k: nat, n: nat): (f: int)
    requires k < n
    ensures -(n as int) < 2 * f <= n
    ensures k == if f >= 0 then f else f + n
  {
    if k as real <= n as real / 2.0 then k else k - n
  }

  /** Distinct bins get distinct frequencies. */
  lemma SignedFreqInjective(j: nat, k: nat, n: nat)
    requires j < n && k < n
    requires SignedFreq(j, n) == SignedFreq(k, n)
    ensures j == k
  {
  }

  /** Only bin 0 has frequency 0: the term the endpoint sum skips is the mean. */
  lemma ZeroFreqOnlyAtZero(k: nat, n: nat)
    requires k < n
    ensures SignedFreq(k, n) == 0 <==> k == 0
  {
  }

  /** A coefficient as `_computeDft` builds it. */
  datatype Coeff = Coeff(freq: int, re: real, im: real, amp: real, phase: real)

  /** Non-increasing `amp` along the order. */
  predicate AmpsNonIncreasing(s: seq<Coeff>)
  {
    forall i, j :: 0 <= i < j < |s| ==> s[i].amp >= s[j].amp
  }

  /**
   * Inserts `c` into an ordered list in front of the first coefficient whose
   * amplitude it reaches; coefficients of equal amplitude keep their order.
   */
  function InsertByAmp(c: Coeff, s: seq<Coeff>): (r: seq<Coeff>)
    ensures |r| == |s| + 1
  {
    if s == [] || c.amp >= s[0].amp then [c] + s
    else [s[0]] + InsertByAmp(c, s[1..])
  }

  /** Inserting adds exactly `c`. */
  lemma {:induction false} InsertPermutes(c: Coeff, s: seq<Coeff>)
    ensures multiset(InsertByAmp(c, s)) == multiset(s) + multiset{c}
  {
    if s != [] && c.amp < s[0].amp {
      InsertPermutes(c, s[1..]);
      assert s == [s[0]] + s[1..];
    }
  }

  /** Inserting under a bound on every amplitude keeps the bound. */
  lemma {:induction false} InsertBounded(c: Coeff, s: seq<Coeff>, bound: real)
    requires c.amp <= bound
    requires forall i :: 0 <= i < |s| ==> s[i].amp <= bound
    ensures forall i :: 0 <= i < |s| + 1 ==> InsertByAmp(c, s)[i].amp <= bound
  {
    if s == [] || c.amp >= s[0].amp {
    } else {
      InsertBounded(c, s[1..], bound);
    }
  }

  lemma {:induction false} InsertKeepsOrder(c: Coeff, s: seq<Coeff>)
    requires AmpsNonIncreasing(s)
    ensures AmpsNonIncreasing(InsertByAmp(c, s))
  {
    if s == [] || c.amp >= s[0].amp {
    } else {
      var t := InsertByAmp(c, s[1..]);
      InsertKeepsOrder(c, s[1..]);
      InsertBounded(c, s[1..], s[0].amp);
      var r := [s[0]] + t;
      assert r == InsertByAmp(c, s);
      forall i, j | 0 <= i < j < |r|
        ensures r[i].amp >= r[j].amp
      {
        assert r[j] == t[j - 1];
        if i > 0 {
          assert r[i] == t[i - 1];
        }
      }
    }
  }

  /**
   * `coeffs.sort((a, b) => b.amp - a.amp)`: descending amplitude, and
   * stable, as `Array.prototype.sort` is.
   */
  function SortByAmp(s: seq<Coeff>): (r: seq<Coeff>)
    ensures |r| == |s|
  {
    if s == [] then []
    else InsertByAmp(s[0], SortByAmp(s[1..]))
  }

  /** The sort is a permutation of its input. */
  lemma {:induction false} SortPermutes(s: seq<Coeff>)
    ensures multiset(SortByAmp(s)) == multiset(s)
  {
    if s != [] {
      SortPermutes(s[1..]);
      InsertPermutes(s[0], SortByAmp(s[1..]));
      assert s == [s[0]] + s[1..];
    }
  }

  lemma {:induction false} SortByAmpSorted(s: seq<Coeff>)
    ensures AmpsNonIncreasing(SortByAmp(s))
  {
    if s != [] {
      SortByAmpSorted(s[1..]);
      InsertKeepsOrder(s[0], SortByAmp(s[1..]));
    }
  }

  /** The coefficients of amplitude `a`, in their order in `s`. */
  function WithAmp(s: seq<Coeff>, a: real): seq<Coeff>
  {
    if s == [] then [] else (if s[0].amp == a then [s[0]] else []) + WithAmp(s[1..], a)
  }

  /**
   * Inserting `c` puts it ahead of every coefficient of equal amplitude:
   * only larger amplitudes are passed over.
   */
  lemma {:induction false} InsertWithAmp(c: Coeff, s: seq<Coeff>, a: real)
    ensures WithAmp(InsertByAmp(c, s), a) == (if c.amp == a then [c] else []) + WithAmp(s, a)
  {
    var hc := if c.amp == a then [c] else [];
    if s == [] || c.amp >= s[0].amp {
      assert ([c] + s)[0] == c && ([c] + s)[1..] == s;
      assert WithAmp([c] + s, a) == hc + WithAmp(s, a);
    } else {
      var rest := InsertByAmp(c, s[1..]);
      var h0 := if s[0].amp == a then [s[0]] else [];
      assert ([s[0]] + rest)[0] == s[0] && ([s[0]] + rest)[1..] == rest;
      assert WithAmp([s[0]] + rest, a) == h0 + WithAmp(rest, a);
      InsertWithAmp(c, s[1..], a);
      assert WithAmp(s, a) == h0 + WithAmp(s[1..], a);
      assert hc == [] || h0 == [];
      assert h0 + (hc + WithAmp(s[1..], a)) == hc + (h0 + WithAmp(s[1..], a));
    }
  }

  /**
   * The sort is stable: for every amplitude, the coefficients of that
   * amplitude keep their input order, so which of several equal
   * coefficients survive the cut to 120 is decided by input position.
   */
  lemma {:induction false} SortStable(s: seq<Coeff>, a: real)
    ensures WithAmp(SortByAmp(s), a) == WithAmp(s, a)
  {
    if s != [] {
      SortStable(s[1..], a);
      InsertWithAmp(s[0], SortByAmp(s[1..]), a);
    }
  }

  /**
   * The sort and `slice(0, Math.min(MAX_COEFFICIENTS, coeffs.length))` of
   * `_startPreparation`.
   */
  function SelectTop(s: seq<Coeff>): (r: seq<Coeff>)
    ensures |r| == if |s| < MaxCoefficients then |s| else MaxCoefficients
  {
    var sorted := SortByAmp(s);
    sorted[..if |s| < MaxCoefficients then |s| else MaxCoefficients]
  }

  /**
   * The kept coefficients are in non-increasing amplitude order, the kept
   * and the dropped ones together are exactly the input, and every kept
   * amplitude is at least every dropped one.
   */
  lemma SelectTopProperties(s: seq<Coeff>)
    ensures var r := SelectTop(s);
      var dropped := SortByAmp(s)[|r|..];
      && AmpsNonIncreasing(r)
      && multiset(r) + multiset(dropped) == multiset(s)
      && (forall i, j :: 0 <= i < |r| && 0 <= j < |dropped| ==> r[i].amp >= dropped[j].amp)
  {
    var sorted := SortByAmp(s);
    SortByAmpSorted(s);
    SortPermutes(s);
    var r := SelectTop(s);
    var dropped := sorted[|r|..];
    assert sorted == r + dropped;
    assert multiset(sorted) == multiset(r) + multiset(dropped);
    SortedSplit(sorted, |r|);
  }

  /** Cutting a sequence sorted by amplitude leaves both parts sorted, the first above the second. */
  lemma SortedSplit(t: seq<Coeff>, m: nat)
    requires m <= |t| && AmpsNonIncreasing(t)
    ensures AmpsNonIncreasing(t[..m])
    ensures forall i, j :: 0 <= i < m && 0 <= j < |t| - m ==> t[..m][i].amp >= t[m..][j].amp
  {
    forall i, j | 0 <= i < j < m
      ensures t[..m][i].amp >= t[..m][j].amp
    {
      assert t[..m][i] == t[i] && t[..m][j] == t[j];
    }
    forall i, j | 0 <= i < m && 0 <= j < |t| - m
      ensures t[..m][i].amp >= t[m..][j].amp
    {
      assert t[..m][i] == t[i] && t[m..][j] == t[m + j];
    }
  }

  // ---------------------------------------------------------------------
  // Trace stroke fade

  /** `Math.max(2, Math.floor(trace.length * TRACE_FADE_WINDOW_RATIO))`. */
  function FadeWindow(len: nat): (w: int)
    ensures w >= 2
    ensures w as real <= MaxReal(2.0, len as real * TraceFadeWindowRatio)
  {
    var f := (len as real * TraceFadeWindowRatio).Floor;
    if f > 2 then f else 2
  }

  /** `alphaScale` of segment `i` (from point `i - 1` to point `i`). */
  function AlphaScale(i: nat, len: nat): real
  {
    var w := FadeWindow(len);
    if i <= w then i as real / w as real else 1.0
  }

  /** Every drawn segment has an opacity factor in (0, 1]. */
  lemma AlphaScaleRange(i: nat, len: nat)
    requires 1 <= i < len
    ensures 0.0 < AlphaScale(i, len) <= 1.0
  {
    var w := FadeWindow(len) as real;
    if i as real <= w {
      DivPositive(i as real, w);
      DivMonotone(i as real, w, w);
      DivSelf(w);
    }
  }

  /** Newer segments are never fainter than older ones. */
  lemma AlphaScaleMonotone(i: nat, j: nat, len: nat)
    requires 1 <= i <= j < len
    ensures AlphaScale(i, len) <= AlphaScale(j, len)
  {
    var w := FadeWindow(len) as real;
    AlphaScaleRange(i, len);
    if j as real <= w {
      DivMonotone(i as real, j as real, w);
    }
  }

  /** From three points on, the newest segment is drawn fully opaque. */
  lemma NewestSegmentOpaque(len: nat)
    requires len >= 3
    ensures AlphaScale(len - 1, len) == 1.0
  {
    var f := (len as real * TraceFadeWindowRatio).Floor;
    assert f as real <= len as real * 0.8 < len as real;
    assert f <= len - 1;
  }

  // ---------------------------------------------------------------------
  // Trace samples

  /** A trace sample: where it is drawn and where it drifts to. */
  datatype TracePoint = TracePoint(x: real, y: real, targetX: real, targetY: real)

  /**
   * One step of `_deformTracePoints` on a sample: each coordinate's
   * distance to its target shrinks by exactly the factor 0.995 and the
   * target is untouched.
   */
  function Morph(p: TracePoint): (q: TracePoint)
    ensures q.targetX == p.targetX && q.targetY == p.targetY
    ensures q.x - q.targetX == 0.995 * (p.x - p.targetX)
    ensures q.y - q.targetY == 0.995 * (p.y - p.targetY)
  {
    p.(x := p.x + (p.targetX - p.x) * TraceMorphLerp,
       y := p.y + (p.targetY - p.y) * TraceMorphLerp)
  }

  /** `_deformTracePoints` on the whole trace. */
  function MorphAll(trace: seq<TracePoint>): (r: seq<TracePoint>)
    ensures |r| == |trace|
    ensures forall i :: 0 <= i < |trace| ==> r[i] == Morph(trace[i])
  {
    seq(|trace|, i requires 0 <= i < |trace| => Morph(trace[i]))
  }

  function Pow(b: real, k: nat): real
  {
    if k == 0 then 1.0 else b * Pow(b, k - 1)
  }

  function MorphTimes(p: TracePoint, k: nat): TracePoint
  {
    if k == 0 then p else Morph(MorphTimes(p, k - 1))
  }

  /** After `k` morph steps the offset from the target is scaled by 0.995^k. */
  lemma {:induction false} MorphTimesContracts(p: TracePoint, k: nat)
    ensures MorphTimes(p, k).targetX == p.targetX && MorphTimes(p, k).targetY == p.targetY
    ensures MorphTimes(p, k).x - p.targetX == Pow(0.995, k) * (p.x - p.targetX)
    ensures MorphTimes(p, k).y - p.targetY == Pow(0.995, k) * (p.y - p.targetY)
  {
    if k > 0 {
      MorphTimesContracts(p, k - 1);
      var q := MorphTimes(p, k - 1);
      assert MorphTimes(p, k).x - p.targetX == 0.995 * (q.x - p.targetX);
      assert 0.995 * (Pow(0.995, k - 1) * (p.x - p.targetX)) == Pow(0.995, k) * (p.x - p.targetX);
      assert 0.995 * (Pow(0.995, k - 1) * (p.y - p.targetY)) == Pow(0.995, k) * (p.y - p.targetY);
    }
  }
}
