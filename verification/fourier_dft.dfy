/**
 * The loops of the Fourier Transform plugin that compute values from the
 * sampled shape: bounding-box normalisation, the DFT (with the
 * trigonometric functions passed in, uninterpreted), the epicycle endpoint
 * sum, and the amplitude-weighted choice of the reversed epicycle.
 */
module FourierDft {
  import opened Common
  import opened FourierMath

  /** The floor that keeps the normalising size away from zero. */
  const MinNormSize: real := 0.000001

  /** The smallest amplitude a reversible epicycle must exceed. */
  const MinReverseAmp: real := 0.000000001

  // ---------------------------------------------------------------------
  // Bounding-box normalisation

  function Xs(ps: seq<Point>): (xs: seq<real>)
    ensures |xs| == |ps| && forall i :: 0 <= i < |ps| ==> xs[i] == ps[i].x
  {
    seq(|ps|, i requires 0 <= i < |ps| => ps[i].x)
  }

  function Ys(ps: seq<Point>): (ys: seq<real>)
    ensures |ys| == |ps| && forall i :: 0 <= i < |ps| ==> ys[i] == ps[i].y
  {
    seq(|ps|, i requires 0 <= i < |ps| => ps[i].y)
  }

  /** The least value, taken left to right as the loop does. */
  function MinOf(s: seq<real>): real
    requires |s| > 0
  {
    if |s| == 1 then s[0]
    else
      var m := MinOf(s[..|s| - 1]);
      if s[|s| - 1] < m then s[|s| - 1] else m
  }

  /** The greatest value, taken left to right as the loop does. */
  function MaxOf(s: seq<real>): real
    requires |s| > 0
  {
    if |s| == 1 then s[0]
    else
      var m := MaxOf(s[..|s| - 1]);
      if s[|s| - 1] > m then s[|s| - 1] else m
  }

  /** The running minimum bounds every value from below and is attained. */
  lemma {:induction false} MinBounds(s: seq<real>)
    requires |s| > 0
    ensures forall i :: 0 <= i < |s| ==> MinOf(s) <= s[i]
    ensures exists i :: 0 <= i < |s| && MinOf(s) == s[i]
  {
    if |s| > 1 {
      var init := s[..|s| - 1];
      MinBounds(init);
      var a :| 0 <= a < |init| && MinOf(init) == init[a];
      forall i | 0 <= i < |s|
        ensures MinOf(s) <= s[i]
      {
        if i < |s| - 1 {
          assert s[i] == init[i];
        }
      }
      if s[|s| - 1] < MinOf(init) {
        assert MinOf(s) == s[|s| - 1];
      } else {
        assert s[a] == init[a];
        assert MinOf(s) == s[a];
      }
    } else {
      assert MinOf(s) == s[0];
    }
  }

  /** The running maximum bounds every value from above and is attained. */
  lemma {:induction false} MaxBounds(s: seq<real>)
    requires |s| > 0
    ensures forall i :: 0 <= i < |s| ==> s[i] <= MaxOf(s)
    ensures exists i :: 0 <= i < |s| && MaxOf(s) == s[i]
  {
    if |s| > 1 {
      var init := s[..|s| - 1];
      MaxBounds(init);
      var b :| 0 <= b < |init| && MaxOf(init) == init[b];
      forall i | 0 <= i < |s|
        ensures s[i] <= MaxOf(s)
      {
        if i < |s| - 1 {
          assert s[i] == init[i];
        }
      }
      if s[|s| - 1] > MaxOf(init) {
        assert MaxOf(s) == s[|s| - 1];
      } else {
        assert s[b] == init[b];
        assert MaxOf(s) == s[b];
      }
    } else {
      assert MaxOf(s) == s[0];
    }
  }

  lemma MinMaxBounds(s: seq<real>)
    requires |s| > 0
    ensures forall i :: 0 <= i < |s| ==> MinOf(s) <= s[i] <= MaxOf(s)
    ensures exists i :: 0 <= i < |s| && MinOf(s) == s[i]
    ensures exists i :: 0 <= i < |s| && MaxOf(s) == s[i]
  {
    MinBounds(s);
    MaxBounds(s);
  }

  lemma MinMaxStep(s: seq<real>, i: nat)
    requires 0 < i < |s|
    ensures MinOf(s[..i + 1]) == if s[i] < MinOf(s[..i]) then s[i] else MinOf(s[..i])
    ensures MaxOf(s[..i + 1]) == if s[i] > MaxOf(s[..i]) then s[i] else MaxOf(s[..i])
  {
    assert s[..i + 1][..i] == s[..i];
  }

  /** The bounding box `minX`, `maxX`, `minY`, `maxY` of the samples. */
  datatype Box = Box(minX: real, maxX: real, minY: real, maxY: real)

  function BoxOf(ps: seq<Point>): Box
    requires |ps| > 0
  {
    Box(MinOf(Xs(ps)), MaxOf(Xs(ps)), MinOf(Ys(ps)), MaxOf(Ys(ps)))
  }

  /** `Math.max(1e-6, maxX - minX, maxY - minY)`. */
  function NormSize(b: Box): (size: real)
    ensures size >= MinNormSize && size >= b.maxX - b.minX && size >= b.maxY - b.minY
    ensures size == MinNormSize || size == b.maxX - b.minX || size == b.maxY - b.minY
  {
    MaxReal(MaxReal(MinNormSize, b.maxX - b.minX), b.maxY - b.minY)
  }

  /** One point of the `map`: centre of the box to the origin, divide by the size. */
  function ScalePoint(p: Point, b: Box): Point
  {
    var cx := (b.minX + b.maxX) * 0.5;
    var cy := (b.minY + b.maxY) * 0.5;
    Point((p.x - cx) / NormSize(b), (p.y - cy) / NormSize(b))
  }

  /** The result of `_normalizePoints`. */
  datatype Normalized = Normalized(points: seq<Point>, width: real, height: real)

  /** `_normalizePoints` as a value. */
  function Normalize(ps: seq<Point>): Normalized
    requires |ps| > 0
  {
    var b := BoxOf(ps);
    Normalized(
      seq(|ps|, i requires 0 <= i < |ps| => ScalePoint(ps[i], b)),
      (b.maxX - b.minX) / NormSize(b),
      (b.maxY - b.minY) / NormSize(b))
  }

  lemma DivBound(a: real, b: real, s: real)
    requires s > 0.0 && -(b * s) <= a <= b * s
    ensures -b <= a / s <= b
  {
    DivMonotone(a, b * s, s);
    DivMonotone(-(b * s), a, s);
    assert (b * s) / s * s == b * s;
    assert (-(b * s)) / s * s == -(b * s);
  }

  /** A point inside the box lands in [-0.5, 0.5] on both axes. */
  lemma ScalePointBound(p: Point, b: Box)
    requires b.minX <= p.x <= b.maxX && b.minY <= p.y <= b.maxY
    ensures Abs(ScalePoint(p, b).x) <= 0.5 && Abs(ScalePoint(p, b).y) <= 0.5
  {
    var size := NormSize(b);
    DivBound(p.x - (b.minX + b.maxX) * 0.5, 0.5, size);
    DivBound(p.y - (b.minY + b.maxY) * 0.5, 0.5, size);
  }

  /** Scaling back and re-centring recovers the point. */
  lemma ScalePointInverse(p: Point, b: Box)
    ensures ScalePoint(p, b).x * NormSize(b) + (b.minX + b.maxX) * 0.5 == p.x
    ensures ScalePoint(p, b).y * NormSize(b) + (b.minY + b.maxY) * 0.5 == p.y
  {
    var size := NormSize(b);
    var dx := p.x - (b.minX + b.maxX) * 0.5;
    var dy := p.y - (b.minY + b.maxY) * 0.5;
    assert dx / size * size == dx;
    assert dy / size * size == dy;
  }

  /** The reported extents lie in [0, 1], and the larger is 1 once it reaches 1e-6. */
  lemma ExtentsBound(b: Box)
    requires b.minX <= b.maxX && b.minY <= b.maxY
    ensures var w, h := (b.maxX - b.minX) / NormSize(b), (b.maxY - b.minY) / NormSize(b);
      && 0.0 <= w <= 1.0 && 0.0 <= h <= 1.0
      && (b.maxX - b.minX >= MinNormSize || b.maxY - b.minY >= MinNormSize ==> MaxReal(w, h) == 1.0)
  {
    var size := NormSize(b);
    var ex, ey := b.maxX - b.minX, b.maxY - b.minY;
    DivSelf(size);
    DivMonotone(0.0, ex, size);
    DivMonotone(ex, size, size);
    DivMonotone(0.0, ey, size);
    DivMonotone(ey, size, size);
    if ex >= MinNormSize || ey >= MinNormSize {
      if ex >= ey {
        assert size == ex;
      } else {
        assert size == ey;
      }
    }
  }

  /**
   * On non-empty input: the output has the input's length and order, point
   * `i` being the image of input point `i` (which `ScalePointInverse`
   * recovers), every output coordinate lies in [-0.5, 0.5], the reported
   * width and height lie in [0, 1], and the larger of them is exactly 1
   * once the shape spans at least 1e-6.
   */
  lemma NormalizeBounds(ps: seq<Point>)
    requires |ps| > 0
    ensures var r := Normalize(ps);
      var b := BoxOf(ps);
      && |r.points| == |ps|
      && (forall i :: 0 <= i < |ps| ==> Abs(r.points[i].x) <= 0.5 && Abs(r.points[i].y) <= 0.5)
      && (forall i :: 0 <= i < |ps| ==> r.points[i] == ScalePoint(ps[i], b))
      && 0.0 <= r.width <= 1.0 && 0.0 <= r.height <= 1.0
      && (b.maxX - b.minX >= MinNormSize || b.maxY - b.minY >= MinNormSize ==> MaxReal(r.width, r.height) == 1.0)
  {
    var r := Normalize(ps);
    var b := BoxOf(ps);
    MinMaxBounds(Xs(ps));
    MinMaxBounds(Ys(ps));
    forall i | 0 <= i < |ps|
      ensures Abs(r.points[i].x) <= 0.5 && Abs(r.points[i].y) <= 0.5
    {
      assert r.points[i] == ScalePoint(ps[i], b);
      assert Xs(ps)[i] == ps[i].x && Ys(ps)[i] == ps[i].y;
      ScalePointBound(ps[i], b);
    }
    assert Xs(ps)[0] == ps[0].x && Ys(ps)[0] == ps[0].y;
    ExtentsBound(b);
  }

  /** The bounding-box pass of `_normalizePoints`. */
  method BoundingBox(points: seq<Point>) returns (minX: real, maxX: real, minY: real, maxY: real)
    requires |points| > 0
    ensures Box(minX, maxX, minY, maxY) == BoxOf(points)
  {
    ghost var xs, ys := Xs(points), Ys(points);
    minX, maxX := points[0].x, points[0].x;
    minY, maxY := points[0].y, points[0].y;
    assert xs[..1] == [points[0].x] && ys[..1] == [points[0].y];
    for i := 1 to |points|
      invariant minX == MinOf(xs[..i]) && maxX == MaxOf(xs[..i])
      invariant minY == MinOf(ys[..i]) && maxY == MaxOf(ys[..i])
    {
      MinMaxStep(xs, i);
      MinMaxStep(ys, i);
      var p := points[i];
      if p.x < minX { minX := p.x; }
      if p.x > maxX { maxX := p.x; }
      if p.y < minY { minY := p.y; }
      if p.y > maxY { maxY := p.y; }
    }
    assert xs[..|points|] == xs && ys[..|points|] == ys;
  }

  /** `_normalizePoints`: one pass for the box, one `map` for the points. */
  method NormalizePoints(points: seq<Point>) returns (r: Normalized)
    requires |points| > 0
    ensures r == Normalize(points)
  {
    var minX, maxX, minY, maxY := BoundingBox(points);
    var cx := (minX + maxX) * 0.5;
    var cy := (minY + maxY) * 0.5;
    var size := MaxReal(MaxReal(MinNormSize, maxX - minX), maxY - minY);
    ghost var b := Box(minX, maxX, minY, maxY);
    var out: seq<Point> := [];
    for i := 0 to |points|
      invariant |out| == i
      invariant forall j :: 0 <= j < i ==> out[j] == ScalePoint(points[j], b)
    {
      out := out + [Point((points[i].x - cx) / size, (points[i].y - cy) / size)];
    }
    r := Normalized(out, (maxX - minX) / size, (maxY - minY) / size);
  }

  // ---------------------------------------------------------------------
  // DFT

  /**
   * The floating-point functions the DFT and the endpoint sum call, left
   * uninterpreted: `Math.PI`, `Math.cos`, `Math.sin`, `Math.hypot` and
   * `Math.atan2`.
   */
  datatype Trig = Trig(pi: real, cos: real -> real, sin: real -> real,
                       hypot: (real, real) -> real, atan2: (real, real) -> real)

  /** `phi = (2 * Math.PI * k * t) / n`. */
  function Phi(trig: Trig, k: nat, t: nat, n: nat): real
    requires n > 0
  {
    (2.0 * trig.pi * k as real * t as real) / n as real
  }

  /** The running sum `re` after the first `t` samples of bin `k`. */
  function DftRe(trig: Trig, ps: seq<Point>, k: nat, t: nat): real
    requires t <= |ps|
  {
    if t == 0 then 0.0
    else
      var phi := Phi(trig, k, t - 1, |ps|);
      DftRe(trig, ps, k, t - 1) + (ps[t - 1].x * trig.cos(phi) + ps[t - 1].y * trig.sin(phi))
  }

  /** The running sum `im` after the first `t` samples of bin `k`. */
  function DftIm(trig: Trig, ps: seq<Point>, k: nat, t: nat): real
    requires t <= |ps|
  {
    if t == 0 then 0.0
    else
      var phi := Phi(trig, k, t - 1, |ps|);
      DftIm(trig, ps, k, t - 1) + (ps[t - 1].y * trig.cos(phi) - ps[t - 1].x * trig.sin(phi))
  }

  /** Coefficient `k` of the DFT of `ps`. */
  function DftCoeff(trig: Trig, ps: seq<Point>, k: nat): (c: Coeff)
    requires k < |ps|
    ensures c.freq == SignedFreq(k, |ps|)
  {
    var re := DftRe(trig, ps, k, |ps|) / |ps| as real;
    var im := DftIm(trig, ps, k, |ps|) / |ps| as real;
    Coeff(SignedFreq(k, |ps|), re, im, trig.hypot(re, im), trig.atan2(im, re))
  }

  /** The first `k` coefficients of the DFT of `ps`, in bin order. */
  function DftPrefix(trig: Trig, ps: seq<Point>, k: nat): (cs: seq<Coeff>)
    requires k <= |ps|
    ensures |cs| == k
  {
    if k == 0 then [] else DftPrefix(trig, ps, k - 1) + [DftCoeff(trig, ps, k - 1)]
  }

  /** The DFT of `ps`. */
  function Dft(trig: Trig, ps: seq<Point>): seq<Coeff>
  {
    DftPrefix(trig, ps, |ps|)
  }

  /** Coefficient `j` of the DFT sits at index `j`. */
  lemma {:induction false} DftPrefixAt(trig: Trig, ps: seq<Point>, k: nat)
    requires k <= |ps|
    ensures forall j :: 0 <= j < k ==> DftPrefix(trig, ps, k)[j] == DftCoeff(trig, ps, j)
  {
    if k > 0 {
      DftPrefixAt(trig, ps, k - 1);
    }
  }

  /**
   * `_computeDft`: one coefficient per sample, bin `k` at index `k`, its
   * frequency the signed frequency of the bin.
   */
  method ComputeDft(trig: Trig, points: seq<Point>) returns (coeffs: seq<Coeff>)
    ensures coeffs == Dft(trig, points)
  {
    var n := |points|;
    coeffs := [];
    for k := 0 to n
      invariant coeffs == DftPrefix(trig, points, k)
    {
      var c := ComputeBin(trig, points, k);
      coeffs := coeffs + [c];
    }
  }

  /** One pass of the outer loop of `_computeDft`: the sums of bin `k`, averaged. */
  method ComputeBin(trig: Trig, points: seq<Point>, k: nat) returns (c: Coeff)
    requires k < |points|
    ensures c == DftCoeff(trig, points, k)
  {
    var n := |points|;
    var re, im := 0.0, 0.0;
    for t := 0 to n
      invariant re == DftRe(trig, points, k, t) && im == DftIm(trig, points, k, t)
    {
      var phi := Phi(trig, k, t, n);
      var x := points[t].x;
      var y := points[t].y;
      re := re + (x * trig.cos(phi) + y * trig.sin(phi));
      im := im + (y * trig.cos(phi) - x * trig.sin(phi));
    }
    re := re / n as real;
    im := im / n as real;
    var freq := if k as real <= n as real / 2.0 then k else k - n;
    c := Coeff(freq, re, im, trig.hypot(re, im), trig.atan2(im, re));
  }

  /**
   * The coefficient frequencies of a DFT are pairwise distinct, lie in
   * (-n/2, n/2], and exactly one of them (bin 0) is 0.
   */
  lemma DftFrequencies(trig: Trig, ps: seq<Point>)
    ensures forall j, k :: 0 <= j < k < |ps| ==> DftCoeff(trig, ps, j).freq != DftCoeff(trig, ps, k).freq
    ensures forall k :: 0 <= k < |ps| ==> -|ps| < 2 * DftCoeff(trig, ps, k).freq <= |ps|
    ensures forall k :: 0 <= k < |ps| ==> (DftCoeff(trig, ps, k).freq == 0 <==> k == 0)
  {
    forall j, k | 0 <= j < k < |ps|
      ensures DftCoeff(trig, ps, j).freq != DftCoeff(trig, ps, k).freq
    {
      if SignedFreq(j, |ps|) == SignedFreq(k, |ps|) {
        SignedFreqInjective(j, k, |ps|);
      }
    }
    forall k | 0 <= k < |ps|
      ensures DftCoeff(trig, ps, k).freq == 0 <==> k == 0
    {
      ZeroFreqOnlyAtZero(k, |ps|);
    }
  }

  // ---------------------------------------------------------------------
  // Endpoint of the epicycle chain

  /** The angle of epicycle `i`; the reversed one turns the other way. */
  function Angle(c: Coeff, i: int, reverseIndex: int, t: real): real
  {
    if i == reverseIndex then c.phase - t * c.freq as real else t * c.freq as real + c.phase
  }

  /** `t = 2 * Math.PI * phase01`: the loop position as an angle. */
  function LoopAngle(trig: Trig, phase01: real): real
  {
    2.0 * trig.pi * phase01
  }

  /** The arm of one epicycle: radius `amp * drawScale` at the given angle. */
  function Arm(trig: Trig, c: Coeff, drawScale: real, angle: real): Point
  {
    var radius := c.amp * drawScale;
    Point(radius * trig.cos(angle), radius * trig.sin(angle))
  }

  /**
   * The tip of the chain of the first `k` epicycles drawn from `origin`;
   * coefficients of frequency 0 add no arm.
   */
  function ChainTip(trig: Trig, origin: Point, drawScale: real, phase01: real,
                    coeffs: seq<Coeff>, reverseIndex: int, k: nat): Point
    requires k <= |coeffs|
  {
    if k == 0 then origin
    else
      var p := ChainTip(trig, origin, drawScale, phase01, coeffs, reverseIndex, k - 1);
      var c := coeffs[k - 1];
      if c.freq == 0 then p
      else
        var arm := Arm(trig, c, drawScale, Angle(c, k - 1, reverseIndex, LoopAngle(trig, phase01)));
        Point(p.x + arm.x, p.y + arm.y)
  }

  /** `_getEndpointForCoeffs`. */
  method GetEndpointForCoeffs(trig: Trig, originX: real, originY: real, drawScale: real,
                              phase01: real, coeffs: seq<Coeff>, reverseIndex: int)
    returns (p: Point)
    ensures p == ChainTip(trig, Point(originX, originY), drawScale, phase01, coeffs, reverseIndex, |coeffs|)
  {
    var x, y := originX, originY;
    var t := LoopAngle(trig, phase01);
    for i := 0 to |coeffs|
      invariant Point(x, y) == ChainTip(trig, Point(originX, originY), drawScale, phase01, coeffs, reverseIndex, i)
    {
      var c := coeffs[i];
      if c.freq == 0 {
        continue;
      }
      var angle := Angle(c, i, reverseIndex, t);
      var arm := Arm(trig, c, drawScale, angle);
      x := x + arm.x;
      y := y + arm.y;
    }
    p := Point(x, y);
  }

  /** Two coefficient lists that differ only in coefficients of frequency 0. */
  predicate SameExceptDc(a: seq<Coeff>, b: seq<Coeff>)
  {
    |a| == |b| && forall i :: 0 <= i < |a| ==> a[i] == b[i] || (a[i].freq == 0 && b[i].freq == 0)
  }

  /**
   * The frequency-0 (translation) terms are skipped: their amplitude and
   * phase have no effect on the endpoint.
   */
  lemma {:induction false} DcTermsIgnored(trig: Trig, origin: Point, drawScale: real, phase01: real,
                                          a: seq<Coeff>, b: seq<Coeff>, reverseIndex: int, k: nat)
    requires SameExceptDc(a, b) && k <= |a|
    ensures ChainTip(trig, origin, drawScale, phase01, a, reverseIndex, k)
         == ChainTip(trig, origin, drawScale, phase01, b, reverseIndex, k)
  {
    if k > 0 {
      DcTermsIgnored(trig, origin, drawScale, phase01, a, b, reverseIndex, k - 1);
    }
  }

  /** Reversing a frequency-0 epicycle is the same as reversing none. */
  lemma {:induction false} ReversingDcIsNoReversal(trig: Trig, origin: Point, drawScale: real, phase01: real,
                                                   coeffs: seq<Coeff>, reverseIndex: int, k: nat)
    requires 0 <= reverseIndex < |coeffs| && coeffs[reverseIndex].freq == 0 && k <= |coeffs|
    ensures ChainTip(trig, origin, drawScale, phase01, coeffs, reverseIndex, k)
         == ChainTip(trig, origin, drawScale, phase01, coeffs, -1, k)
  {
    if k > 0 {
      ReversingDcIsNoReversal(trig, origin, drawScale, phase01, coeffs, reverseIndex, k - 1);
      var t := LoopAngle(trig, phase01);
      assert coeffs[k - 1].freq != 0 ==> Angle(coeffs[k - 1], k - 1, reverseIndex, t) == Angle(coeffs[k - 1], k - 1, -1, t);
    }
  }

  /** A chain made only of frequency-0 terms stays at its origin. */
  lemma {:induction false} AllDcStaysAtOrigin(trig: Trig, origin: Point, drawScale: real, phase01: real,
                                              coeffs: seq<Coeff>, reverseIndex: int, k: nat)
    requires k <= |coeffs| && forall i :: 0 <= i < |coeffs| ==> coeffs[i].freq == 0
    ensures ChainTip(trig, origin, drawScale, phase01, coeffs, reverseIndex, k) == origin
  {
    if k > 0 {
      AllDcStaysAtOrigin(trig, origin, drawScale, phase01, coeffs, reverseIndex, k - 1);
    }
  }

  // ---------------------------------------------------------------------
  // Choice of the reversed epicycle

  /** A coefficient that may be reversed: non-zero frequency, amplitude above 1e-9. */
  predicate IsCandidate(c: Coeff)
  {
    c.freq != 0 && c.amp > MinReverseAmp
  }

  /** The indices among the first `k` coefficients that may be reversed, in order. */
  function Candidates(coeffs: seq<Coeff>, k: nat): (cs: seq<nat>)
    requires k <= |coeffs|
    ensures forall j :: 0 <= j < |cs| ==> cs[j] < k && IsCandidate(coeffs[cs[j]])
  {
    if k == 0 then []
    else if IsCandidate(coeffs[k - 1]) then Candidates(coeffs, k - 1) + [k - 1]
    else Candidates(coeffs, k - 1)
  }

  /**
   * The candidate list holds every candidate index below `k`, and only
   * those, in increasing order.
   */
  lemma {:induction false} CandidatesComplete(coeffs: seq<Coeff>, k: nat)
    requires k <= |coeffs|
    ensures forall i :: 0 <= i < k ==> (IsCandidate(coeffs[i]) <==> i in Candidates(coeffs, k))
    ensures forall a, b :: 0 <= a < b < |Candidates(coeffs, k)| ==> Candidates(coeffs, k)[a] < Candidates(coeffs, k)[b]
  {
    if k > 0 {
      CandidatesComplete(coeffs, k - 1);
      var prev := Candidates(coeffs, k - 1);
      if IsCandidate(coeffs[k - 1]) {
        var cs := prev + [k - 1];
        assert Candidates(coeffs, k) == cs;
        forall i | 0 <= i < k
          ensures IsCandidate(coeffs[i]) <==> i in cs
        {
          if i < k - 1 {
            assert i in cs <==> i in prev;
          } else {
            assert cs[|prev|] == i;
          }
        }
        forall a, b | 0 <= a < b < |cs|
          ensures cs[a] < cs[b]
        {
          assert cs[a] == prev[a];
          if b < |prev| {
            assert cs[b] == prev[b];
          }
        }
      } else {
        forall i | 0 <= i < k
          ensures IsCandidate(coeffs[i]) <==> i in prev
        {
          if i == k - 1 {
            assert forall j :: 0 <= j < |prev| ==> prev[j] < k - 1;
          }
        }
      }
    }
  }

  /** The total amplitude of the first `j` candidates. */
  function PrefixWeight(coeffs: seq<Coeff>, cs: seq<nat>, j: nat): real
    requires j <= |cs| && forall i :: 0 <= i < |cs| ==> cs[i] < |coeffs|
  {
    if j == 0 then 0.0 else PrefixWeight(coeffs, cs, j - 1) + coeffs[cs[j - 1]].amp
  }

  /**
   * The roulette walk from candidate position `j` on, with `r` what remains
   * of the draw: subtract the candidate's weight and stop once nothing
   * remains; the last candidate is the fallback. The result is a position
   * in `cs`.
   */
  function RouletteFrom(coeffs: seq<Coeff>, cs: seq<nat>, j: nat, r: real): (m: nat)
    requires 0 < |cs| && j <= |cs| && forall i :: 0 <= i < |cs| ==> cs[i] < |coeffs|
    ensures m < |cs|
    decreases |cs| - j
  {
    if j == |cs| then |cs| - 1
    else
      var r' := r - coeffs[cs[j]].amp;
      if r' <= 0.0 then j else RouletteFrom(coeffs, cs, j + 1, r')
  }

  /** `Math.random() * totalWeight`: where the roulette draw lands. */
  function RouletteDraw(u: real, totalWeight: real): real
  {
    u * totalWeight
  }

  /** A draw in [0, 1) lands within the total weight. */
  lemma DrawWithinTotal(u: real, totalWeight: real)
    requires 0.0 <= u < 1.0 && totalWeight >= 0.0
    ensures 0.0 <= RouletteDraw(u, totalWeight) <= totalWeight
  {
    assert u * totalWeight <= 1.0 * totalWeight;
  }

  /**
   * `_pickReverseEpicycleIndex`, with `u1` the draw that decides whether
   * any epicycle is reversed and `u2` the roulette draw.
   */
  function PickReverseIndex(coeffs: seq<Coeff>, u1: real, u2: real): int
  {
    if |coeffs| == 0 then -1
    else if u1 >= ReverseOneProbability then -1
    else
      var cs := Candidates(coeffs, |coeffs|);
      if |cs| == 0 then -1
      else cs[RouletteFrom(coeffs, cs, 0, RouletteDraw(u2, PrefixWeight(coeffs, cs, |cs|)))]
  }

  lemma {:induction false} PrefixWeightPositive(coeffs: seq<Coeff>, cs: seq<nat>, j: nat)
    requires j <= |cs| && forall i :: 0 <= i < |cs| ==> cs[i] < |coeffs| && IsCandidate(coeffs[cs[i]])
    ensures j > 0 ==> PrefixWeight(coeffs, cs, j) > 0.0
    ensures PrefixWeight(coeffs, cs, j) >= 0.0
  {
    if j > 0 {
      PrefixWeightPositive(coeffs, cs, j - 1);
    }
  }

  /**
   * The walk from `j` with `draw - PrefixWeight(j)` remaining stops at the
   * first position at or after `j` whose cumulative weight reaches the draw.
   */
  lemma {:induction false} RouletteFirstReach(coeffs: seq<Coeff>, cs: seq<nat>, j: nat, draw: real)
    requires j < |cs| && forall i :: 0 <= i < |cs| ==> cs[i] < |coeffs| && IsCandidate(coeffs[cs[i]])
    requires draw <= PrefixWeight(coeffs, cs, |cs|)
    ensures var m := RouletteFrom(coeffs, cs, j, draw - PrefixWeight(coeffs, cs, j));
      && j <= m
      && draw <= PrefixWeight(coeffs, cs, m + 1)
      && forall l :: j < l <= m ==> PrefixWeight(coeffs, cs, l) < draw
    decreases |cs| - j
  {
    var r := draw - PrefixWeight(coeffs, cs, j);
    var r' := r - coeffs[cs[j]].amp;
    assert r' == draw - PrefixWeight(coeffs, cs, j + 1);
    if r' <= 0.0 {
      assert RouletteFrom(coeffs, cs, j, r) == j;
    } else if j + 1 == |cs| {
      assert false;
    } else {
      RouletteFirstReach(coeffs, cs, j + 1, draw);
      assert RouletteFrom(coeffs, cs, j, r) == RouletteFrom(coeffs, cs, j + 1, r');
    }
  }

  /**
   * Either no epicycle is reversed, or the chosen one is a candidate. Nothing
   * is reversed exactly when there are no coefficients, the first draw is at
   * least 0.5, or no coefficient is a candidate.
   */
  lemma PickIsCandidate(coeffs: seq<Coeff>, u1: real, u2: real)
    ensures var r := PickReverseIndex(coeffs, u1, u2);
      && (r == -1 || (0 <= r < |coeffs| && IsCandidate(coeffs[r])))
      && (r == -1 <==> |coeffs| == 0 || u1 >= ReverseOneProbability ||
                        forall i :: 0 <= i < |coeffs| ==> !IsCandidate(coeffs[i]))
  {
    if |coeffs| > 0 && u1 < ReverseOneProbability {
      var cs := Candidates(coeffs, |coeffs|);
      if |cs| > 0 {
        var m := RouletteFrom(coeffs, cs, 0, RouletteDraw(u2, PrefixWeight(coeffs, cs, |cs|)));
        assert PickReverseIndex(coeffs, u1, u2) == cs[m];
      } else {
        CandidatesComplete(coeffs, |coeffs|);
      }
    }
  }

  /**
   * The roulette is weighted by amplitude: with `draw = u2 * total`, the
   * candidate at position `m` is chosen exactly when the draw falls in its
   * slice (W(m), W(m + 1)] of the cumulative weights W, the first slice
   * closed at 0.
   */
  lemma PickIsWeighted(coeffs: seq<Coeff>, u1: real, u2: real, m: nat)
    requires |coeffs| > 0 && u1 < ReverseOneProbability && 0.0 <= u2 < 1.0
    requires m < |Candidates(coeffs, |coeffs|)|
    ensures var cs := Candidates(coeffs, |coeffs|);
      var draw := RouletteDraw(u2, PrefixWeight(coeffs, cs, |cs|));
      PickReverseIndex(coeffs, u1, u2) == cs[m] <==>
        (m == 0 || PrefixWeight(coeffs, cs, m) < draw) && draw <= PrefixWeight(coeffs, cs, m + 1)
  {
    var cs := Candidates(coeffs, |coeffs|);
    var total := PrefixWeight(coeffs, cs, |cs|);
    var draw := RouletteDraw(u2, total);
    PrefixWeightPositive(coeffs, cs, |cs|);
    DrawWithinTotal(u2, total);
    assert PrefixWeight(coeffs, cs, 0) == 0.0;
    RouletteFirstReach(coeffs, cs, 0, draw);
    var m' := RouletteFrom(coeffs, cs, 0, draw);
    assert PickReverseIndex(coeffs, u1, u2) == cs[m'];
    if PickReverseIndex(coeffs, u1, u2) == cs[m] {
      CandidatesComplete(coeffs, |coeffs|);
      if m != m' {
        assert false;
      }
    } else if m < m' {
      assert PrefixWeight(coeffs, cs, m + 1) < draw;
    } else if m > m' {
      PrefixStep(coeffs, cs, m' + 1, m);
    }
  }

  /** Cumulative weights only grow. */
  lemma PrefixMonotone(coeffs: seq<Coeff>, cs: seq<nat>)
    requires forall i :: 0 <= i < |cs| ==> cs[i] < |coeffs| && IsCandidate(coeffs[cs[i]])
    ensures forall a, b :: 0 <= a <= b <= |cs| ==> PrefixWeight(coeffs, cs, a) <= PrefixWeight(coeffs, cs, b)
  {
    forall a, b | 0 <= a <= b <= |cs|
      ensures PrefixWeight(coeffs, cs, a) <= PrefixWeight(coeffs, cs, b)
    {
      PrefixStep(coeffs, cs, a, b);
    }
  }

  lemma {:induction false} PrefixStep(coeffs: seq<Coeff>, cs: seq<nat>, a: nat, b: nat)
    requires a <= b <= |cs|
    requires forall i :: 0 <= i < |cs| ==> cs[i] < |coeffs| && IsCandidate(coeffs[cs[i]])
    ensures PrefixWeight(coeffs, cs, a) <= PrefixWeight(coeffs, cs, b)
    decreases b - a
  {
    if a < b {
      PrefixStep(coeffs, cs, a, b - 1);
    }
  }

  /**
   * The first loop of `_pickReverseEpicycleIndex`: the candidates in order,
   * their weights (amplitudes) and the total weight, which is positive as
   * soon as there is a candidate, since every candidate weighs more than
   * 1e-9.
   */
  method CollectCandidates(coeffs: seq<Coeff>) returns (candidates: seq<nat>, weights: seq<real>, totalWeight: real)
    ensures candidates == Candidates(coeffs, |coeffs|)
    ensures |weights| == |candidates|
    ensures forall j :: 0 <= j < |weights| ==> weights[j] == coeffs[candidates[j]].amp
    ensures totalWeight == PrefixWeight(coeffs, candidates, |candidates|)
    ensures |candidates| > 0 ==> totalWeight > 0.0
  {
    candidates, weights, totalWeight := [], [], 0.0;
    for i := 0 to |coeffs|
      invariant candidates == Candidates(coeffs, i)
      invariant |weights| == |candidates|
      invariant forall j :: 0 <= j < |weights| ==> weights[j] == coeffs[candidates[j]].amp
      invariant totalWeight == PrefixWeight(coeffs, candidates, |candidates|)
      invariant |candidates| > 0 ==> totalWeight > 0.0
    {
      var c := coeffs[i];
      if c.freq == 0 {
        continue;
      }
      if c.amp <= MinReverseAmp {
        continue;
      }
      ghost var before := candidates;
      candidates := candidates + [i];
      var w := c.amp;
      weights := weights + [w];
      totalWeight := totalWeight + w;
      PrefixWeightExtend(coeffs, before, candidates);
    }
  }

  /**
   * `_pickReverseEpicycleIndex`: the coin flip, the candidates, then the
   * roulette walk. The uniform fallback for a non-positive total is
   * unreachable.
   */
  method PickReverseEpicycleIndex(coeffs: seq<Coeff>, u1: real, u2: real) returns (picked: int)
    ensures picked == PickReverseIndex(coeffs, u1, u2)
  {
    if |coeffs| == 0 {
      return -1;
    }
    if u1 >= ReverseOneProbability {
      return -1;
    }
    var candidates, weights, totalWeight := CollectCandidates(coeffs);
    if |candidates| == 0 {
      return -1;
    }
    if !(totalWeight > 0.0) {
      assert false;
    }
    var r := RouletteDraw(u2, totalWeight);
    ghost var draw := r;
    for i := 0 to |candidates|
      invariant r == draw - PrefixWeight(coeffs, candidates, i)
      invariant RouletteFrom(coeffs, candidates, 0, draw) == RouletteFrom(coeffs, candidates, i, r)
    {
      r := r - weights[i];
      if r <= 0.0 {
        return candidates[i];
      }
    }
    return candidates[|candidates| - 1];
  }

  /** Appending a candidate leaves the earlier cumulative weights as they were. */
  lemma {:induction false} PrefixWeightExtend(coeffs: seq<Coeff>, cs: seq<nat>, cs': seq<nat>)
    requires |cs'| == |cs| + 1 && cs'[..|cs|] == cs
    requires forall i :: 0 <= i < |cs'| ==> cs'[i] < |coeffs|
    ensures forall j :: 0 <= j <= |cs| ==> PrefixWeight(coeffs, cs, j) == PrefixWeight(coeffs, cs', j)
  {
    forall j | 0 <= j <= |cs|
      ensures PrefixWeight(coeffs, cs, j) == PrefixWeight(coeffs, cs', j)
    {
      PrefixWeightAgree(coeffs, cs, cs', j);
    }
  }

  lemma {:induction false} PrefixWeightAgree(coeffs: seq<Coeff>, cs: seq<nat>, cs': seq<nat>, j: nat)
    requires j <= |cs| && j <= |cs'| && cs[..j] == cs'[..j]
    requires forall i :: 0 <= i < |cs| ==> cs[i] < |coeffs|
    requires forall i :: 0 <= i < |cs'| ==> cs'[i] < |coeffs|
    ensures PrefixWeight(coeffs, cs, j) == PrefixWeight(coeffs, cs', j)
  {
    if j > 0 {
      assert cs[..j - 1] == cs[..j][..j - 1];
      assert cs'[..j - 1] == cs'[..j][..j - 1];
      assert cs[j - 1] == cs[..j][j - 1];
      assert cs'[j - 1] == cs'[..j][j - 1];
      PrefixWeightAgree(coeffs, cs, cs', j - 1);
    }
  }
}
