/**
 * The value-level physics of the DVD screensaver: one sprite's step
 * (move, reflect off the canvas edges, hue change and the sign correction
 * of the jittered velocity on a bounce), the bounded position history the
 * trails follow, the trail-index arithmetic, and the sizes and positions
 * chosen when the state is (re)set.
 *
 * The jitter of `_applyBounceJitter` (a random rotation of the velocity,
 * renormalised with hypot/atan2/cos/sin) enters as an arbitrary velocity;
 * only the final sign correction is modelled.
 */
module DvdPhysics {
  import opened Common

  /** Sprite profiles: `speed` only feeds the (random) initial velocity. */
  datatype Profile = Profile(speed: real, trailHueDeg: int)

  const Profiles: seq<Profile> := [Profile(80.0, 60), Profile(20.0, -15)]
  const SpriteCount: nat := |Profiles|
  const BaseWidthRatio: real := 0.2
  const TrailCount: nat := 10
  const TrailDelayFrames: nat := 1
  /** `maxLen` of `_pushHistory`. */
  const MaxHistory: nat := TrailCount * TrailDelayFrames + 1
  const HueStepDeg: int := 60
  const HueTurnDeg: int := 360
  /** Tolerance of the sign correction after a bounce. */
  const EdgeEpsilon: real := 0.0001
  /** Floor of the image aspect ratio. */
  const MinAspect: real := 0.000001

  datatype Velocity = Velocity(vx: real, vy: real)

  /** The natural size of the loaded image. */
  datatype ImageSize = ImageSize(width: real, height: real)

  /** Canvas size together with the drawn sprite size. */
  datatype Stage = Stage(width: real, height: real, drawWidth: real, drawHeight: real)

  /** The mutable part of a sprite (its `trailHueDeg` never changes). */
  datatype SpriteState = SpriteState(x: real, y: real, vx: real, vy: real, mainHueDeg: int, history: seq<Point>)

  /** Which wall, if any, one axis hit during a step. */
  datatype Edge = NoEdge | LowEdge | HighEdge

  datatype AxisOutcome = AxisOutcome(pos: real, vel: real, edge: Edge)

  /** JavaScript's `%` on integers: the remainder takes the sign of the dividend. */
  function JsRem(a: int, b: int): int
    requires b > 0
  {
    if a >= 0 then a % b else -((-a) % b)
  }

  /**
   * One axis of `_stepSprite` after the move: a position at or beyond the
   * low wall is put on it and the velocity made non-negative; otherwise a
   * position whose far side reaches the high wall is put against it and the
   * velocity made non-positive; otherwise nothing changes.
   */
  function Reflect(pos: real, vel: real, extent: real, size: real): AxisOutcome
  {
    if pos <= 0.0 then AxisOutcome(0.0, Abs(vel), LowEdge)
    else if pos + size >= extent then AxisOutcome(extent - size, -Abs(vel), HighEdge)
    else AxisOutcome(pos, vel, NoEdge)
  }

  /**
   * Reflection keeps the speed on the axis; it reports a wall exactly when
   * the moved sprite touches or crosses one, and then the sprite is against
   * that wall and moves away from it.
   */
  lemma ReflectProperties(pos: real, vel: real, extent: real, size: real)
    ensures var r := Reflect(pos, vel, extent, size);
      && Abs(r.vel) == Abs(vel)
      && (r.edge == NoEdge <==> 0.0 < pos && pos + size < extent)
      && (r.edge == NoEdge ==> r.pos == pos && r.vel == vel)
      && (r.edge == LowEdge ==> r.pos == 0.0 && r.vel >= 0.0)
      && (r.edge == HighEdge ==> r.pos + size == extent && r.vel <= 0.0)
  {
  }

  /** Whenever the sprite fits on the axis, a reflected position lies on the canvas. */
  lemma ReflectStaysInside(pos: real, vel: real, extent: real, size: real)
    requires size <= extent
    ensures var r := Reflect(pos, vel, extent, size); 0.0 <= r.pos <= extent - size
  {
  }

  /**
   * The sign correction at the end of `_applyBounceJitter` for one axis: on
   * a bounced axis, a position within the tolerance of the low wall makes
   * the jittered velocity non-negative, and then a far side within the
   * tolerance of the high wall makes it non-positive (the second test wins).
   */
  function SignFix(bounced: bool, pos: real, size: real, extent: real, next: real): real
  {
    if !bounced then next
    else
      var low := if pos <= EdgeEpsilon then Abs(next) else next;
      if pos + size >= extent - EdgeEpsilon then -Abs(low) else low
  }

  /**
   * After a bounce the corrected velocity points away from the wall that was
   * hit: always for the high wall, and for the low wall exactly when the
   * sprite is narrower than the canvas by more than the tolerance. A sprite
   * that (almost) fills the axis is sent towards the low wall, away from
   * the high one.
   */
  lemma SignFixAfterReflect(pos: real, vel: real, extent: real, size: real, next: real)
    ensures var a := Reflect(pos, vel, extent, size);
      var v := SignFix(a.edge != NoEdge, a.pos, size, extent, next);
      && (a.edge == HighEdge ==> v <= 0.0)
      && (a.edge == LowEdge && size < extent - EdgeEpsilon ==> v >= 0.0)
      && (a.edge == LowEdge && size >= extent - EdgeEpsilon ==> v <= 0.0)
  {
  }

  /** `(mainHueDeg + 60) % 360`. */
  function NextHue(h: int): int
  {
    JsRem(h + HueStepDeg, HueTurnDeg)
  }

  /** A hue on the 60-degree grid of the circle: a multiple of 60 in [0, 360). */
  predicate HueOnGrid(h: int)
  {
    h in {0, 60, 120, 180, 240, 300}
  }

  /** A bounce turns a hue on the grid by one step, wrapping from 300 to 0. */
  lemma NextHueOnGrid(h: int)
    requires HueOnGrid(h)
    ensures HueOnGrid(NextHue(h))
    ensures NextHue(h) == if h + HueStepDeg < HueTurnDeg then h + HueStepDeg else h + HueStepDeg - HueTurnDeg
  {
  }

  /** The hue after a number of bounces. */
  function HueAfter(h: int, bounces: nat): (r: int)
  {
    if bounces == 0 then h else NextHue(HueAfter(h, bounces - 1))
  }

  /** After `n` bounces a hue on the grid has turned by `60·n` degrees, modulo a full turn. */
  lemma {:induction false} HueCycle(h: int, bounces: nat)
    requires HueOnGrid(h)
    ensures HueOnGrid(HueAfter(h, bounces))
    ensures HueAfter(h, bounces) == (h + HueStepDeg * bounces) % HueTurnDeg
  {
    if bounces > 0 {
      HueCycle(h, bounces - 1);
      var prev := HueAfter(h, bounces - 1);
      NextHueOnGrid(prev);
      var y := h + HueStepDeg * bounces;
      var q := (y - HueStepDeg) / HueTurnDeg;
      assert prev + HueStepDeg == y - HueTurnDeg * q;
      if prev + HueStepDeg < HueTurnDeg {
        ModShift(y, q);
      } else {
        ModShift(y, q + 1);
      }
    }
  }

  /** Six bounces bring a hue on the grid back to where it started, and no fewer do. */
  lemma HueReturns(h: int, bounces: nat)
    requires HueOnGrid(h)
    ensures HueAfter(h, bounces) == h <==> bounces % 6 == 0
  {
    HueCycle(h, bounces);
    var d := bounces / 6;
    var m := bounces % 6;
    var v := h + HueStepDeg * m;
    assert h + HueStepDeg * bounces == v + HueTurnDeg * d;
    ModShift(v + HueTurnDeg * d, d);
    if v >= HueTurnDeg {
      ModShift(v, 1);
    }
  }

  /** Adding whole turns does not change a remainder modulo a turn. */
  lemma ModShift(y: int, q: int)
    ensures (y - HueTurnDeg * q) % HueTurnDeg == y % HueTurnDeg
  {
    var d := y / HueTurnDeg;
    var r := y % HueTurnDeg;
    assert y - HueTurnDeg * q == HueTurnDeg * (d - q) + r;
  }

  /** `_pushHistory`: append the current position, keep the newest `MaxHistory`. */
  function PushHistory(history: seq<Point>, p: Point): (r: seq<Point>)
  {
    KeepLast(history + [p], MaxHistory)
  }

  /**
   * After a push the history is within its bound and not empty, its last
   * entry is the pushed position, and the entries before it are the newest
   * entries of the old history in their original order.
   */
  lemma PushHistoryProperties(history: seq<Point>, p: Point)
    ensures var r := PushHistory(history, p);
      && 1 <= |r| <= MaxHistory
      && |r| == (if |history| < MaxHistory then |history| + 1 else MaxHistory)
      && r[|r| - 1] == p
      && r[..|r| - 1] == history[|history| - (|r| - 1)..]
  {
    PushThenEvict(history, [p], MaxHistory);
  }

  lemma PushHistoryLast(history: seq<Point>, p: Point)
    ensures var r := PushHistory(history, p); 1 <= |r| <= MaxHistory && r[|r| - 1] == p
  {
    PushHistoryProperties(history, p);
  }

  /** `_stepSprite` on a sprite's state, the jittered velocity given. */
  function StepSprite(s: SpriteState, st: Stage, jitter: Velocity): (r: SpriteState)
  {
    var ax := Reflect(s.x + s.vx, s.vx, st.width, st.drawWidth);
    var ay := Reflect(s.y + s.vy, s.vy, st.height, st.drawHeight);
    var bouncedX := ax.edge != NoEdge;
    var bouncedY := ay.edge != NoEdge;
    if bouncedX || bouncedY then
      SpriteState(ax.pos, ay.pos,
                  SignFix(bouncedX, ax.pos, st.drawWidth, st.width, jitter.vx),
                  SignFix(bouncedY, ay.pos, st.drawHeight, st.height, jitter.vy),
                  NextHue(s.mainHueDeg),
                  PushHistory(s.history, Point(ax.pos, ay.pos)))
    else
      SpriteState(ax.pos, ay.pos, s.vx, s.vy, s.mainHueDeg,
                  PushHistory(s.history, Point(ax.pos, ay.pos)))
  }

  /** A sprite that fits the canvas stays on it after a step. */
  lemma StepStaysInside(s: SpriteState, st: Stage, jitter: Velocity)
    requires st.drawWidth <= st.width && st.drawHeight <= st.height
    ensures var r := StepSprite(s, st, jitter);
      0.0 <= r.x <= st.width - st.drawWidth && 0.0 <= r.y <= st.height - st.drawHeight
  {
    ReflectStaysInside(s.x + s.vx, s.vx, st.width, st.drawWidth);
    ReflectStaysInside(s.y + s.vy, s.vy, st.height, st.drawHeight);
  }

  /**
   * Without a bounce a step only moves the sprite: velocity and hue are
   * kept. With a bounce the hue turns by 60 degrees, and each bounced
   * velocity component points away from the wall it hit (for a low wall,
   * when the sprite is narrower than the canvas by more than the tolerance).
   */
  lemma StepBounce(s: SpriteState, st: Stage, jitter: Velocity)
    ensures var r := StepSprite(s, st, jitter);
      var bouncedX := !(0.0 < s.x + s.vx && s.x + s.vx + st.drawWidth < st.width);
      var bouncedY := !(0.0 < s.y + s.vy && s.y + s.vy + st.drawHeight < st.height);
      && (!bouncedX && !bouncedY ==>
            r.x == s.x + s.vx && r.y == s.y + s.vy && r.vx == s.vx && r.vy == s.vy
            && r.mainHueDeg == s.mainHueDeg)
      && (bouncedX || bouncedY ==> r.mainHueDeg == JsRem(s.mainHueDeg + 60, 360))
      && (bouncedX && r.x == st.width - st.drawWidth ==> r.vx <= 0.0)
      && (bouncedX && r.x == 0.0 && st.drawWidth < st.width - EdgeEpsilon ==> r.vx >= 0.0)
      && (bouncedY && r.y == st.height - st.drawHeight ==> r.vy <= 0.0)
      && (bouncedY && r.y == 0.0 && st.drawHeight < st.height - EdgeEpsilon ==> r.vy >= 0.0)
      && (bouncedX || bouncedY ==> Abs(r.vx) == Abs(jitter.vx) && Abs(r.vy) == Abs(jitter.vy))
  {
    SignFixAfterReflect(s.x + s.vx, s.vx, st.width, st.drawWidth, jitter.vx);
    SignFixAfterReflect(s.y + s.vy, s.vy, st.height, st.drawHeight, jitter.vy);
  }

  /**
   * Every step appends exactly one history entry, the new position, keeps
   * the history within its bound, and keeps the newest old entries in order.
   */
  lemma StepRecordsPosition(s: SpriteState, st: Stage, jitter: Velocity)
    ensures var r := StepSprite(s, st, jitter);
      && |r.history| == (if |s.history| < MaxHistory then |s.history| + 1 else MaxHistory)
      && r.history[|r.history| - 1] == Point(r.x, r.y)
      && r.history[..|r.history| - 1] == s.history[|s.history| - (|r.history| - 1)..]
  {
    var r := StepSprite(s, st, jitter);
    PushHistoryProperties(s.history, Point(r.x, r.y));
  }

  /**
   * What every sprite satisfies between frames: the hue is on its 60-degree
   * grid, and the history is non-empty, within its bound and ends at the
   * current position.
   */
  predicate SpriteInvariant(s: SpriteState)
  {
    && HueOnGrid(s.mainHueDeg)
    && 1 <= |s.history| <= MaxHistory
    && s.history[|s.history| - 1] == Point(s.x, s.y)
  }

  /** A step keeps the sprite invariant. */
  lemma StepKeepsInvariant(s: SpriteState, st: Stage, jitter: Velocity)
    requires SpriteInvariant(s)
    ensures SpriteInvariant(StepSprite(s, st, jitter))
  {
    var r := StepSprite(s, st, jitter);
    PushHistoryLast(s.history, Point(r.x, r.y));
    NextHueOnGrid(s.mainHueDeg);
  }

  /** p5's `constrain(v, lo, hi)`: `max(min(v, hi), lo)`. */
  function Constrain(v: real, lo: real, hi: real): (r: real)
    ensures lo <= hi ==> lo <= r <= hi
    ensures lo <= v <= hi ==> r == v
    ensures v > hi && lo <= hi ==> r == hi
    ensures v < lo ==> r == lo
  {
    MaxReal(MinReal(v, hi), lo)
  }

  /** `max(0, extent - size)`: the largest position that keeps the sprite on the canvas. */
  function MaxPos(extent: real, size: real): (r: real)
    ensures r >= 0.0 && r >= extent - size
    ensures size <= extent ==> r == extent - size
  {
    MaxReal(0.0, extent - size)
  }

  /** The resize branch of `_resetState` for one sprite: clamp, then push history. */
  function ClampSprite(s: SpriteState, st: Stage): (r: SpriteState)
  {
    var x := Constrain(s.x, 0.0, MaxPos(st.width, st.drawWidth));
    var y := Constrain(s.y, 0.0, MaxPos(st.height, st.drawHeight));
    s.(x := x, y := y, history := PushHistory(s.history, Point(x, y)))
  }

  /**
   * Clamping puts the sprite in [0, max(0, width - drawWidth)] ×
   * [0, max(0, height - drawHeight)], leaves a sprite already there where
   * it is, keeps velocity and hue, and records one history entry.
   */
  lemma ClampSpriteProperties(s: SpriteState, st: Stage)
    ensures var r := ClampSprite(s, st);
      && 0.0 <= r.x <= MaxPos(st.width, st.drawWidth)
      && 0.0 <= r.y <= MaxPos(st.height, st.drawHeight)
      && (0.0 <= s.x <= MaxPos(st.width, st.drawWidth) ==> r.x == s.x)
      && (0.0 <= s.y <= MaxPos(st.height, st.drawHeight) ==> r.y == s.y)
      && r.vx == s.vx && r.vy == s.vy && r.mainHueDeg == s.mainHueDeg
      && r.history == KeepLast(s.history + [Point(r.x, r.y)], MaxHistory)
  {
  }

  /** Clamping twice is clamping once, apart from the extra history entry. */
  lemma ClampIdempotent(s: SpriteState, st: Stage)
    ensures var once := ClampSprite(s, st);
      var twice := ClampSprite(once, st);
      twice.x == once.x && twice.y == once.y
  {
  }

  /** `_drawWidth`: a fifth of the canvas width, at least 1. */
  function DrawWidthFor(width: real): (r: real)
    ensures r >= 1.0
    ensures width >= 1.25 ==> r <= width
  {
    MaxReal(1.0, width * BaseWidthRatio)
  }

  /** `width / max(1, height)` of the image. */
  function Aspect(image: ImageSize): real
  {
    image.width / MaxReal(1.0, image.height)
  }

  /** `_drawHeight`: the draw width over the (floored) image aspect, at least 1. */
  function DrawHeightFor(drawWidth: real, image: ImageSize): (r: real)
    ensures r >= 1.0
  {
    MaxReal(1.0, drawWidth / MaxReal(MinAspect, Aspect(image)))
  }

  /** `x` of `_createSprite`: sprite `i` of `SpriteCount` spread evenly across. */
  function CreateX(maxX: real, index: nat): real
  {
    maxX * ((index + 1) as real / (SpriteCount + 1) as real)
  }

  /** `y` of `_createSprite`: 35% down for even sprites, 65% for odd ones. */
  function CreateY(maxY: real, index: nat): real
  {
    maxY * (if index % 2 == 0 then 0.35 else 0.65)
  }

  /** `_createSprite` for sprite `index`, the random velocity given. */
  function CreateSprite(st: Stage, index: nat, v: Velocity): (r: SpriteState)
  {
    var x := CreateX(MaxPos(st.width, st.drawWidth), index);
    var y := CreateY(MaxPos(st.height, st.drawHeight), index);
    SpriteState(x, y, v.vx, v.vy, 0, [Point(x, y)])
  }

  /**
   * A new sprite starts on the canvas: x = maxX·(i+1)/(SpriteCount+1) in
   * [0, maxX], y at 35% or 65% of maxY, hue 0, and one history entry, its
   * position.
   */
  lemma CreateSpriteProperties(st: Stage, index: nat, v: Velocity)
    requires index < SpriteCount
    ensures var r := CreateSprite(st, index, v);
      var maxX := MaxPos(st.width, st.drawWidth);
      var maxY := MaxPos(st.height, st.drawHeight);
      && 0.0 <= r.x <= maxX
      && 0.0 <= r.y <= maxY
      && (r.y == 0.35 * maxY || r.y == 0.65 * maxY)
      && r.mainHueDeg == 0 && HueOnGrid(r.mainHueDeg)
      && r.history == [Point(r.x, r.y)]
      && r.vx == v.vx && r.vy == v.vy
  {
    var maxX := MaxPos(st.width, st.drawWidth);
    var f := (index + 1) as real / (SpriteCount + 1) as real;
    assert 0.0 <= f <= 1.0;
    ScaleWithin(maxX, f);
  }

  lemma ScaleWithin(m: real, f: real)
    requires 0.0 <= m && 0.0 <= f <= 1.0
    ensures 0.0 <= m * f <= m
  {
    assert m * f <= m * 1.0 by {
      assert m * (1.0 - f) >= 0.0;
    }
  }

  /** Sprites are spread out: distinct sprites start at distinct x when there is room. */
  lemma CreateXDistinct(maxX: real, i: nat, j: nat)
    requires 0.0 < maxX && i != j
    ensures CreateX(maxX, i) != CreateX(maxX, j)
  {
    var fi := (i + 1) as real / (SpriteCount + 1) as real;
    var fj := (j + 1) as real / (SpriteCount + 1) as real;
    assert fi != fj;
    assert maxX * fi - maxX * fj == maxX * (fi - fj);
  }

  /** `len - 1 - i * TRAIL_DELAY_FRAMES`: the history index trail `i` follows. */
  function TrailIndex(len: int, i: int): int
  {
    len - 1 - i * TrailDelayFrames
  }

  /**
   * The indices `_drawTrails` does read (the non-negative ones, for trails
   * 1..TRAIL_COUNT) lie strictly before the newest entry, and trail `i` is
   * read exactly when the history has more than `i` entries.
   */
  lemma TrailIndexRange(len: nat, i: int)
    requires 1 <= i <= TrailCount
    ensures TrailIndex(len, i) >= 0 <==> i < len
    ensures TrailIndex(len, i) >= 0 ==> 0 <= TrailIndex(len, i) < len - 1
  {
  }

  /** How many trails a history of `len` entries shows: one per entry before the newest, at most `TrailCount`. */
  function TrailsShown(len: int): (n: nat)
    ensures n <= TrailCount
  {
    if len - 1 >= TrailCount then TrailCount else if len >= 1 then len - 1 else 0
  }

  /** One trail image: which trail, the history entry it follows, where and in which hue it is drawn. */
  datatype TrailDraw = TrailDraw(trail: int, index: int, pos: Point, hueDeg: int)

  /**
   * The trail images of one sprite in drawing order: trails `TrailsShown`
   * down to 1 (the oldest first), trail `i` at history entry
   * `len - 1 - i * TRAIL_DELAY_FRAMES`, hue-rotated by `i * trailHueDeg`.
   */
  predicate TrailsFollow(draws: seq<TrailDraw>, history: seq<Point>, trailHueDeg: int)
  {
    && |draws| == TrailsShown(|history|)
    && forall j :: 0 <= j < |draws| ==>
      && draws[j].trail == |draws| - j
      && draws[j].index == TrailIndex(|history|, draws[j].trail)
      && 0 <= draws[j].index < |history| - 1
      && draws[j].pos == history[draws[j].index]
      && draws[j].hueDeg == draws[j].trail * trailHueDeg
  }

  /**
   * Trail `i` (1..TRAIL_COUNT) is drawn exactly when its history index is
   * non-negative, and then exactly once.
   */
  lemma {:induction false} TrailsComplete(draws: seq<TrailDraw>, history: seq<Point>, trailHueDeg: int, i: int)
    requires TrailsFollow(draws, history, trailHueDeg)
    requires 1 <= i <= TrailCount
    ensures TrailIndex(|history|, i) >= 0 <==> exists j :: 0 <= j < |draws| && draws[j].trail == i
    ensures forall j, k :: 0 <= j < k < |draws| ==> draws[j].trail != draws[k].trail
  {
    TrailIndexRange(|history|, i);
    if TrailIndex(|history|, i) >= 0 {
      var j := |draws| - i;
      assert draws[j].trail == i;
    }
  }
}
