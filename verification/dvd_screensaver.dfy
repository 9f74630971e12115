/**
 * The DVD screensaver plugin's state: the sprites (objects whose position,
 * velocity, hue and history are updated in place every frame), the drawn
 * sprite size derived from the canvas and the image, and the
 * ready / attached lifecycle of `init`, the image preload, `setup`,
 * `draw`, `resize` and `destroy`.
 */
module DvdScreensaver {
  import opened Common
  import opened DvdPhysics

  /** One bouncing logo, as the objects `_createSprite` builds. */
  class Sprite {
    var x: real
    var y: real
    var vx: real
    var vy: real
    var mainHueDeg: int
    const trailHueDeg: int
    var history: seq<Point>

    ghost function State(): SpriteState
      reads this`x, this`y, this`vx, this`vy, this`mainHueDeg, this`history
    {
      SpriteState(x, y, vx, vy, mainHueDeg, history)
    }

    /** The hue is on its 60-degree grid and the newest history entry is the position. */
    ghost predicate Valid()
      reads this`x, this`y, this`vx, this`vy, this`mainHueDeg, this`history
    {
      SpriteInvariant(State())
    }

    /** `_createSprite(sk, index)`, the random velocity of `_createVelocity` given. */
    constructor (st: Stage, index: nat, v: Velocity)
      ensures State() == CreateSprite(st, index, v)
      ensures trailHueDeg == Profiles[index % |Profiles|].trailHueDeg
      ensures Valid()
    {
      var maxX := MaxPos(st.width, st.drawWidth);
      var maxY := MaxPos(st.height, st.drawHeight);
      x := CreateX(maxX, index);
      y := CreateY(maxY, index);
      vx := v.vx;
      vy := v.vy;
      mainHueDeg := 0;
      trailHueDeg := Profiles[index % |Profiles|].trailHueDeg;
      history := [];
      new;
      PushHistory();
    }

    /** `_pushHistory`. */
    method PushHistory()
      modifies this`history
      ensures history == DvdPhysics.PushHistory(old(history), Point(x, y))
    {
      history := history + [Point(x, y)];
      if |history| > MaxHistory {
        history := history[|history| - MaxHistory..];
      }
    }

    /** `_stepSprite`, with the jittered velocity of a bounce given. */
    method Step(st: Stage, jitter: Velocity)
      requires Valid()
      modifies this`x, this`y, this`vx, this`vy, this`mainHueDeg, this`history
      ensures State() == StepSprite(old(State()), st, jitter)
      ensures Valid()
    {
      ghost var s0 := State();
      ghost var r := StepSprite(s0, st, jitter);
      var bouncedX := MoveX(st);
      var bouncedY := MoveY(st);
      assert x == r.x && y == r.y;
      if bouncedX || bouncedY {
        mainHueDeg := NextHue(mainHueDeg);
        ApplyBounceJitter(st, jitter, bouncedX, bouncedY);
      }
      assert vx == r.vx && vy == r.vy && mainHueDeg == r.mainHueDeg;
      PushHistory();
      assert history == r.history;
      StepKeepsInvariant(s0, st, jitter);
    }

    /** The horizontal half of the move and reflection of `_stepSprite`. */
    method MoveX(st: Stage) returns (bounced: bool)
      modifies this`x, this`vx
      ensures var a := Reflect(old(x + vx), old(vx), st.width, st.drawWidth);
        x == a.pos && vx == a.vel && bounced == (a.edge != NoEdge)
    {
      x := x + vx;
      bounced := false;
      if x <= 0.0 {
        x := 0.0;
        vx := Abs(vx);
        bounced := true;
      } else if x + st.drawWidth >= st.width {
        x := st.width - st.drawWidth;
        vx := -Abs(vx);
        bounced := true;
      }
    }

    /** The vertical half of the move and reflection of `_stepSprite`. */
    method MoveY(st: Stage) returns (bounced: bool)
      modifies this`y, this`vy
      ensures var a := Reflect(old(y + vy), old(vy), st.height, st.drawHeight);
        y == a.pos && vy == a.vel && bounced == (a.edge != NoEdge)
    {
      y := y + vy;
      bounced := false;
      if y <= 0.0 {
        y := 0.0;
        vy := Abs(vy);
        bounced := true;
      } else if y + st.drawHeight >= st.height {
        y := st.height - st.drawHeight;
        vy := -Abs(vy);
        bounced := true;
      }
    }

    /**
     * The end of `_applyBounceJitter`: the jittered velocity, with the sign
     * of each bounced component corrected against the walls.
     */
    method ApplyBounceJitter(st: Stage, jitter: Velocity, bouncedX: bool, bouncedY: bool)
      modifies this`vx, this`vy
      ensures vx == SignFix(bouncedX, x, st.drawWidth, st.width, jitter.vx)
      ensures vy == SignFix(bouncedY, y, st.drawHeight, st.height, jitter.vy)
    {
      var nextVx := jitter.vx;
      var nextVy := jitter.vy;
      if bouncedX {
        if x <= EdgeEpsilon {
          nextVx := Abs(nextVx);
        }
        if x + st.drawWidth >= st.width - EdgeEpsilon {
          nextVx := -Abs(nextVx);
        }
      }
      if bouncedY {
        if y <= EdgeEpsilon {
          nextVy := Abs(nextVy);
        }
        if y + st.drawHeight >= st.height - EdgeEpsilon {
          nextVy := -Abs(nextVy);
        }
      }
      vx := nextVx;
      vy := nextVy;
    }

    /** The resize branch of `_resetState` for this sprite: constrain into the canvas, then push history. */
    method ClampInto(st: Stage)
      requires Valid()
      modifies this`x, this`y, this`history
      ensures State() == ClampSprite(old(State()), st)
      ensures Valid()
    {
      x := Constrain(x, 0.0, MaxPos(st.width, st.drawWidth));
      y := Constrain(y, 0.0, MaxPos(st.height, st.drawHeight));
      PushHistory();
      PushHistoryLast(old(history), Point(x, y));
    }

    /**
     * The index arithmetic of `_drawTrails` for this sprite: trails
     * TRAIL_COUNT down to 1, skipping those whose history index is negative.
     */
    method Trails() returns (draws: seq<TrailDraw>)
      ensures TrailsFollow(draws, history, trailHueDeg)
    {
      var len := |history|;
      var shown := TrailsShown(len);
      draws := [];
      var i := TrailCount;
      while i >= 1
        invariant 0 <= i <= TrailCount
        invariant |draws| == if shown > i then shown - i else 0
        invariant forall j :: 0 <= j < |draws| ==>
          && draws[j].trail == shown - j
          && draws[j].index == TrailIndex(len, draws[j].trail)
          && 0 <= draws[j].index < len - 1
          && draws[j].pos == history[draws[j].index]
          && draws[j].hueDeg == draws[j].trail * trailHueDeg
      {
        var idx := len - 1 - i * TrailDelayFrames;
        if idx >= 0 {
          draws := draws + [TrailDraw(i, idx, history[idx], i * trailHueDeg)];
        }
        i := i - 1;
      }
    }
  }

  /** The plugin object: canvas, image, drawn size and sprites. */
  class Screensaver {
    /** Whether the p5 instance `_sk` exists. */
    var attached: bool
    var width: real
    var height: real
    var image: Option<ImageSize>
    var ready: bool
    var drawWidth: real
    var drawHeight: real
    var sprites: seq<Sprite>

    ghost predicate Valid()
      reads this`drawWidth, this`drawHeight, this`sprites, sprites
    {
      drawWidth >= 1.0 && drawHeight >= 1.0 && SpritesDistinct() && SpritesValid()
    }

    /** The sprites are distinct objects, as `Array.from` with `_createSprite` builds them. */
    ghost predicate SpritesDistinct()
      reads this`sprites
    {
      forall i, j :: 0 <= i < j < |sprites| ==> sprites[i] != sprites[j]
    }

    ghost predicate SpritesValid()
      reads this`sprites, sprites
    {
      forall i :: 0 <= i < |sprites| ==> sprites[i].Valid()
    }

    /** `_isDrawable`: the image loaded and has a positive size. */
    predicate IsDrawable()
      reads this`ready, this`image
    {
      ready && image.Some? && image.value.width > 0.0 && image.value.height > 0.0
    }

    function CurrentStage(): Stage
      reads this`width, this`height, this`drawWidth, this`drawHeight
    {
      Stage(width, height, drawWidth, drawHeight)
    }

    /** `init`: the sketch exists, nothing is loaded yet, no sprites. */
    constructor (width: real, height: real)
      ensures Valid()
      ensures attached && this.width == width && this.height == height
      ensures image == None && !ready && drawWidth == 1.0 && drawHeight == 1.0 && sprites == []
    {
      attached := true;
      this.width := width;
      this.height := height;
      image := None;
      ready := false;
      drawWidth := 1.0;
      drawHeight := 1.0;
      sprites := [];
    }

    /** The callbacks of `loadImage` in `preload`: ready exactly when the image loaded. */
    method Preload(loaded: Option<ImageSize>)
      modifies this`image, this`ready
      ensures image == loaded && ready == loaded.Some?
    {
      image := loaded;
      ready := loaded.Some?;
    }

    /** `setup`: `_resetState(sk, true)`. */
    method Setup(velocities: seq<Velocity>)
      requires Valid() && |velocities| == SpriteCount
      modifies this`drawWidth, this`drawHeight, this`sprites
      ensures Valid()
      ensures !IsDrawable() ==> unchanged(this)
      ensures IsDrawable() ==> Sized() && Recreated(velocities)
      ensures IsDrawable() ==> forall i :: 0 <= i < |sprites| ==> fresh(sprites[i])
    {
      if !IsDrawable() {
        return;
      }
      ComputeDrawSize();
      RecreateSprites(velocities);
    }

    /** The drawn size that `_resetState` derives from the canvas width and the image aspect. */
    ghost predicate Sized()
      reads this`width, this`image, this`drawWidth, this`drawHeight
    {
      image.Some? && drawWidth == DrawWidthFor(width) && drawHeight == DrawHeightFor(drawWidth, image.value)
    }

    /** Exactly `SPRITE_COUNT` sprites, each as `_createSprite` builds it for the current stage. */
    ghost predicate Recreated(velocities: seq<Velocity>)
      reads this`width, this`height, this`drawWidth, this`drawHeight, this`sprites, sprites
      requires |velocities| == SpriteCount
    {
      && |sprites| == SpriteCount
      && forall i :: 0 <= i < SpriteCount ==>
        && sprites[i].State() == CreateSprite(CurrentStage(), i, velocities[i])
        && sprites[i].trailHueDeg == Profiles[i].trailHueDeg
    }

    /** The size computation at the top of `_resetState`. */
    method ComputeDrawSize()
      requires IsDrawable() && Valid()
      modifies this`drawWidth, this`drawHeight
      ensures Sized() && Valid()
    {
      drawWidth := DrawWidthFor(width);
      drawHeight := DrawHeightFor(drawWidth, image.value);
    }

    /** `this._sprites = Array.from({ length: SPRITE_COUNT }, (_, i) => this._createSprite(sk, i))`. */
    method RecreateSprites(velocities: seq<Velocity>)
      requires |velocities| == SpriteCount && drawWidth >= 1.0 && drawHeight >= 1.0
      modifies this`sprites
      ensures Valid() && Recreated(velocities)
      ensures forall i :: 0 <= i < |sprites| ==> fresh(sprites[i])
    {
      var st := CurrentStage();
      var made: seq<Sprite> := [];
      for i := 0 to SpriteCount
        invariant |made| == i
        invariant forall k :: 0 <= k < i ==> fresh(made[k])
        invariant forall k, l :: 0 <= k < l < i ==> made[k] != made[l]
        invariant forall k :: 0 <= k < i ==>
          && made[k].Valid()
          && made[k].State() == CreateSprite(st, k, velocities[k])
          && made[k].trailHueDeg == Profiles[k].trailHueDeg
      {
        var s := new Sprite(st, i, velocities[i]);
        made := made + [s];
      }
      sprites := made;
    }

    /** The loop of `_resetState` that constrains every sprite into the canvas. */
    method ClampAll()
      requires Valid()
      modifies sprites
      ensures Valid()
      ensures forall k :: 0 <= k < |sprites| ==> sprites[k].State() == ClampSprite(old(sprites[k].State()), CurrentStage())
    {
      for i := 0 to |sprites|
        invariant SpritesDistinct() && SpritesValid()
        invariant forall k :: 0 <= k < i ==>
          sprites[k].State() == ClampSprite(old(sprites[k].State()), CurrentStage())
        invariant forall k :: i <= k < |sprites| ==> sprites[k].State() == old(sprites[k].State())
      {
        ClampOne(i);
      }
    }

    /** One iteration of the clamping loop: sprite `i` is constrained, the others are left alone. */
    method ClampOne(i: nat)
      requires SpritesDistinct() && SpritesValid() && i < |sprites|
      modifies sprites[i]
      ensures SpritesValid()
      ensures sprites[i].State() == ClampSprite(old(sprites[i].State()), CurrentStage())
      ensures forall k :: 0 <= k < |sprites| && k != i ==> sprites[k].State() == old(sprites[k].State())
    {
      sprites[i].ClampInto(CurrentStage());
    }

    /**
     * `_resetState(sk, resetPosition)`: nothing unless drawable; otherwise
     * the drawn size is recomputed, and the sprites are recreated on a full
     * reset or when their number is off, and constrained into the canvas
     * (with one history entry each) otherwise.
     */
    method ResetState(resetPosition: bool, velocities: seq<Velocity>)
      requires Valid() && |velocities| == SpriteCount
      modifies this`drawWidth, this`drawHeight, this`sprites, sprites
      ensures Valid()
      ensures !IsDrawable() ==> unchanged(this) && unchanged(sprites)
      ensures IsDrawable() ==> Sized()
      ensures IsDrawable() && (resetPosition || old(|sprites|) != SpriteCount) ==>
        Recreated(velocities) && forall i :: 0 <= i < |sprites| ==> fresh(sprites[i])
      ensures IsDrawable() && !resetPosition && old(|sprites|) == SpriteCount ==>
        && sprites == old(sprites)
        && forall k :: 0 <= k < |sprites| ==> sprites[k].State() == ClampSprite(old(sprites[k].State()), CurrentStage())
    {
      if !IsDrawable() {
        return;
      }
      ComputeDrawSize();
      if resetPosition || |sprites| != SpriteCount {
        RecreateSprites(velocities);
        return;
      }
      ClampAll();
    }

    /**
     * `resize`: a no-op without a sketch. Otherwise `resizeCanvas(width,
     * height, false)` gives the canvas its new size and, since its
     * `noRedraw` argument is false, p5 runs `draw` once at once: every
     * sprite steps on the new canvas with the old drawn size (`jitter` holds
     * that frame's bounce draws). Then `_resetState(sk, false)` runs.
     * Before `setup` there are no sprites, so that frame changes nothing.
     */
    method Resize(newWidth: real, newHeight: real, jitter: seq<Velocity>, velocities: seq<Velocity>)
      requires Valid() && |jitter| == |sprites| && |velocities| == SpriteCount
      modifies this`width, this`height, this`drawWidth, this`drawHeight, this`sprites, sprites
      ensures Valid()
      ensures !attached ==> unchanged(this) && unchanged(sprites)
      ensures attached ==> width == newWidth && height == newHeight
      ensures attached && !IsDrawable() ==>
        && drawWidth == old(drawWidth) && drawHeight == old(drawHeight)
        && sprites == old(sprites) && unchanged(sprites)
      ensures attached && IsDrawable() ==> Sized()
      ensures attached && IsDrawable() && old(|sprites|) != SpriteCount ==> Recreated(velocities)
      ensures attached && IsDrawable() && old(|sprites|) == SpriteCount ==>
        && sprites == old(sprites)
        && forall k :: 0 <= k < |sprites| ==>
          sprites[k].State() == ClampSprite(StepSprite(old(sprites[k].State()), Stage(newWidth, newHeight, old(drawWidth), old(drawHeight)), jitter[k]),
                                            CurrentStage())
    {
      if !attached {
        return;
      }
      width := newWidth;
      height := newHeight;
      var redrawn := Draw(jitter);
      ResetState(false, velocities);
    }

    /** `destroy`: the sketch and the image are dropped, not ready, no sprites. */
    method Destroy()
      requires Valid()
      modifies this`attached, this`image, this`ready, this`sprites
      ensures Valid()
      ensures !attached && image == None && !ready && sprites == [] && !IsDrawable()
    {
      attached := false;
      image := None;
      ready := false;
      sprites := [];
    }

    /** `_step`: every sprite takes one step, each with its own jitter draw. */
    method StepAll(jitter: seq<Velocity>)
      requires Valid() && |jitter| == |sprites|
      modifies sprites
      ensures Valid()
      ensures forall k :: 0 <= k < |sprites| ==>
        sprites[k].State() == StepSprite(old(sprites[k].State()), CurrentStage(), jitter[k])
    {
      for i := 0 to |sprites|
        invariant SpritesDistinct() && SpritesValid()
        invariant forall k :: 0 <= k < i ==>
          sprites[k].State() == StepSprite(old(sprites[k].State()), CurrentStage(), jitter[k])
        invariant forall k :: i <= k < |sprites| ==> sprites[k].State() == old(sprites[k].State())
      {
        StepOne(i, jitter[i]);
      }
    }

    /** One iteration of `_step`: sprite `i` steps, the others are left alone. */
    method StepOne(i: nat, jitter: Velocity)
      requires SpritesDistinct() && SpritesValid() && i < |sprites|
      modifies sprites[i]
      ensures SpritesValid()
      ensures sprites[i].State() == StepSprite(old(sprites[i].State()), CurrentStage(), jitter)
      ensures forall k :: 0 <= k < |sprites| && k != i ==> sprites[k].State() == old(sprites[k].State())
    {
      sprites[i].Step(CurrentStage(), jitter);
    }

    /**
     * `draw`: when drawable, step every sprite and then lay out each
     * sprite's trail images; nothing otherwise.
     */
    method Draw(jitter: seq<Velocity>) returns (trails: seq<seq<TrailDraw>>)
      requires Valid() && |jitter| == |sprites|
      modifies sprites
      ensures Valid()
      ensures !IsDrawable() ==> trails == [] && unchanged(sprites)
      ensures IsDrawable() ==> forall k :: 0 <= k < |sprites| ==>
        sprites[k].State() == StepSprite(old(sprites[k].State()), CurrentStage(), jitter[k])
      ensures IsDrawable() ==> TrailsOfAll(trails)
    {
      if !IsDrawable() {
        return [];
      }
      StepAll(jitter);
      trails := DrawTrails();
    }

    /** One trail layout per sprite, each following that sprite's history. */
    ghost predicate TrailsOfAll(trails: seq<seq<TrailDraw>>)
      reads this`sprites, sprites
    {
      && |trails| == |sprites|
      && forall k :: 0 <= k < |sprites| ==> TrailsFollow(trails[k], sprites[k].history, sprites[k].trailHueDeg)
    }

    /** The index arithmetic of `_drawTrails`, sprite by sprite. */
    method DrawTrails() returns (trails: seq<seq<TrailDraw>>)
      ensures TrailsOfAll(trails)
    {
      trails := [];
      for i := 0 to |sprites|
        invariant |trails| == i
        invariant forall k :: 0 <= k < i ==> TrailsFollow(trails[k], sprites[k].history, sprites[k].trailHueDeg)
      {
        var t := sprites[i].Trails();
        trails := trails + [t];
      }
    }
  }
}
