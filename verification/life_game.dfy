/**
 * The Life Game plugin's state: a board and its source mask, each kept in
 * two fixed-size buffers that swap every generation, a generation counter,
 * and the cursor / repeat-counter state machine that stamps injection
 * patterns every `spawnEvery` generations.
 */
module LifeGame {
  import opened Common
  import opened LifeRows
  import opened LifeRules

  /** The contents of a buffer as a board value. */
  ghost function Cells(a: array2<int>): (g: Grid)
    reads a
    ensures IsGrid(g, a.Length0, a.Length1)
    ensures forall y, x :: 0 <= y < a.Length0 && 0 <= x < a.Length1 ==> g[y][x] == a[y, x]
  {
    seq(a.Length0, y requires 0 <= y < a.Length0 reads a =>
      seq(a.Length1, x requires 0 <= x < a.Length1 reads a => a[y, x]))
  }

  /** A buffer that agrees cell by cell with a board value holds that value. */
  lemma CellsAre(a: array2<int>, g: Grid)
    requires IsGrid(g, a.Length0, a.Length1)
    requires forall y, x :: 0 <= y < a.Length0 && 0 <= x < a.Length1 ==> a[y, x] == g[y][x]
    ensures Cells(a) == g
  {
    var c := Cells(a);
    forall y | 0 <= y < a.Length0
      ensures c[y] == g[y]
    {
      assert forall x :: 0 <= x < a.Length1 ==> c[y][x] == g[y][x];
    }
  }

  /** `createEmptyGrid`. */
  method CreateEmptyGrid(h: nat, w: nat) returns (a: array2<int>)
    ensures fresh(a) && a.Length0 == h && a.Length1 == w
    ensures forall y, x :: 0 <= y < h && 0 <= x < w ==> a[y, x] == 0
  {
    a := new int[h, w]((y, x) => 0);
  }

  /**
   * `createSeedGrid`: cell (y, x) is 1 exactly when sanitized row `y` has a
   * '1' at position `x`; missing rows and positions past a row's end are 0.
   * That is, the initial rows stamped at (0, 0) on an empty board.
   */
  method CreateSeedGrid(rows: seq<string>, h: nat, w: nat) returns (a: array2<int>)
    ensures fresh(a) && a.Length0 == h && a.Length1 == w
    ensures forall y, x :: 0 <= y < h && 0 <= x < w ==>
      a[y, x] == if Hits(Stamp(rows, 0, 0), y, x) then 1 else 0
  {
    a := CreateEmptyGrid(h, w);
    ghost var st := Stamp(rows, 0, 0);
    for y := 0 to h
      invariant forall r, c :: 0 <= r < y && 0 <= c < w ==> a[r, c] == if Hits(st, r, c) then 1 else 0
    {
      var row := SanitizeRowText(if y < |rows| then rows[y] else "");
      assert y >= |rows| ==> row == [];
      for x := 0 to w
        invariant forall r, c :: 0 <= r < y && 0 <= c < w ==> a[r, c] == if Hits(st, r, c) then 1 else 0
        invariant forall c :: 0 <= c < x ==> a[y, c] == if Hits(st, y, c) then 1 else 0
      {
        assert Hits(st, y, x) <==> x < |row| && row[x] == '1';
        a[y, x] := if x < |row| && row[x] == '1' then 1 else 0;
      }
    }
  }

  /** `createSourceMaskFromState`: every live cell of the seed is a source cell. */
  method CreateSourceMaskFromState(grid: array2<int>) returns (mask: array2<int>)
    ensures fresh(mask) && mask.Length0 == grid.Length0 && mask.Length1 == grid.Length1
    ensures forall y, x :: 0 <= y < grid.Length0 && 0 <= x < grid.Length1 ==>
      mask[y, x] == if grid[y, x] == 1 then 1 else 0
  {
    mask := CreateEmptyGrid(grid.Length0, grid.Length1);
    for y := 0 to grid.Length0
      invariant forall r, c :: 0 <= r < y && 0 <= c < grid.Length1 ==>
        mask[r, c] == if grid[r, c] == 1 then 1 else 0
    {
      for x := 0 to grid.Length1
        invariant forall r, c :: 0 <= r < y && 0 <= c < grid.Length1 ==>
          mask[r, c] == if grid[r, c] == 1 then 1 else 0
        invariant forall c :: 0 <= c < x ==> mask[y, c] == if grid[y, c] == 1 then 1 else 0
      {
        mask[y, x] := if grid[y, x] == 1 then 1 else 0;
      }
    }
  }

  /** The neighbour count of `_step`: the eight in-board cells around (y, x). */
  method CountNeighbors(src: array2<int>, y: int, x: int) returns (n: int)
    requires 0 <= y < src.Length0 && 0 <= x < src.Length1
    ensures n == Neighbors(Cells(src), y, x)
  {
    ghost var g := Cells(src);
    n := 0;
    for dy := -1 to 2
      invariant n == WindowTerms(g, y, x, dy)
    {
      for dx := -1 to 2
        invariant n == WindowTerms(g, y, x, dy) + RowTerms(g, y, x, dy, dx)
      {
        if !(dx == 0 && dy == 0) {
          var nx := x + dx;
          var ny := y + dy;
          if !(nx < 0 || nx >= src.Length1 || ny < 0 || ny >= src.Length0) {
            n := n + src[ny, nx];
          }
        }
      }
    }
    WindowIsNeighbors(g, y, x);
  }

  /**
   * The cell loop of `_step`: writes the next generation of `src` into `dst`
   * and the next source mask into `dstMask`, reading only the old buffers.
   */
  method WriteNextGeneration(src: array2<int>, srcMask: array2<int>, dst: array2<int>, dstMask: array2<int>)
    requires src.Length0 == srcMask.Length0 == dst.Length0 == dstMask.Length0
    requires src.Length1 == srcMask.Length1 == dst.Length1 == dstMask.Length1
    requires dst != src && dst != srcMask && dstMask != src && dstMask != srcMask && dst != dstMask
    modifies dst, dstMask
    ensures forall y, x :: 0 <= y < src.Length0 && 0 <= x < src.Length1 ==>
      && dst[y, x] == NextCell(Cells(src), y, x)
      && dstMask[y, x] == NextMask(Cells(src), Cells(srcMask), y, x)
  {
    ghost var g := Cells(src);
    ghost var m := Cells(srcMask);
    var h, w := src.Length0, src.Length1;
    for y := 0 to h
      invariant forall r, c :: 0 <= r < y && 0 <= c < w ==>
        dst[r, c] == NextCell(g, r, c) && dstMask[r, c] == NextMask(g, m, r, c)
    {
      for x := 0 to w
        invariant forall r, c :: 0 <= r < y && 0 <= c < w ==>
          dst[r, c] == NextCell(g, r, c) && dstMask[r, c] == NextMask(g, m, r, c)
        invariant forall c :: 0 <= c < x ==>
          dst[y, c] == NextCell(g, y, c) && dstMask[y, c] == NextMask(g, m, y, c)
      {
        var cell, bit := NextCellAt(src, srcMask, y, x);
        dst[y, x] := cell;
        dstMask[y, x] := bit;
      }
    }
  }

  /** The body of `_step`'s cell loop: the next cell and mask bit at (y, x). */
  method NextCellAt(src: array2<int>, srcMask: array2<int>, y: int, x: int) returns (cell: int, bit: int)
    requires 0 <= y < src.Length0 && 0 <= x < src.Length1
    requires srcMask.Length0 == src.Length0 && srcMask.Length1 == src.Length1
    ensures cell == NextCell(Cells(src), y, x)
    ensures bit == NextMask(Cells(src), Cells(srcMask), y, x)
  {
    var neighbors := CountNeighbors(src, y, x);
    var alive := src[y, x] == 1;
    var nextAlive := 0;
    if alive {
      nextAlive := if neighbors == 2 || neighbors == 3 then 1 else 0;
    } else {
      nextAlive := if neighbors == 3 then 1 else 0;
    }
    cell := nextAlive;
    if nextAlive == 1 {
      if alive {
        bit := srcMask[y, x];
      } else {
        // a birth is a simulation result, not an injected cell
        bit := 0;
      }
    } else {
      bit := 0;
    }
  }

  class Board {
    /** `BOARD_WIDTH`, `BOARD_HEIGHT` and `_spawnEveryGenerations`. */
    const width: nat
    const height: nat
    const spawnEvery: nat
    const initialRows: seq<string>
    const injectionPatterns: seq<Option<Pattern>>
    const hasInitialPatternInCycle: bool
    const cycleLength: nat

    var grid: array2<int>
    var next: array2<int>
    var sourceMask: array2<int>
    var nextSourceMask: array2<int>
    var generation: nat
    var injectionCursor: nat
    var injectionRepeatCounter: nat

    /** The four buffers: shapes, distinctness, cells 0/1, mask within the live cells. */
    ghost predicate ValidBuffers()
      reads this`grid, this`next, this`sourceMask, this`nextSourceMask, grid, next, sourceMask, nextSourceMask
    {
      && width >= 1 && height >= 1 && spawnEvery >= 1
      && hasInitialPatternInCycle == (|initialRows| > 0)
      && cycleLength == CycleLength(initialRows, injectionPatterns)
      && grid.Length0 == next.Length0 == sourceMask.Length0 == nextSourceMask.Length0 == height
      && grid.Length1 == next.Length1 == sourceMask.Length1 == nextSourceMask.Length1 == width
      && grid != next && grid != sourceMask && grid != nextSourceMask
      && next != sourceMask && next != nextSourceMask && sourceMask != nextSourceMask
      && (forall y, x :: 0 <= y < height && 0 <= x < width ==>
            && (grid[y, x] == 0 || grid[y, x] == 1)
            && (sourceMask[y, x] == 0 || sourceMask[y, x] == 1)
            && (sourceMask[y, x] == 1 ==> grid[y, x] == 1))
    }

    /** The injection state machine is where the schedule says it is after `generation` generations. */
    ghost predicate ValidSchedule()
      reads this`generation, this`injectionCursor, this`injectionRepeatCounter
    {
      && spawnEvery >= 1
      && (cycleLength > 0 ==>
            (injectionRepeatCounter, injectionCursor) == InjectionStateAfter(generation / spawnEvery, cycleLength))
      && (cycleLength == 0 ==> injectionRepeatCounter == 0 && injectionCursor == 0)
    }

    ghost predicate Valid()
      reads this`grid, this`next, this`sourceMask, this`nextSourceMask, grid, next, sourceMask, nextSourceMask
      reads this`generation, this`injectionCursor, this`injectionRepeatCounter
    {
      ValidBuffers() && ValidSchedule()
    }

    /** The current board and mask are `base` / `baseMask` with stamp `st` applied to both. */
    ghost predicate StampedOver(st: Option<Stamp>, base: Grid, baseMask: Grid)
      reads this`grid, this`sourceMask, grid, sourceMask
      requires IsGrid(base, height, width) && IsGrid(baseMask, height, width)
      requires grid.Length0 == sourceMask.Length0 == height && grid.Length1 == sourceMask.Length1 == width
    {
      forall y, x :: 0 <= y < height && 0 <= x < width ==>
        && grid[y, x] == (if OptHits(st, y, x) then 1 else base[y][x])
        && sourceMask[y, x] == (if OptHits(st, y, x) then 1 else baseMask[y][x])
    }

    /** The state `init` sets up from the pattern configuration. */
    constructor (cfg: PatternConfig)
      ensures Valid()
      ensures fresh(grid) && fresh(next) && fresh(sourceMask) && fresh(nextSourceMask)
      ensures width == BoardWidth(cfg) && height == BoardHeight(cfg)
      ensures spawnEvery == SpawnEveryGenerations(cfg)
      ensures initialRows == if cfg.initialPatternRows.Some? then cfg.initialPatternRows.value else []
      ensures injectionPatterns == if cfg.injectionPatterns.Some? then cfg.injectionPatterns.value else []
      ensures cycleLength == |injectionPatterns| + (if |initialRows| > 0 then 1 else 0)
      ensures generation == 0 && injectionCursor == 0 && injectionRepeatCounter == 0
      ensures StampedOver(Some(Stamp(initialRows, 0, 0)), EmptyGrid(height, width), EmptyGrid(height, width))
      ensures forall y, x :: 0 <= y < height && 0 <= x < width ==> next[y, x] == 0 && nextSourceMask[y, x] == 0
    {
      var inferred := InferBoardWidth(cfg.initialPatternRows);
      var raw := if cfg.boardWidth.Some? then cfg.boardWidth.value.Floor else 0;
      var w: nat := if raw >= 2 then raw else inferred;
      var h := BoardHeight(cfg);
      var rows := if cfg.initialPatternRows.Some? then cfg.initialPatternRows.value else [];
      var patterns := if cfg.injectionPatterns.Some? then cfg.injectionPatterns.value else [];
      width, height := w, h;
      spawnEvery := SpawnEveryGenerations(cfg);
      initialRows, injectionPatterns := rows, patterns;
      hasInitialPatternInCycle := |rows| > 0;
      cycleLength := |patterns| + (if |rows| > 0 then 1 else 0);
      generation, injectionCursor, injectionRepeatCounter := 0, 0, 0;
      var seed := CreateSeedGrid(rows, h, w);
      var n := CreateEmptyGrid(h, w);
      var mask := CreateSourceMaskFromState(seed);
      var nMask := CreateEmptyGrid(h, w);
      grid, next, sourceMask, nextSourceMask := seed, n, mask, nMask;
    }

    /**
     * The buffer reset of `destroy`: all four buffers are replaced by fresh
     * dead boards of the same size; the generation counter and the
     * injection state are kept.
     */
    method Destroy()
      requires Valid()
      modifies this`grid, this`next, this`sourceMask, this`nextSourceMask
      ensures Valid()
      ensures fresh(grid) && fresh(next) && fresh(sourceMask) && fresh(nextSourceMask)
      ensures forall y, x :: 0 <= y < height && 0 <= x < width ==>
        grid[y, x] == 0 && next[y, x] == 0 && sourceMask[y, x] == 0 && nextSourceMask[y, x] == 0
    {
      grid := CreateEmptyGrid(height, width);
      next := CreateEmptyGrid(height, width);
      sourceMask := CreateEmptyGrid(height, width);
      nextSourceMask := CreateEmptyGrid(height, width);
    }

    /**
     * `_stampRows`: sets to 1, in both the board and the mask, every cell
     * under a '1' of the sanitized rows placed at (startX, startY); cells off
     * the board are ignored and nothing is ever cleared.
     */
    method StampRows(rows: seq<string>, startX: int, startY: int)
      requires ValidBuffers()
      modifies grid, sourceMask
      ensures ValidBuffers()
      ensures StampedOver(Some(Stamp(rows, startX, startY)), old(Cells(grid)), old(Cells(sourceMask)))
    {
      var st := Stamp(rows, startX, startY);
      for dy := 0 to |rows|
        invariant forall y, x :: 0 <= y < height && 0 <= x < width ==>
          && grid[y, x] == (if HitsBefore(st, y, x, dy, 0) then 1 else old(grid[y, x]))
          && sourceMask[y, x] == (if HitsBefore(st, y, x, dy, 0) then 1 else old(sourceMask[y, x]))
      {
        StampRow(st, dy);
      }
    }

    /** One row of `_stampRows`: the '1's of sanitized row `dy`, placed at row `st.y + dy`. */
    method StampRow(st: Stamp, dy: nat)
      requires dy < |st.rows|
      requires grid != sourceMask
      requires grid.Length0 == sourceMask.Length0 == height && grid.Length1 == sourceMask.Length1 == width
      modifies grid, sourceMask
      ensures forall y, x :: 0 <= y < height && 0 <= x < width ==>
        && grid[y, x] == (if y - st.y == dy && Hits(st, y, x) then 1 else old(grid[y, x]))
        && sourceMask[y, x] == (if y - st.y == dy && Hits(st, y, x) then 1 else old(sourceMask[y, x]))
    {
      var rowText := SanitizeRowText(st.rows[dy]);
      for dx := 0 to |rowText|
        invariant forall y, x :: 0 <= y < height && 0 <= x < width ==>
          && grid[y, x] == (if y - st.y == dy && x - st.x < dx && Hits(st, y, x) then 1 else old(grid[y, x]))
          && sourceMask[y, x] == (if y - st.y == dy && x - st.x < dx && Hits(st, y, x) then 1 else old(sourceMask[y, x]))
      {
        if rowText[dx] == '1' {
          var x := st.x + dx;
          var y := st.y + dy;
          if !(x < 0 || x >= width || y < 0 || y >= height) {
            grid[y, x] := 1;
            sourceMask[y, x] := 1;
          }
        }
      }
    }

    /**
     * `_injectNextPattern`: stamps the slot under the cursor, then counts the
     * repeat; after the second stamp of a slot the cursor moves to the next
     * slot, cyclically.
     */
    method InjectNextPattern()
      requires ValidBuffers()
      requires cycleLength > 0 ==> injectionCursor < cycleLength && injectionRepeatCounter < InjectionRepeatCount
      modifies this`injectionCursor, this`injectionRepeatCounter, grid, sourceMask
      ensures ValidBuffers()
      ensures cycleLength == 0 ==> unchanged(this) && unchanged(grid) && unchanged(sourceMask)
      ensures cycleLength > 0 ==>
        && (injectionRepeatCounter, injectionCursor) == AdvanceInjection(old(injectionRepeatCounter), old(injectionCursor), cycleLength)
        && StampedOver(SlotStamp(initialRows, injectionPatterns, old(injectionCursor)), old(Cells(grid)), old(Cells(sourceMask)))
    {
      if cycleLength <= 0 {
        return;
      }
      ghost var slot := SlotStamp(initialRows, injectionPatterns, injectionCursor);
      var cursor := injectionCursor % cycleLength;
      var initialSlotIndex := |injectionPatterns|;
      if hasInitialPatternInCycle && cursor == initialSlotIndex {
        StampRows(initialRows, 0, 0);
      } else {
        var pattern := injectionPatterns[cursor];
        if pattern.Some? {
          var p := pattern.value;
          var x := if p.x.Some? then p.x.value.Floor else 0;
          var y := if p.y.Some? then p.y.value.Floor else 0;
          var rows := if p.rows.Some? then p.rows.value else [];
          assert slot == Some(Stamp(rows, x, y));
          StampRows(rows, x, y);
        } else {
          assert slot == None;
        }
      }
      injectionRepeatCounter := injectionRepeatCounter + 1;
      if injectionRepeatCounter >= InjectionRepeatCount {
        injectionRepeatCounter := 0;
        injectionCursor := (injectionCursor + 1) % cycleLength;
      }
    }

    /**
     * `_step`: computes the next generation into the spare buffers, swaps
     * the buffers, counts the generation, and injects the next pattern when
     * the cycle is non-empty and the generation is a multiple of
     * `spawnEvery`.
     */
    method Step()
      requires Valid()
      modifies this`grid, this`next, this`sourceMask, this`nextSourceMask, grid, next, sourceMask, nextSourceMask
      modifies this`generation, this`injectionCursor, this`injectionRepeatCounter
      ensures Valid()
      ensures grid == old(next) && next == old(grid)
      ensures sourceMask == old(nextSourceMask) && nextSourceMask == old(sourceMask)
      ensures generation == old(generation) + 1
      ensures var injected := cycleLength > 0 && generation % spawnEvery == 0;
        && StampedOver(
             if injected then SlotStamp(initialRows, injectionPatterns, old(injectionCursor)) else None,
             NextGeneration(old(Cells(grid)), width),
             NextMaskGrid(old(Cells(grid)), old(Cells(sourceMask)), width))
        && (injected ==>
              (injectionRepeatCounter, injectionCursor) ==
                AdvanceInjection(old(injectionRepeatCounter), old(injectionCursor), cycleLength))
        && (!injected ==> injectionRepeatCounter == old(injectionRepeatCounter) && injectionCursor == old(injectionCursor))
    {
      Advance();
      CountGeneration();
    }

    /** The cell loop of `_step` and the buffer swap. */
    method Advance()
      requires ValidBuffers()
      modifies this`grid, this`next, this`sourceMask, this`nextSourceMask, next, nextSourceMask
      ensures ValidBuffers()
      ensures grid == old(next) && next == old(grid)
      ensures sourceMask == old(nextSourceMask) && nextSourceMask == old(sourceMask)
      ensures Cells(grid) == NextGeneration(old(Cells(grid)), width)
      ensures Cells(sourceMask) == NextMaskGrid(old(Cells(grid)), old(Cells(sourceMask)), width)
    {
      var src := grid;
      var dst := next;
      var srcSourceMask := sourceMask;
      var dstSourceMask := nextSourceMask;
      ghost var g := Cells(src);
      ghost var m := Cells(srcSourceMask);

      WriteNextGeneration(src, srcSourceMask, dst, dstSourceMask);
      ghost var ng := NextGeneration(g, width);
      ghost var nm := NextMaskGrid(g, m, width);
      StepKeepsInvariants(g, m, width);
      CellsAre(dst, ng);
      CellsAre(dstSourceMask, nm);

      grid := dst;
      next := src;
      sourceMask := dstSourceMask;
      nextSourceMask := srcSourceMask;
      assert IsBinary(ng) && MaskWithin(ng, nm) && IsBinary(nm);
    }

    /**
     * The end of `_step`: counts the generation and injects the next
     * pattern when the cycle is non-empty and the new generation is a
     * multiple of `spawnEvery`.
     */
    method CountGeneration()
      requires Valid()
      modifies this`generation, this`injectionCursor, this`injectionRepeatCounter, grid, sourceMask
      ensures Valid()
      ensures generation == old(generation) + 1
      ensures var injected := cycleLength > 0 && generation % spawnEvery == 0;
        && StampedOver(
             if injected then SlotStamp(initialRows, injectionPatterns, old(injectionCursor)) else None,
             old(Cells(grid)), old(Cells(sourceMask)))
        && (injected ==>
              (injectionRepeatCounter, injectionCursor) ==
                AdvanceInjection(old(injectionRepeatCounter), old(injectionCursor), cycleLength))
        && (!injected ==> injectionRepeatCounter == old(injectionRepeatCounter) && injectionCursor == old(injectionCursor))
    {
      DivStep(generation, spawnEvery);
      generation := generation + 1;
      if cycleLength > 0 {
        InjectionSchedule(generation / spawnEvery, cycleLength);
        InjectionSchedule((generation - 1) / spawnEvery, cycleLength);
      }
      if cycleLength > 0 && generation % spawnEvery == 0 {
        InjectNextPattern();
      }
    }
  }
}
