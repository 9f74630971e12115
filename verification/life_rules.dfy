/**
 * The Life Game rule on values: a board is a sequence of rows of 0/1 cells,
 * the next generation follows B3/S23 on a bounded board with no wraparound,
 * a parallel "source mask" marks injected cells that are still alive, and
 * patterns are stamped onto the board on a fixed injection schedule.
 */
module LifeRules {
  import opened Common
  import opened LifeRows

  type Grid = seq<seq<int>>

  /** `INJECTION_REPEAT_COUNT`: each slot is stamped this many times in a row. */
  const InjectionRepeatCount: nat := 2

  predicate IsGrid(g: Grid, h: nat, w: nat)
  {
    |g| == h && forall y :: 0 <= y < h ==> |g[y]| == w
  }

  predicate IsBinary(g: Grid)
  {
    forall y, x :: 0 <= y < |g| && 0 <= x < |g[y]| ==> g[y][x] == 0 || g[y][x] == 1
  }

  /** Every source-mask bit that is set lies on a live cell. */
  predicate MaskWithin(g: Grid, m: Grid)
  {
    && |m| == |g|
    && (forall y :: 0 <= y < |g| ==> |m[y]| == |g[y]|)
    && forall y, x :: 0 <= y < |g| && 0 <= x < |g[y]| && m[y][x] == 1 ==> g[y][x] == 1
  }

  /** Cell value, with every position off the board reading as 0 (no wraparound). */
  function At(g: Grid, y: int, x: int): int
  {
    if 0 <= y < |g| && 0 <= x < |g[y]| then g[y][x] else 0
  }

  /** Sum of the eight surrounding cells that lie on the board. */
  function Neighbors(g: Grid, y: int, x: int): int
  {
    At(g, y - 1, x - 1) + At(g, y - 1, x) + At(g, y - 1, x + 1)
    + At(g, y, x - 1) + At(g, y, x + 1)
    + At(g, y + 1, x - 1) + At(g, y + 1, x) + At(g, y + 1, x + 1)
  }

  /** Contribution of offset (dy, dx) in the source's `dy`/`dx` double loop. */
  function OffsetTerm(g: Grid, y: int, x: int, dy: int, dx: int): int
  {
    if dx == 0 && dy == 0 then 0 else At(g, y + dy, x + dx)
  }

  /** Sum over `dx` in [-1, k) for one row offset `dy`. */
  function RowTerms(g: Grid, y: int, x: int, dy: int, k: int): int
    decreases k + 1
  {
    if k <= -1 then 0 else RowTerms(g, y, x, dy, k - 1) + OffsetTerm(g, y, x, dy, k - 1)
  }

  /** Sum over `dy` in [-1, k) of whole rows of offsets. */
  function WindowTerms(g: Grid, y: int, x: int, k: int): int
    decreases k + 1
  {
    if k <= -1 then 0 else WindowTerms(g, y, x, k - 1) + RowTerms(g, y, x, k - 1, 2)
  }

  /** The source's nested offset loops add up exactly the eight neighbours. */
  lemma WindowIsNeighbors(g: Grid, y: int, x: int)
    ensures WindowTerms(g, y, x, 2) == Neighbors(g, y, x)
  {
    assert RowTerms(g, y, x, -1, 2) == At(g, y - 1, x - 1) + At(g, y - 1, x) + At(g, y - 1, x + 1);
    assert RowTerms(g, y, x, 0, 2) == At(g, y, x - 1) + At(g, y, x + 1);
    assert RowTerms(g, y, x, 1, 2) == At(g, y + 1, x - 1) + At(g, y + 1, x) + At(g, y + 1, x + 1);
  }

  /** B3/S23: a live cell survives with 2 or 3 neighbours, a dead one is born with 3. */
  function NextCell(g: Grid, y: int, x: int): int
    requires 0 <= y < |g| && 0 <= x < |g[y]|
  {
    var n := Neighbors(g, y, x);
    if g[y][x] == 1 then (if n == 2 || n == 3 then 1 else 0)
    else (if n == 3 then 1 else 0)
  }

  /** The mask bit survives only on a surviving cell; births and deaths clear it. */
  function NextMask(g: Grid, m: Grid, y: int, x: int): int
    requires 0 <= y < |g| && 0 <= x < |g[y]|
    requires |m| == |g| && |m[y]| == |g[y]|
  {
    if NextCell(g, y, x) == 1 && g[y][x] == 1 then m[y][x] else 0
  }

  /** The whole next generation of a `|g|` x `w` board. */
  function NextGeneration(g: Grid, w: nat): (r: Grid)
    requires IsGrid(g, |g|, w)
    ensures IsGrid(r, |g|, w)
    ensures forall y, x :: 0 <= y < |g| && 0 <= x < w ==> r[y][x] == NextCell(g, y, x)
  {
    seq(|g|, y requires 0 <= y < |g| => seq(w, x requires 0 <= x < w => NextCell(g, y, x)))
  }

  /** The whole next source mask. */
  function NextMaskGrid(g: Grid, m: Grid, w: nat): (r: Grid)
    requires IsGrid(g, |g|, w) && IsGrid(m, |g|, w)
    ensures IsGrid(r, |g|, w)
    ensures forall y, x :: 0 <= y < |g| && 0 <= x < w ==> r[y][x] == NextMask(g, m, y, x)
  {
    seq(|g|, y requires 0 <= y < |g| => seq(w, x requires 0 <= x < w => NextMask(g, m, y, x)))
  }

  /** A board of `h` x `w` dead cells. */
  function EmptyGrid(h: nat, w: nat): (r: Grid)
    ensures IsGrid(r, h, w)
    ensures forall y, x :: 0 <= y < h && 0 <= x < w ==> r[y][x] == 0
  {
    seq(h, y => seq(w, x => 0))
  }

  /** On a 0/1 board the neighbour count lies in [0, 8]. */
  lemma NeighborsRange(g: Grid, y: int, x: int)
    requires IsBinary(g)
    ensures 0 <= Neighbors(g, y, x) <= 8
  {
  }

  /**
   * The next generation of a cell is 0 or 1, is 1 exactly for survivors (2 or
   * 3 neighbours) and births (3 neighbours), and its mask bit is set only when
   * the cell survived with its mask bit set.
   */
  lemma NextCellRule(g: Grid, m: Grid, y: int, x: int)
    requires IsBinary(g)
    requires 0 <= y < |g| && 0 <= x < |g[y]| && |m| == |g| && |m[y]| == |g[y]|
    ensures NextCell(g, y, x) == 0 || NextCell(g, y, x) == 1
    ensures NextCell(g, y, x) == 1 <==>
      (g[y][x] == 1 && 2 <= Neighbors(g, y, x) <= 3) || (g[y][x] == 0 && Neighbors(g, y, x) == 3)
    ensures NextMask(g, m, y, x) == 1 <==> g[y][x] == 1 && NextCell(g, y, x) == 1 && m[y][x] == 1
  {
  }

  /**
   * A generation step keeps the board 0/1 and keeps every source-mask bit on
   * a live cell.
   */
  lemma StepKeepsInvariants(g: Grid, m: Grid, w: nat)
    requires IsGrid(g, |g|, w) && IsGrid(m, |g|, w)
    requires IsBinary(g) && MaskWithin(g, m)
    ensures IsBinary(NextGeneration(g, w))
    ensures MaskWithin(NextGeneration(g, w), NextMaskGrid(g, m, w))
    ensures IsBinary(m) ==> IsBinary(NextMaskGrid(g, m, w))
  {
    var r, rm := NextGeneration(g, w), NextMaskGrid(g, m, w);
    forall y, x | 0 <= y < |g| && 0 <= x < w
      ensures r[y][x] == 0 || r[y][x] == 1
      ensures rm[y][x] == 1 ==> r[y][x] == 1
      ensures IsBinary(m) ==> rm[y][x] == 0 || rm[y][x] == 1
    {
      NextCellRule(g, m, y, x);
    }
  }

  /** Boards `g` and `h` agree on the 3x3 window centred on (y, x), off-board cells reading 0. */
  predicate SameWindow(g: Grid, h: Grid, y: int, x: int)
  {
    forall r, c :: y - 1 <= r <= y + 1 && x - 1 <= c <= x + 1 ==> At(g, r, c) == At(h, r, c)
  }

  /**
   * The next state of a cell depends only on its 3x3 window of the previous
   * generation: two boards that agree there give the same cell.
   */
  lemma Locality(g: Grid, h: Grid, y: int, x: int)
    requires 0 <= y < |g| && 0 <= x < |g[y]| && 0 <= y < |h| && 0 <= x < |h[y]|
    requires SameWindow(g, h, y, x)
    ensures NextCell(g, y, x) == NextCell(h, y, x)
  {
    assert g[y][x] == At(g, y, x) == At(h, y, x) == h[y][x];
  }

  /**
   * No wraparound: on a board at least 3 cells wide, changing only the last
   * column never changes the next state of a cell in the first column.
   */
  lemma NoWraparound(g: Grid, h: Grid, y: int)
    requires |g| == |h| && 0 <= y < |g|
    requires forall r :: 0 <= r < |g| ==> |g[r]| == |h[r]| && |g[r]| >= 3
    requires forall r, c :: 0 <= r < |g| && 0 <= c < |g[r]| - 1 ==> g[r][c] == h[r][c]
    ensures NextCell(g, y, 0) == NextCell(h, y, 0)
  {
    Locality(g, h, y, 0);
  }

  /** A pattern placed with its top-left corner at (x, y). */
  datatype Stamp = Stamp(rows: seq<string>, x: int, y: int)

  /** Cell (y, x) is a '1' of the stamp's sanitized rows. */
  predicate Hits(st: Stamp, y: int, x: int)
  {
    var dy := y - st.y;
    var dx := x - st.x;
    && 0 <= dy < |st.rows|
    && 0 <= dx < |SanitizeRowText(st.rows[dy])|
    && SanitizeRowText(st.rows[dy])[dx] == '1'
  }

  /** Cell (y, x) is hit by the stamp and lies within the first `dy` rows, then `dx` columns of row `dy`. */
  predicate HitsBefore(st: Stamp, y: int, x: int, dy: int, dx: int)
  {
    Hits(st, y, x) && (y - st.y < dy || (y - st.y == dy && x - st.x < dx))
  }

  predicate OptHits(st: Option<Stamp>, y: int, x: int)
  {
    st.Some? && Hits(st.value, y, x)
  }

  /** `_injectionCycleLength`: one slot per pattern, plus one for the initial rows if any. */
  function CycleLength(initialRows: seq<string>, patterns: seq<Option<Pattern>>): nat
  {
    |patterns| + (if |initialRows| > 0 then 1 else 0)
  }

  function FloorOrZero(v: Option<real>): int
  {
    if v.Some? then v.value.Floor else 0
  }

  /**
   * What `_injectNextPattern` stamps for a cursor value: the initial rows at
   * (0, 0) for the extra slot, otherwise the pattern in that slot (a missing
   * entry stamps nothing).
   */
  function SlotStamp(initialRows: seq<string>, patterns: seq<Option<Pattern>>, cursor: nat): (r: Option<Stamp>)
    requires CycleLength(initialRows, patterns) > 0
    ensures |initialRows| > 0 && cursor % CycleLength(initialRows, patterns) == |patterns| ==>
      r == Some(Stamp(initialRows, 0, 0))
  {
    var c := cursor % CycleLength(initialRows, patterns);
    if |initialRows| > 0 && c == |patterns| then Some(Stamp(initialRows, 0, 0))
    else
      match patterns[c]
      case None => None
      case Some(p) => Some(Stamp(if p.rows.Some? then p.rows.value else [], FloorOrZero(p.x), FloorOrZero(p.y)))
  }

  /** Counter and cursor after one injection. */
  function AdvanceInjection(counter: nat, cursor: nat, cycleLength: nat): (r: (nat, nat))
    requires cycleLength > 0
    ensures cursor < cycleLength ==> r.1 < cycleLength
    ensures r.0 < InjectionRepeatCount
    ensures counter + 1 < InjectionRepeatCount ==> r == (counter + 1, cursor)
    ensures counter + 1 >= InjectionRepeatCount ==> r == (0, (cursor + 1) % cycleLength)
  {
    var c := counter + 1;
    if c >= InjectionRepeatCount then (0, (cursor + 1) % cycleLength) else (c, cursor)
  }

  /** Counter and cursor after `k` injections from the initial (0, 0). */
  function InjectionStateAfter(k: nat, cycleLength: nat): (nat, nat)
    requires cycleLength > 0
  {
    if k == 0 then (0, 0)
    else
      var s := InjectionStateAfter(k - 1, cycleLength);
      AdvanceInjection(s.0, s.1, cycleLength)
  }

  lemma ModSucc(a: nat, n: nat)
    requires n > 0
    ensures ((a % n) + 1) % n == (a + 1) % n
  {
    var q, r := a / n, a % n;
    assert a == q * n + r;
    if r + 1 < n {
      DivModUnique(a + 1, n, q, r + 1);
    } else {
      assert a + 1 == (q + 1) * n;
      DivModUnique(a + 1, n, q + 1, 0);
    }
  }

  lemma {:induction false} MulAtLeast(d: int, n: nat)
    requires d >= 1
    ensures d * n >= n
  {
    if d > 1 {
      MulAtLeast(d - 1, n);
      assert d * n == (d - 1) * n + n;
    }
  }

  lemma DivModUnique(a: nat, n: nat, q: int, r: int)
    requires n > 0 && a == q * n + r && 0 <= r < n
    ensures a / n == q && a % n == r
  {
    var q', r' := a / n, a % n;
    assert q' * n + r' == q * n + r;
    if q' > q {
      assert (q' - q) * n == q' * n - q * n;
      MulAtLeast(q' - q, n);
      assert false;
    } else if q' < q {
      assert (q - q') * n == q * n - q' * n;
      MulAtLeast(q - q', n);
      assert false;
    }
  }

  /** Counting generations: `g / n` grows by one exactly when `g + 1` is a multiple of `n`. */
  lemma DivStep(g: nat, n: nat)
    requires n > 0
    ensures (g + 1) % n == 0 ==> (g + 1) / n == g / n + 1
    ensures (g + 1) % n != 0 ==> (g + 1) / n == g / n
  {
    var q, r := g / n, g % n;
    if r + 1 < n {
      DivModUnique(g + 1, n, q, r + 1);
    } else {
      assert g + 1 == (q + 1) * n;
      DivModUnique(g + 1, n, q + 1, 0);
    }
  }

  /**
   * The injection schedule: after `k` injections the repeat counter is
   * `k % 2` and the cursor is `(k / 2) % cycleLength`, so every slot is
   * stamped twice in a row and the slots are visited in order, cyclically.
   */
  lemma {:induction false} InjectionSchedule(k: nat, cycleLength: nat)
    requires cycleLength > 0
    ensures InjectionStateAfter(k, cycleLength) == (k % InjectionRepeatCount, (k / InjectionRepeatCount) % cycleLength)
  {
    if k > 0 {
      InjectionSchedule(k - 1, cycleLength);
      if (k - 1) % 2 == 1 {
        assert k / 2 == (k - 1) / 2 + 1;
        ModSucc((k - 1) / 2, cycleLength);
      } else {
        assert k / 2 == (k - 1) / 2;
      }
    }
  }
}
