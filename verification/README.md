# Three p5 animation plugins, modelled in Dafny

This project models the deterministic state-update cores of three p5
visualizer plugins of the Tetosonic asset repository and proves properties of
those models. Canvas drawing, trigonometry, randomness and the browser are
left outside.

- **Life Game** (`P5LifeGame`). Row text made of emoji squares and digits is
  turned into `'0'`/`'1'` cells, and the board width is inferred from it.
  Conway's Game of Life (B3/S23) runs on a bounded, non-wrapping board held in
  two buffers that swap every generation. A parallel *source mask* marks
  injected cells that are still alive. A cursor / repeat-counter state machine
  stamps an injection pattern every `spawnEvery` generations.
  - Modules: `LifeRows` (row text and board configuration), `LifeRules` (the
    rule, stamps and the injection schedule on values) and `LifeGame` (the
    buffers as `array2<int>` and the class `Board`).
- **Fourier Transform** (`P5FourierTransform`). This covers the bookkeeping
  around the epicycle drawing:
  - phase advance with wrap;
  - the bounded trace FIFO, and the morph of trace samples toward their
    targets;
  - sorting coefficients by amplitude and keeping 120;
  - the signed-frequency mapping and bounding-box normalisation;
  - the amplitude-weighted roulette that picks the reversed epicycle;
  - the stroke fade ramp;
  - the preparation / ready / error / destroy / resize lifecycle.

  `cos`, `sin`, `hypot`, `atan2` and `PI` are uninterpreted parameters (the
  `Trig` datatype). Modules: `FourierMath`, `FourierDft`, and
  `FourierVisualizer` with the class `Visualizer`.
- **DVD Screensaver** (`P5DVDScreensaver`). Sprites move and reflect off the
  canvas edges. They step their hue on a bounce, correct the sign of the
  jittered velocity, and keep a bounded history of positions that the trails
  follow. They are clamped or recreated on resize. Modules: `DvdPhysics`
  (one sprite on values) and `DvdScreensaver` (the classes `Sprite` and
  `Screensaver`).

`Common` holds `Option`/`Result`, `Point`, real `Abs`/`Max`/`Min`, and the
bounded FIFO `KeepLast` shared by the Fourier trace and the DVD history.

Code that mutates in place is modelled as imperative Dafny. The Life buffers
are arrays written by nested loops. The plugin objects are classes whose
methods update fields. Each method is specified by a pure function of the old
state, and the properties are proved about that function.

Two facts that the code makes precise:
- After a left or top bounce, the sign correction of `_applyBounceJitter`
  (`src/visualizers/p5/P5DVDScreensaver/index.js` lines 205-212) gives a
  non-negative velocity only when the sprite is narrower than the canvas by
  more than 0.0001. Otherwise its second test also fires and wins, so the
  velocity is made non-positive. `DvdPhysics.SignFixAfterReflect` states all
  three cases.
- The uniform fallback of `_pickReverseEpicycleIndex` (lines 502-505) is
  unreachable. Every candidate has an amplitude above 1e-9, so the total
  weight of a non-empty candidate list is positive
  (`FourierDft.CollectCandidates`).

## Model

Source paths are abbreviated in the table:
- `LIFE` is `src/visualizers/p5/P5LifeGame/index.js`;
- `FT` is `src/visualizers/p5/P5FourierTransform/index.js`;
- `DVD` is `src/visualizers/p5/P5DVDScreensaver/index.js`.

The source cells below use the full paths.

| member | source | states |
|---|---|---|
| LifeRows.KeepBits | src/visualizers/p5/P5LifeGame/index.js:12 | dropping every character other than '0'/'1' never lengthens the text |
| LifeRows.KeepBitsFilters | src/visualizers/p5/P5LifeGame/index.js:12 | `.replace(/[^01]/g, '')` keeps exactly the '0'/'1' characters in their order: a single character maps to itself if it is '0' or '1' and to nothing otherwise, the filter distributes over concatenation, and its output holds only '0'/'1' |
| LifeRows.SanitizeIsCanonical | src/visualizers/p5/P5LifeGame/index.js:3-13 | sanitizing is a per-character reading: '0' and ⬛ (with or without U+FE0E) give '0', '1' and ⬜ give '1', everything else is dropped |
| LifeRows.SanitizeIsBits | src/visualizers/p5/P5LifeGame/index.js:11-13 | sanitized text holds only '0' and '1' |
| LifeRows.SanitizeIdempotent | src/visualizers/p5/P5LifeGame/index.js:11-13 | sanitizing twice equals sanitizing once |
| LifeRows.SanitizeSquares | src/visualizers/p5/P5LifeGame/index.js:3-9 | ⬜ and ⬜︎ read as "1", ⬛ and ⬛︎ read as "0" |
| LifeRows.SanitizeAppend | src/visualizers/p5/P5LifeGame/index.js:11-13 | sanitizing distributes over concatenation |
| LifeRows.ReplaceRemoves | src/visualizers/p5/P5LifeGame/index.js:6-8 | a global replacement of a single character by text without it leaves none behind |
| LifeRows.MaxRowLengthIsMax | src/visualizers/p5/P5LifeGame/index.js:17-21 | the running maximum bounds every sanitized row length and is attained by one of them |
| LifeRows.InferredWidthProperties | src/visualizers/p5/P5LifeGame/index.js:15-23 | the inferred width is ≥ 1; it is 100 for no rows or when all rows sanitize to nothing; otherwise it is the longest sanitized row |
| LifeRows.InferBoardWidth | src/visualizers/p5/P5LifeGame/index.js:15-23 | the early return and the running-max loop compute the inferred width |
| LifeRows.BoardWidth | src/visualizers/p5/P5LifeGame/index.js:25-29 | BOARD_WIDTH is ≥ 1; it is the floored configured width whenever that is ≥ 2, and the inferred width otherwise (no configured width, or one that floors below 2) |
| LifeRows.BoardHeight | src/visualizers/p5/P5LifeGame/index.js:30-32 | BOARD_HEIGHT is ≥ 1 |
| LifeRows.StepIntervalFrames | src/visualizers/p5/P5LifeGame/index.js:33-35 | STEP_INTERVAL_FRAMES is ≥ 1 |
| LifeRows.SpawnEveryGenerations | src/visualizers/p5/P5LifeGame/index.js:36-38 | SPAWN_EVERY_GENERATIONS is ≥ 1, so the modulo in `_step` is defined |
| LifeRules.WindowIsNeighbors | src/visualizers/p5/P5LifeGame/index.js:191-199 | the dy/dx double loop that skips (0,0) adds up exactly the eight surrounding cells, off-board ones counting 0 |
| LifeRules.NeighborsRange | src/visualizers/p5/P5LifeGame/index.js:189-199 | on a 0/1 board the neighbour count lies in [0, 8] |
| LifeRules.NextCellRule | src/visualizers/p5/P5LifeGame/index.js:201-219 | the next cell is 0 or 1; it is 1 iff a live cell has 2 or 3 neighbours or a dead cell has exactly 3; the next mask bit is 1 iff the cell was live, survives and had its mask bit set |
| LifeRules.StepKeepsInvariants | src/visualizers/p5/P5LifeGame/index.js:201-219 | a generation keeps the board 0/1 and keeps mask ⊆ alive (and a 0/1 mask stays 0/1) |
| LifeRules.Locality | src/visualizers/p5/P5LifeGame/index.js:187-209 | a cell's next state depends only on its 3x3 window of the previous generation |
| LifeRules.NoWraparound | src/visualizers/p5/P5LifeGame/index.js:194-197 | on a board ≥ 3 wide, the last column never influences the first column's next state |
| LifeRules.SlotStamp | src/visualizers/p5/P5LifeGame/index.js:239-251 | the slot with index `injectionPatterns.length` stamps the initial rows at (0, 0) |
| LifeRules.AdvanceInjection | src/visualizers/p5/P5LifeGame/index.js:254-258 | the counter stays below 2; below 2 it counts up with the cursor kept; on reaching 2 it resets and the cursor advances by one mod the cycle length, staying in range |
| LifeRules.InjectionSchedule | src/visualizers/p5/P5LifeGame/index.js:237-259 | after k injections the counter is k mod 2 and the cursor is (k div 2) mod cycleLength: every slot is stamped twice in a row, in order, cyclically |
| LifeRules.DivStep | src/visualizers/p5/P5LifeGame/index.js:228-232 | counting a generation moves the number of injections so far (generation div spawnEvery) by one exactly when the new generation is a multiple of spawnEvery |
| LifeGame.CreateEmptyGrid | src/visualizers/p5/P5LifeGame/index.js:41-43 | a fresh h x w buffer of zeros |
| LifeGame.CreateSeedGrid | src/visualizers/p5/P5LifeGame/index.js:45-55 | cell (y, x) is 1 iff sanitized row y has '1' at x; missing rows and positions past a row's end are 0 |
| LifeGame.CreateSourceMaskFromState | src/visualizers/p5/P5LifeGame/index.js:57-65 | the mask is 1 exactly on the live cells of the seed |
| LifeGame.CountNeighbors | src/visualizers/p5/P5LifeGame/index.js:189-199 | the loop's count is the in-board neighbour sum of the buffer |
| LifeGame.NextCellAt | src/visualizers/p5/P5LifeGame/index.js:201-219 | the cell and mask bit written are the rule's next cell and next mask bit |
| LifeGame.WriteNextGeneration | src/visualizers/p5/P5LifeGame/index.js:187-221 | every cell of the spare buffers holds the next generation and next mask of the old buffers, which are only read |
| LifeGame.Board.constructor | src/visualizers/p5/P5LifeGame/index.js:77-93 | board size, spawn period, pattern lists, cycle length = patterns + (1 if there are initial rows); counters 0; grid and mask are the initial rows stamped on an empty board; spare buffers are zero; all invariants hold |
| LifeGame.Board.Destroy | src/visualizers/p5/P5LifeGame/index.js:141-144 | all four buffers are replaced by fresh all-zero buffers and the invariants still hold |
| LifeGame.Board.StampRows | src/visualizers/p5/P5LifeGame/index.js:261-273 | afterwards each board cell is 1 in grid and mask where the placed rows have a '1', and is otherwise unchanged: nothing is cleared, off-board positions are ignored, and the invariants are kept |
| LifeGame.Board.StampRow | src/visualizers/p5/P5LifeGame/index.js:263-271 | one row of the stamp sets its '1' cells in both buffers and changes nothing else |
| LifeGame.Board.InjectNextPattern | src/visualizers/p5/P5LifeGame/index.js:237-259 | with an empty cycle nothing changes; otherwise the slot under the cursor is stamped over the old grid and mask, and the counter and cursor advance by AdvanceInjection |
| LifeGame.Board.Step | src/visualizers/p5/P5LifeGame/index.js:181-235 | buffers swap; the generation count rises by 1; the board and mask are the next generation of the old ones, with the cursor's slot stamped on top exactly when the cycle is non-empty and the generation is a multiple of spawnEvery; the counters advance only then; all invariants, including the schedule position, are kept |
| LifeGame.Board.Advance | src/visualizers/p5/P5LifeGame/index.js:182-226 | after the cell loop and the swap, the board is NextGeneration of the old board and the mask is NextMaskGrid |
| LifeGame.Board.CountGeneration | src/visualizers/p5/P5LifeGame/index.js:228-234 | the generation count rises by 1 and the next pattern is injected exactly when the cycle is non-empty and the new count is a multiple of spawnEvery |
| Common.KeepLastProperties | src/visualizers/p5/P5FourierTransform/index.js:326-328 | evicting from the front keeps the last min(len, max) elements, in order |
| Common.PushThenEvict | src/visualizers/p5/P5FourierTransform/index.js:319-328 | after appending a batch and evicting, the length is ≤ max, the batch is at the end, and what precedes it is a suffix of the old buffer |
| FourierMath.Trunc | src/visualizers/p5/P5FourierTransform/index.js:410 | truncation toward zero, as JavaScript's `%` uses |
| FourierMath.JsRem1 | src/visualizers/p5/P5FourierTransform/index.js:410 | `v % 1` lies in (-1, 1) and takes the sign of v |
| FourierMath.Wrap01 | src/visualizers/p5/P5FourierTransform/index.js:409-411 | `_wrap01` lands in [0, 1) |
| FourierMath.Wrap01IsFraction | src/visualizers/p5/P5FourierTransform/index.js:409-411 | `_wrap01(v)` is v minus its floor |
| FourierMath.Wrap01Identity | src/visualizers/p5/P5FourierTransform/index.js:409-411 | `_wrap01` leaves a value in [0, 1) unchanged |
| FourierMath.PhaseAdvanceStaysInUnit | src/visualizers/p5/P5FourierTransform/index.js:355-359 | with phase in [0, 1) and step in (0, 1], the new phase is in [0, 1), equals `_wrap01(phase + step)`, and the wrap happens iff phase + step ≥ 1 |
| FourierMath.SignedFreq | src/visualizers/p5/P5FourierTransform/index.js:257 | the signed frequency lies in (-n/2, n/2] and k is recovered from it |
| FourierMath.SignedFreqInjective | src/visualizers/p5/P5FourierTransform/index.js:257 | distinct bins get distinct frequencies |
| FourierMath.ZeroFreqOnlyAtZero | src/visualizers/p5/P5FourierTransform/index.js:257 | frequency 0 comes only from bin 0 |
| FourierMath.InsertPermutes | src/visualizers/p5/P5FourierTransform/index.js:120-121 | inserting by amplitude adds exactly the new element |
| FourierMath.InsertKeepsOrder | src/visualizers/p5/P5FourierTransform/index.js:120-121 | inserting by amplitude keeps the amplitudes non-increasing |
| FourierMath.SortPermutes | src/visualizers/p5/P5FourierTransform/index.js:120-121 | the amplitude sort is a permutation |
| FourierMath.SortByAmpSorted | src/visualizers/p5/P5FourierTransform/index.js:120-121 | the amplitude sort yields non-increasing amplitudes |
| FourierMath.SortStable | src/visualizers/p5/P5FourierTransform/index.js:120-121 | the sort is stable, as `Array.prototype.sort` is: for every amplitude, the coefficients of that amplitude appear in the output in their input order |
| FourierMath.SelectTop | src/visualizers/p5/P5FourierTransform/index.js:122-123 | the kept set has length min(120, n) |
| FourierMath.SelectTopProperties | src/visualizers/p5/P5FourierTransform/index.js:120-123 | the kept set is ordered by non-increasing amplitude; together with the dropped rest it is a permutation of the input; nothing dropped outweighs anything kept |
| FourierMath.FadeWindow | src/visualizers/p5/P5FourierTransform/index.js:416 | the fade window is ≥ 2 and ≤ max(2, 0.8·len) |
| FourierMath.AlphaScaleRange | src/visualizers/p5/P5FourierTransform/index.js:420-425 | every drawn segment's alpha scale lies in (0, 1] |
| FourierMath.AlphaScaleMonotone | src/visualizers/p5/P5FourierTransform/index.js:420-425 | newer segments are never more transparent than older ones |
| FourierMath.NewestSegmentOpaque | src/visualizers/p5/P5FourierTransform/index.js:416-425 | with at least 3 samples the newest segment is fully opaque |
| FourierMath.Morph | src/visualizers/p5/P5FourierTransform/index.js:521-524 | the target is untouched and each coordinate's distance to its target shrinks by exactly the factor 0.995 |
| FourierMath.MorphAll | src/visualizers/p5/P5FourierTransform/index.js:516-526 | every sample is morphed, in place and in order |
| FourierMath.MorphTimesContracts | src/visualizers/p5/P5FourierTransform/index.js:283-287 | after k morph frames the distance to the target is 0.995^k of the original and the targets are unchanged |
| FourierDft.MinMaxBounds | src/visualizers/p5/P5FourierTransform/index.js:218-223 | the running min/max bound every coordinate and are attained |
| FourierDft.MinMaxStep | src/visualizers/p5/P5FourierTransform/index.js:219-222 | one loop step updates min and max as the two comparisons do |
| FourierDft.NormSize | src/visualizers/p5/P5FourierTransform/index.js:227 | the normalisation size is the largest of 1e-6 and the two extents |
| FourierDft.ScalePointBound | src/visualizers/p5/P5FourierTransform/index.js:229-233 | a point inside the box maps into [-0.5, 0.5]² |
| FourierDft.ScalePointInverse | src/visualizers/p5/P5FourierTransform/index.js:229-233 | the mapping is undone by scaling back and re-centring |
| FourierDft.ExtentsBound | src/visualizers/p5/P5FourierTransform/index.js:234-235 | the returned width and height lie in [0, 1], and the larger is 1 unless both extents are below 1e-6 |
| FourierDft.NormalizeBounds | src/visualizers/p5/P5FourierTransform/index.js:212-237 | on non-empty input: same length and order, each output point is its input scaled about the box centre, all coordinates within ±0.5, width and height in [0, 1] |
| FourierDft.BoundingBox | src/visualizers/p5/P5FourierTransform/index.js:213-223 | the min/max loop computes the bounding box of the points |
| FourierDft.NormalizePoints | src/visualizers/p5/P5FourierTransform/index.js:212-237 | `_normalizePoints` computes Normalize |
| FourierDft.DftCoeff | src/visualizers/p5/P5FourierTransform/index.js:243-264 | bin k's coefficient carries the signed frequency of k |
| FourierDft.DftPrefixAt | src/visualizers/p5/P5FourierTransform/index.js:243-265 | the coefficient list holds bin j at position j |
| FourierDft.ComputeDft | src/visualizers/p5/P5FourierTransform/index.js:239-268 | the outer loop computes the DFT value, one coefficient per bin in order |
| FourierDft.ComputeBin | src/visualizers/p5/P5FourierTransform/index.js:244-264 | the inner loop's sums, divided by n, give bin k's coefficient |
| FourierDft.DftFrequencies | src/visualizers/p5/P5FourierTransform/index.js:257 | the coefficients' frequencies are pairwise distinct, lie in (-n/2, n/2], and are 0 only for bin 0 |
| FourierDft.GetEndpointForCoeffs | src/visualizers/p5/P5FourierTransform/index.js:434-449 | the loop computes the tip of the epicycle chain |
| FourierDft.DcTermsIgnored | src/visualizers/p5/P5FourierTransform/index.js:440 | two coefficient lists that differ only in their frequency-0 terms give the same endpoint |
| FourierDft.ReversingDcIsNoReversal | src/visualizers/p5/P5FourierTransform/index.js:440-443 | reversing a frequency-0 term is the same as reversing nothing |
| FourierDft.AllDcStaysAtOrigin | src/visualizers/p5/P5FourierTransform/index.js:438-448 | if every term has frequency 0, the endpoint is the origin |
| FourierDft.Candidates | src/visualizers/p5/P5FourierTransform/index.js:491-500 | every candidate index is in range and names a coefficient with nonzero frequency and amplitude above 1e-9 |
| FourierDft.CandidatesComplete | src/visualizers/p5/P5FourierTransform/index.js:491-500 | an index is a candidate iff its coefficient qualifies, and candidates are in increasing order |
| FourierDft.RouletteFrom | src/visualizers/p5/P5FourierTransform/index.js:509-513 | the roulette walk returns a position in the candidate list |
| FourierDft.DrawWithinTotal | src/visualizers/p5/P5FourierTransform/index.js:508 | a uniform draw in [0, 1) times the total weight lies in [0, total] |
| FourierDft.PrefixWeightPositive | src/visualizers/p5/P5FourierTransform/index.js:497-502 | any non-empty prefix of candidates has positive weight, so `totalWeight > 0` whenever a candidate exists |
| FourierDft.RouletteFirstReach | src/visualizers/p5/P5FourierTransform/index.js:508-513 | the walk stops at the first candidate whose prefix weight reaches the draw |
| FourierDft.PickIsCandidate | src/visualizers/p5/P5FourierTransform/index.js:484-514 | the pick is -1 or a candidate index; it is -1 iff the list is empty, the first draw is ≥ 0.5, or no coefficient qualifies |
| FourierDft.PickIsWeighted | src/visualizers/p5/P5FourierTransform/index.js:507-513 | candidate m is picked iff the draw lies in (prefix weight before m, prefix weight through m] |
| FourierDft.CollectCandidates | src/visualizers/p5/P5FourierTransform/index.js:488-500 | the loop collects the candidates in order, with their amplitudes as weights; the total is their sum and is positive when any exists, so lines 502-505 are unreachable |
| FourierDft.PickReverseEpicycleIndex | src/visualizers/p5/P5FourierTransform/index.js:484-514 | the method, with its early returns and roulette loop, returns PickReverseIndex |
| FourierVisualizer.SamplePhase | src/visualizers/p5/P5FourierTransform/index.js:302 | each sub-step's phase lies in [0, 1) |
| FourierVisualizer.FrameSamples | src/visualizers/p5/P5FourierTransform/index.js:301-325 | a frame yields exactly TRACE_POINTS_PER_FRAME (4) samples |
| FourierVisualizer.TraceAfterFrame | src/visualizers/p5/P5FourierTransform/index.js:294-328 | the trace after a frame never exceeds 400 samples |
| FourierVisualizer.CoefficientsOfSample | src/visualizers/p5/P5FourierTransform/index.js:114-131 | a successful sample yields a coefficient set of length min(120, n) > 0 in non-increasing amplitude, so 'No coefficient generated.' cannot follow it |
| FourierVisualizer.PrepareShape | src/visualizers/p5/P5FourierTransform/index.js:116-125 | normalise, DFT, sort and slice give the coefficient set (non-empty, ≤ 120, sorted); the extents are floored at 1e-6 and are ≤ 1 |
| FourierVisualizer.Visualizer.constructor | src/visualizers/p5/P5FourierTransform/index.js:26-42 | the initial field values, satisfying the invariant |
| FourierVisualizer.Visualizer.Resize | src/visualizers/p5/P5FourierTransform/index.js:77-84 | with a sketch, the trace, phase, reverse index and frame counter reset while both coefficient sets and the readiness are kept; without a sketch nothing changes |
| FourierVisualizer.Visualizer.Destroy | src/visualizers/p5/P5FourierTransform/index.js:86-106 | marks destroyed, drops the sketch, clears every piece of drawing state, not ready |
| FourierVisualizer.Visualizer.StartPreparation | src/visualizers/p5/P5FourierTransform/index.js:108-111 | starts iff neither loading nor ready; a start sets loading and clears the error |
| FourierVisualizer.Visualizer.CompletePreparation | src/visualizers/p5/P5FourierTransform/index.js:108-147 | loading ends, and on every path the message is 'Load failed: ' + the first sampler error's message, or the old message when both samples succeed, and the phase is 0 after a success, else the old phase; if destroyed meanwhile, the drawing state is cleared and the plugin is not ready; otherwise a sampler error leaves coefficient sets, extents, trace, reverse index and frame counter as they were and the plugin not ready, or both sets are installed and the plugin is ready |
| FourierVisualizer.Visualizer.Settle | src/visualizers/p5/P5FourierTransform/index.js:113-134 | the try/catch outcome: on the first sampler error only the message ('Load failed: ' + message) and readiness change, all drawing state and the phase are kept; with both samples the sets are installed, the plugin is ready and the message is kept |
| FourierVisualizer.Visualizer.Fail | src/visualizers/p5/P5FourierTransform/index.js:132-134 | records the prefixed message and is not ready |
| FourierVisualizer.Visualizer.Install | src/visualizers/p5/P5FourierTransform/index.js:114-131 | installs both sets and the extents, restarts trace, phase and frame counter, picks the reversed epicycle, and becomes ready |
| FourierVisualizer.Visualizer.ClearAfterDestroy | src/visualizers/p5/P5FourierTransform/index.js:135-146 | the `finally`: after a destroy the coefficient sets, trace, reverse index, extents and frame counter are reset and the plugin is not ready, leaving the message and phase alone; without a destroy nothing changes |
| FourierVisualizer.Visualizer.DeformTracePoints | src/visualizers/p5/P5FourierTransform/index.js:516-526 | the trace becomes MorphAll of the old trace |
| FourierVisualizer.Visualizer.DrawFrame | src/visualizers/p5/P5FourierTransform/index.js:283-360 | frame counter +1; trace updated as TraceAfterFrame (morph only after 20 frames, 4 samples pushed, evicted to 400); the phase advances with wrap, and the reverse index is re-picked exactly when it wraps; the invariant is kept |
| FourierVisualizer.Visualizer.AdvanceTrace | src/visualizers/p5/P5FourierTransform/index.js:284-329 | the trace part of a frame |
| FourierVisualizer.Visualizer.EvictOldest | src/visualizers/p5/P5FourierTransform/index.js:326-328 | evicts from the front down to 400 |
| FourierVisualizer.Visualizer.PushFrameSamples | src/visualizers/p5/P5FourierTransform/index.js:297-325 | appends the frame's four samples at the end, in sub-step order |
| FourierVisualizer.Visualizer.AdvanceLoop | src/visualizers/p5/P5FourierTransform/index.js:355-359 | the phase stays in [0, 1); the reverse index is re-picked iff the phase wraps, and is then none or a reversible term |
| FourierVisualizer.Visualizer.Draw | src/visualizers/p5/P5FourierTransform/index.js:54-61 | nothing changes until ready; a ready frame is `_drawFrame`: the frame counter rises by 1, the trace becomes TraceAfterFrame of the old trace, phase and reverse index, the phase advances with wrap, and the reverse index is re-picked exactly when the phase wraps |
| DvdPhysics.ReflectProperties | src/visualizers/p5/P5DVDScreensaver/index.js:162-180 | per axis: no bounce iff strictly inside (position and velocity unchanged); a low bounce puts the sprite at 0 with v ≥ 0; a high bounce puts it flush with the far wall with v ≤ 0; the speed is kept |
| DvdPhysics.ReflectStaysInside | src/visualizers/p5/P5DVDScreensaver/index.js:162-180 | if the sprite fits, the position ends in [0, extent − size] |
| DvdPhysics.SignFixAfterReflect | src/visualizers/p5/P5DVDScreensaver/index.js:205-212 | after a high bounce the corrected velocity is ≤ 0; after a low bounce it is ≥ 0 when size < extent − 0.0001 and ≤ 0 otherwise |
| DvdPhysics.NextHueOnGrid | src/visualizers/p5/P5DVDScreensaver/index.js:183 | a hue on the 60° grid steps to the next grid hue, wrapping at 360 |
| DvdPhysics.HueCycle | src/visualizers/p5/P5DVDScreensaver/index.js:182-185 | after b bounces the hue is (h + 60b) mod 360, on the grid, in [0, 360) |
| DvdPhysics.HueReturns | src/visualizers/p5/P5DVDScreensaver/index.js:183 | the hue returns to its start iff the number of bounces is a multiple of 6 |
| DvdPhysics.PushHistoryProperties | src/visualizers/p5/P5DVDScreensaver/index.js:218-224 | the history length becomes min(len + 1, 11), the last entry is the new point, and the older entries are a suffix of the old history, in order |
| DvdPhysics.PushHistoryLast | src/visualizers/p5/P5DVDScreensaver/index.js:218-224 | the history is non-empty, at most 11 long, and ends in the pushed point |
| DvdPhysics.StepStaysInside | src/visualizers/p5/P5DVDScreensaver/index.js:156-180 | when the sprite fits the canvas, the stepped position is in [0, width − drawWidth] × [0, height − drawHeight] |
| DvdPhysics.StepBounce | src/visualizers/p5/P5DVDScreensaver/index.js:156-188 | with no bounce the sprite just moves and keeps velocity and hue; on a bounce the hue becomes (h + 60) % 360, the velocity is the jittered one with its sign corrected per wall, and its components have the jittered magnitudes |
| DvdPhysics.StepRecordsPosition | src/visualizers/p5/P5DVDScreensaver/index.js:187 | each step appends exactly the new position to the history, evicting the oldest beyond 11 |
| DvdPhysics.StepKeepsInvariant | src/visualizers/p5/P5DVDScreensaver/index.js:156-188 | a step keeps the hue on the grid, the history 1..11 long, and the last history entry equal to the position |
| DvdPhysics.Constrain | src/visualizers/p5/P5DVDScreensaver/index.js:112-113 | `constrain` lands in [lo, hi], keeps values inside, and sends values outside to the nearer bound |
| DvdPhysics.MaxPos | src/visualizers/p5/P5DVDScreensaver/index.js:112-113 | max(0, extent − size) is ≥ 0 and ≥ extent − size, and equals extent − size when the sprite fits |
| DvdPhysics.ClampSpriteProperties | src/visualizers/p5/P5DVDScreensaver/index.js:111-115 | the clamped position is in [0, max(0, w − dw)] × [0, max(0, h − dh)], already-inside coordinates are kept, velocity and hue are kept, and one history entry is pushed |
| DvdPhysics.ClampIdempotent | src/visualizers/p5/P5DVDScreensaver/index.js:112-113 | clamping twice puts the sprite where clamping once does |
| DvdPhysics.DrawWidthFor | src/visualizers/p5/P5DVDScreensaver/index.js:103 | the drawn width is ≥ 1, and ≤ the canvas width once that is ≥ 1.25 |
| DvdPhysics.DrawHeightFor | src/visualizers/p5/P5DVDScreensaver/index.js:102-104 | the drawn height is ≥ 1 |
| DvdPhysics.CreateSpriteProperties | src/visualizers/p5/P5DVDScreensaver/index.js:118-137 | a new sprite has x ∈ [0, maxX], y = 0.35·maxY or 0.65·maxY, hue 0, the given velocity, and a one-entry history holding its position |
| DvdPhysics.CreateXDistinct | src/visualizers/p5/P5DVDScreensaver/index.js:122 | distinct sprite indices get distinct x positions when maxX > 0 |
| DvdPhysics.TrailIndexRange | src/visualizers/p5/P5DVDScreensaver/index.js:240-241 | trail i's index is read iff i < len, and then lies in [0, len − 1) |
| DvdPhysics.TrailsShown | src/visualizers/p5/P5DVDScreensaver/index.js:239-241 | at most TRAIL_COUNT (10) trails are drawn |
| DvdPhysics.TrailsComplete | src/visualizers/p5/P5DVDScreensaver/index.js:239-250 | trail i is drawn iff its index is non-negative, and no trail is drawn twice |
| DvdScreensaver.Sprite.constructor | src/visualizers/p5/P5DVDScreensaver/index.js:118-137 | `_createSprite`: the state is CreateSprite, the trail hue comes from the profile index mod 2, and the sprite invariant holds |
| DvdScreensaver.Sprite.PushHistory | src/visualizers/p5/P5DVDScreensaver/index.js:218-224 | push then splice from the front equals PushHistory |
| DvdScreensaver.Sprite.Step | src/visualizers/p5/P5DVDScreensaver/index.js:156-188 | the new state is StepSprite of the old, and the sprite invariant is kept |
| DvdScreensaver.Sprite.MoveX | src/visualizers/p5/P5DVDScreensaver/index.js:157-170 | the move and x-reflection give Reflect's outcome; `bouncedX` says whether a wall was hit |
| DvdScreensaver.Sprite.MoveY | src/visualizers/p5/P5DVDScreensaver/index.js:172-180 | the same for y |
| DvdScreensaver.Sprite.ApplyBounceJitter | src/visualizers/p5/P5DVDScreensaver/index.js:205-215 | the final velocity is the jittered one with SignFix applied per bounced axis |
| DvdScreensaver.Sprite.ClampInto | src/visualizers/p5/P5DVDScreensaver/index.js:111-115 | the new state is ClampSprite of the old, and the invariant is kept |
| DvdScreensaver.Sprite.Trails | src/visualizers/p5/P5DVDScreensaver/index.js:239-250 | the loop from i = 10 down to 1 draws exactly the trails TrailsFollow describes: positions from the history, hue i·trailHueDeg |
| DvdScreensaver.Screensaver.constructor | src/visualizers/p5/P5DVDScreensaver/index.js:19-27 | the initial fields: no image, not ready, draw size 1x1, no sprites |
| DvdScreensaver.Screensaver.Preload | src/visualizers/p5/P5DVDScreensaver/index.js:33-43 | ready exactly when the image loaded |
| DvdScreensaver.Screensaver.Setup | src/visualizers/p5/P5DVDScreensaver/index.js:45-50 | a full reset: nothing changes if not drawable; otherwise the draw size is recomputed and SPRITE_COUNT fresh sprites are created |
| DvdScreensaver.Screensaver.ComputeDrawSize | src/visualizers/p5/P5DVDScreensaver/index.js:102-104 | draw width and height follow the canvas width and the image aspect, both ≥ 1 |
| DvdScreensaver.Screensaver.RecreateSprites | src/visualizers/p5/P5DVDScreensaver/index.js:106-108 | exactly SPRITE_COUNT fresh, distinct sprites, sprite i created by CreateSprite with index i |
| DvdScreensaver.Screensaver.ClampAll | src/visualizers/p5/P5DVDScreensaver/index.js:111-115 | every sprite's new state is ClampSprite of its old state |
| DvdScreensaver.Screensaver.ClampOne | src/visualizers/p5/P5DVDScreensaver/index.js:112-114 | clamps sprite i and leaves the other sprites unchanged |
| DvdScreensaver.Screensaver.ResetState | src/visualizers/p5/P5DVDScreensaver/index.js:99-116 | nothing changes if not drawable; otherwise the draw size is recomputed, and the sprites are recreated on a full reset or a count mismatch, or else the same sprites are each clamped and get one history entry |
| DvdScreensaver.Screensaver.Resize | src/visualizers/p5/P5DVDScreensaver/index.js:74-78 | without a sketch nothing changes; with one, the canvas takes the new size; when not drawable nothing else changes; when drawable, the redraw run by `resizeCanvas(…, false)` first steps every sprite on the new canvas with the old drawn size, then the drawn size is recomputed and the sprites are recreated on a count mismatch, or else each stepped sprite is clamped into the new canvas with one more history entry |
| DvdScreensaver.Screensaver.Destroy | src/visualizers/p5/P5DVDScreensaver/index.js:80-93 | drops the sketch, the image, readiness and sprites; nothing is drawable afterwards |
| DvdScreensaver.Screensaver.StepAll | src/visualizers/p5/P5DVDScreensaver/index.js:150-154 | every sprite's new state is StepSprite of its old state with its own jitter |
| DvdScreensaver.Screensaver.StepOne | src/visualizers/p5/P5DVDScreensaver/index.js:151-153 | steps sprite i and leaves the other sprites unchanged |
| DvdScreensaver.Screensaver.Draw | src/visualizers/p5/P5DVDScreensaver/index.js:52-58 | nothing happens unless drawable; otherwise all sprites step, then every sprite's trails are drawn from its new history |
| DvdScreensaver.Screensaver.DrawTrails | src/visualizers/p5/P5DVDScreensaver/index.js:236-252 | one trail list per sprite, each as TrailsFollow describes |

## Left out

- Canvas output: `_drawBoard`, `_drawEpicycles`, `_drawStatus`, `_drawMain`, `_fillTraceWithPerpendicularGradient` and the drawing calls of `_drawTrails` and `_drawTraceStrokeWithFade`. They only produce pixels. Of the stroke fade, only the `alphaScale` ramp is modelled; of the DVD trails, only which history entries are drawn and with what hue.
- SVG sampling, `_sampleSvgPathPoints`: it uses fetch and the DOM. It is a parameter of type `Result<seq<Point>>`. Its only assumed promise is at least two points on success, since it throws on fewer.
- Trigonometry: `Math.cos`, `sin`, `hypot`, `atan2` and `PI` are uninterpreted (`FourierDft.Trig`). Nothing is proved about their values, only about the structure around them: frequencies, the frequency-0 skip, the reversed term and the sums.
- The jitter of `_applyBounceJitter` (random angle, minimum axis speed, hypot renormalisation, lines 190-204) is left out. The jittered velocity is an arbitrary parameter, and only the final sign correction is modelled.
- `_createVelocity` (random angle and sign): the initial velocities are parameters.
- Randomness: every `Math.random` / `sk.random` draw is a real parameter in [0, 1).
- Host plumbing: the p5 instance itself, the event-bus subscription, `start`/`stop`, the disposer loops, and `resizeCanvas`. The sketch's existence is the boolean `attached`. `resizeCanvas(width, height, false)` redraws at once: p5 runs `draw` a single time unless the third argument (`noRedraw`) is true. That frame is modelled in the DVD `Resize`. The Fourier `resize` resets every modelled field that the frame changes, so the frame leaves no trace in its state. The Life Game's `resize` does nothing but that call, and the frame it runs is a host frame like any other: the board is drawn, and `Board.Step` runs if the frame gate allows it.
- The Life frame gate `frameCount % STEP_INTERVAL_FRAMES` belongs to the host loop. `STEP_INTERVAL_FRAMES` itself is modelled; the gate is not.
- Asynchrony: `_startPreparation` is split into its synchronous start and a single atomic completion step that sees `_destroyed`. Concurrent interleavings are not modelled.
- Floating point: all real arithmetic is exact. NaN, infinities and rounding are not modelled, and a configuration value that is not a finite number is `None`.
- Life row entries are strings. The `String(rowText ?? '')` conversion of non-string entries is not modelled; a missing seed row is the empty row.
- Life cells are `int` buffers holding only 0 and 1, standing for `Uint8Array` rows.
- The Fourier plugin has `TRACE_COUNT` = 1, so it is modelled with one trace field rather than a list of traces.
- `coeffs.sort` is a stable insertion sort by non-increasing amplitude on a sequence, not an in-place sort of the array. Its stability is `FourierMath.SortStable`.
- DVD image: `loadImage`'s result is modelled as `Option<ImageSize>` (None on failure). The failure callback only clears `_ready`, which already makes the plugin non-drawable.
- DVD hue: `mainHueDeg` is an integer, which it always is, starting at 0 and stepping by 60.
- DvdPhysics.StepBounce: states the velocity signs by the final position (0 or flush with the far wall) rather than by which test fired. The two coincide except when the sprite is at least as wide as the canvas.
