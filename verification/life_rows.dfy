/**
 * Row text of the Life Game patterns: emoji squares and digits are turned
 * into a string of '0'/'1' cells, and the board size is read from the
 * pattern configuration.
 */
module LifeRows {
  import opened Common

  const BlackSquare: char := '\U{2B1B}'
  const WhiteSquare: char := '\U{2B1C}'
  /** VARIATION SELECTOR-15, the text-presentation suffix some editors add. */
  const TextStyle: char := '\U{FE0E}'

  /** Board width used when the initial rows give none. */
  const DefaultBoardWidth: nat := 100
  const DefaultBoardHeight: nat := 26
  const DefaultStepIntervalFrames: nat := 6
  const DefaultSpawnEveryGenerations: nat := 10

  /**
   * Global replacement of a non-empty literal pattern, scanning left to
   * right without overlaps, as `String.prototype.replace` with a `/g` regex.
   */
  function ReplaceAll(s: string, pat: string, rep: string): string
    requires |pat| > 0
    decreases |s|
  {
    if |s| == 0 then s
    else if |pat| <= |s| && s[..|pat|] == pat then rep + ReplaceAll(s[|pat|..], pat, rep)
    else [s[0]] + ReplaceAll(s[1..], pat, rep)
  }

  /** `normalizeRowText`: the four replacements, in the source's order. */
  function NormalizeRowText(s: string): string
  {
    var a := ReplaceAll(s, [BlackSquare, TextStyle], "0");
    var b := ReplaceAll(a, [BlackSquare], "0");
    var c := ReplaceAll(b, [WhiteSquare, TextStyle], "1");
    ReplaceAll(c, [WhiteSquare], "1")
  }

  /** Drops every character other than '0' and '1'. */
  function KeepBits(s: string): (r: string)
    ensures |r| <= |s|
  {
    if s == [] then [] else (if s[0] == '0' || s[0] == '1' then [s[0]] else []) + KeepBits(s[1..])
  }

  lemma {:induction false} KeepBitsAppend(a: string, b: string)
    ensures KeepBits(a + b) == KeepBits(a) + KeepBits(b)
  {
    if a == [] {
      assert a + b == b;
    } else {
      var head := if a[0] == '0' || a[0] == '1' then [a[0]] else [];
      assert (a + b)[0] == a[0] && (a + b)[1..] == a[1..] + b;
      assert KeepBits(a + b) == head + KeepBits(a[1..] + b);
      KeepBitsAppend(a[1..], b);
      assert head + (KeepBits(a[1..]) + KeepBits(b)) == (head + KeepBits(a[1..])) + KeepBits(b);
    }
  }

  lemma {:induction false} KeepBitsIsBits(s: string)
    ensures IsBits(KeepBits(s))
  {
    if s != [] {
      KeepBitsIsBits(s[1..]);
    }
  }

  /**
   * `.replace(/[^01]/g, '')` keeps exactly the '0'/'1' characters, in their
   * order: it maps each single character to itself or to nothing, and
   * distributes over concatenation.
   */
  lemma KeepBitsFilters(a: string, b: string, c: char)
    ensures KeepBits([c]) == if c == '0' || c == '1' then [c] else []
    ensures KeepBits(a + b) == KeepBits(a) + KeepBits(b)
    ensures IsBits(KeepBits(a))
  {
    assert [c][1..] == [];
    KeepBitsAppend(a, b);
    KeepBitsIsBits(a);
  }

  /** `sanitizeRowText`. */
  function SanitizeRowText(s: string): string
  {
    KeepBits(NormalizeRowText(s))
  }

  /** Reference reading of one character of row text. */
  function CellText(c: char): string
  {
    if c == '0' || c == BlackSquare then "0"
    else if c == '1' || c == WhiteSquare then "1"
    else ""
  }

  /** Reference reading of row text, one character at a time. */
  function Canonical(s: string): string
  {
    if s == [] then [] else CellText(s[0]) + Canonical(s[1..])
  }

  predicate IsBits(s: string)
  {
    forall i :: 0 <= i < |s| ==> s[i] == '0' || s[i] == '1'
  }

  lemma {:induction false} CanonicalAppend(a: string, b: string)
    ensures Canonical(a + b) == Canonical(a) + Canonical(b)
  {
    if a != [] {
      assert (a + b)[1..] == a[1..] + b;
      CanonicalAppend(a[1..], b);
    } else {
      assert a + b == b;
    }
  }

  lemma CanonicalPair(a: char, b: char)
    ensures Canonical([a, b]) == CellText(a) + CellText(b)
  {
    assert [a, b][1..] == [b];
    assert [b][1..] == [];
    assert Canonical([b]) == CellText(b) + Canonical([]);
    assert CellText(b) + [] == CellText(b);
  }

  lemma {:induction false} CanonicalIsBits(s: string)
    ensures IsBits(Canonical(s))
  {
    if s != [] {
      CanonicalIsBits(s[1..]);
    }
  }

  /**
   * One replacement pass leaves the reference reading unchanged when the
   * pattern reads as its replacement digit.
   */
  lemma {:induction false} ReplacePreservesCanonical(s: string, pat: string, d: char)
    requires |pat| > 0 && (d == '0' || d == '1')
    requires Canonical(pat) == [d]
    ensures Canonical(ReplaceAll(s, pat, [d])) == Canonical(s)
    decreases |s|
  {
    if |s| == 0 {
    } else if |pat| <= |s| && s[..|pat|] == pat {
      var rest := s[|pat|..];
      ReplacePreservesCanonical(rest, pat, d);
      CanonicalAppend([d], ReplaceAll(rest, pat, [d]));
      assert s == pat + rest;
      CanonicalAppend(pat, rest);
    } else {
      ReplacePreservesCanonical(s[1..], pat, d);
      CanonicalAppend([s[0]], ReplaceAll(s[1..], pat, [d]));
      assert s == [s[0]] + s[1..];
      CanonicalAppend([s[0]], s[1..]);
    }
  }

  /** A replacement pass does not introduce a character absent from `s` and `by`. */
  lemma {:induction false} ReplaceAbsent(s: string, pat: string, rep: string, c: char)
    requires |pat| > 0 && c !in s && c !in rep
    ensures c !in ReplaceAll(s, pat, rep)
    decreases |s|
  {
    if |s| == 0 {
    } else if |pat| <= |s| && s[..|pat|] == pat {
      ReplaceAbsent(s[|pat|..], pat, rep, c);
    } else {
      ReplaceAbsent(s[1..], pat, rep, c);
    }
  }

  /** Replacing a one-character pattern by something else removes it. */
  lemma {:induction false} ReplaceRemoves(s: string, c: char, rep: string)
    requires c !in rep
    ensures c !in ReplaceAll(s, [c], rep)
    decreases |s|
  {
    if |s| == 0 {
    } else if 1 <= |s| && s[..1] == [c] {
      ReplaceRemoves(s[1..], c, rep);
    } else {
      assert s[0] != c by { assert s[..1] == [s[0]]; }
      ReplaceRemoves(s[1..], c, rep);
    }
  }

  /** Without emoji squares left, dropping non-digits is the reference reading. */
  lemma {:induction false} KeepBitsIsCanonical(s: string)
    requires BlackSquare !in s && WhiteSquare !in s
    ensures KeepBits(s) == Canonical(s)
  {
    if s != [] {
      assert s[0] != BlackSquare && s[0] != WhiteSquare;
      assert BlackSquare !in s[1..] && WhiteSquare !in s[1..] by {
        assert forall i :: 0 <= i < |s[1..]| ==> s[1..][i] == s[i + 1];
      }
      KeepBitsIsCanonical(s[1..]);
    }
  }

  /**
   * Sanitizing row text is reading it one character at a time: '0' and a
   * black square (with or without the text-style selector) give '0', '1' and
   * a white square give '1', every other character is dropped.
   */
  lemma SanitizeIsCanonical(s: string)
    ensures SanitizeRowText(s) == Canonical(s)
  {
    var a := ReplaceAll(s, [BlackSquare, TextStyle], "0");
    var b := ReplaceAll(a, [BlackSquare], "0");
    var c := ReplaceAll(b, [WhiteSquare, TextStyle], "1");
    var d := ReplaceAll(c, [WhiteSquare], "1");
    CanonicalPair(BlackSquare, TextStyle);
    CanonicalPair(WhiteSquare, TextStyle);
    assert Canonical([BlackSquare]) == "0";
    assert Canonical([WhiteSquare]) == "1";
    ReplacePreservesCanonical(s, [BlackSquare, TextStyle], '0');
    ReplacePreservesCanonical(a, [BlackSquare], '0');
    ReplacePreservesCanonical(b, [WhiteSquare, TextStyle], '1');
    ReplacePreservesCanonical(c, [WhiteSquare], '1');
    ReplaceRemoves(a, BlackSquare, "0");
    ReplaceAbsent(b, [WhiteSquare, TextStyle], "1", BlackSquare);
    ReplaceAbsent(c, [WhiteSquare], "1", BlackSquare);
    ReplaceRemoves(c, WhiteSquare, "1");
    KeepBitsIsCanonical(d);
  }

  /** Sanitized row text holds only '0' and '1'. */
  lemma SanitizeIsBits(s: string)
    ensures IsBits(SanitizeRowText(s))
  {
    SanitizeIsCanonical(s);
    CanonicalIsBits(s);
  }

  lemma {:induction false} CanonicalOfBits(s: string)
    requires IsBits(s)
    ensures Canonical(s) == s
  {
    if s != [] {
      assert IsBits(s[1..]) by {
        assert forall i :: 0 <= i < |s[1..]| ==> s[1..][i] == s[i + 1];
      }
      CanonicalOfBits(s[1..]);
    }
  }

  /** Sanitizing is idempotent. */
  lemma SanitizeIdempotent(s: string)
    ensures SanitizeRowText(SanitizeRowText(s)) == SanitizeRowText(s)
  {
    SanitizeIsCanonical(s);
    SanitizeIsCanonical(SanitizeRowText(s));
    CanonicalIsBits(s);
    CanonicalOfBits(Canonical(s));
  }

  /** The four square spellings and what they read as. */
  lemma SanitizeSquares()
    ensures SanitizeRowText([WhiteSquare]) == "1"
    ensures SanitizeRowText([WhiteSquare, TextStyle]) == "1"
    ensures SanitizeRowText([BlackSquare]) == "0"
    ensures SanitizeRowText([BlackSquare, TextStyle]) == "0"
  {
    SanitizeIsCanonical([WhiteSquare]);
    SanitizeIsCanonical([WhiteSquare, TextStyle]);
    CanonicalPair(WhiteSquare, TextStyle);
    CanonicalPair(BlackSquare, TextStyle);
    SanitizeIsCanonical([BlackSquare]);
    SanitizeIsCanonical([BlackSquare, TextStyle]);
  }

  /** Sanitizing distributes over concatenation, so other characters simply vanish. */
  lemma SanitizeAppend(a: string, b: string)
    ensures SanitizeRowText(a + b) == SanitizeRowText(a) + SanitizeRowText(b)
  {
    SanitizeIsCanonical(a + b);
    SanitizeIsCanonical(a);
    SanitizeIsCanonical(b);
    CanonicalAppend(a, b);
  }

  /** Longest sanitized row; 0 for no rows. */
  function MaxRowLength(rows: seq<string>): nat
  {
    if rows == [] then 0
    else
      var rest := MaxRowLength(rows[..|rows| - 1]);
      var last := |SanitizeRowText(rows[|rows| - 1])|;
      if last > rest then last else rest
  }

  /** The longest sanitized row is at least as long as every row and is the length of one of them. */
  lemma {:induction false} MaxRowLengthIsMax(rows: seq<string>)
    ensures forall i :: 0 <= i < |rows| ==> |SanitizeRowText(rows[i])| <= MaxRowLength(rows)
    ensures rows != [] ==> exists i :: 0 <= i < |rows| && |SanitizeRowText(rows[i])| == MaxRowLength(rows)
  {
    if rows != [] {
      var init := rows[..|rows| - 1];
      MaxRowLengthIsMax(init);
      assert forall i :: 0 <= i < |init| ==> init[i] == rows[i];
      var last := |rows| - 1;
      assert MaxRowLength(rows) == if |SanitizeRowText(rows[last])| > MaxRowLength(init)
        then |SanitizeRowText(rows[last])| else MaxRowLength(init);
      if init == [] {
        assert MaxRowLength(init) == 0;
      }
      if |SanitizeRowText(rows[last])| == MaxRowLength(rows) {
        assert 0 <= last < |rows|;
      } else {
        var k :| 0 <= k < |init| && |SanitizeRowText(init[k])| == MaxRowLength(init);
        assert rows[k] == init[k];
      }
    }
  }

  /** What `inferBoardWidth` returns, as a value. */
  function InferredWidth(rows: Option<seq<string>>): nat
  {
    if rows.None? || rows.value == [] || MaxRowLength(rows.value) == 0 then DefaultBoardWidth
    else MaxRowLength(rows.value)
  }

  /**
   * The inferred width is at least 1; it is 100 for a missing or empty
   * list or when every row sanitizes to nothing; otherwise it is the
   * length of the longest sanitized row.
   */
  lemma InferredWidthProperties(rows: Option<seq<string>>)
    ensures InferredWidth(rows) >= 1
    ensures rows.None? || rows.value == [] ==> InferredWidth(rows) == DefaultBoardWidth
    ensures rows.Some? && (forall i :: 0 <= i < |rows.value| ==> SanitizeRowText(rows.value[i]) == []) ==>
      InferredWidth(rows) == DefaultBoardWidth
    ensures rows.Some? && (exists i :: 0 <= i < |rows.value| && SanitizeRowText(rows.value[i]) != []) ==>
      && (forall i :: 0 <= i < |rows.value| ==> |SanitizeRowText(rows.value[i])| <= InferredWidth(rows))
      && (exists i :: 0 <= i < |rows.value| && |SanitizeRowText(rows.value[i])| == InferredWidth(rows))
  {
    if rows.Some? {
      var rs := rows.value;
      MaxRowLengthIsMax(rs);
      if rs != [] && forall i :: 0 <= i < |rs| ==> SanitizeRowText(rs[i]) == [] {
        var k :| 0 <= k < |rs| && |SanitizeRowText(rs[k])| == MaxRowLength(rs);
        assert SanitizeRowText(rs[k]) == [];
      }
    }
  }

  /**
   * `inferBoardWidth`: a running maximum of sanitized row lengths; 100 for a
   * missing or empty list, or when every row sanitizes to nothing.
   * (`None` stands for a configuration value that is not an array.)
   */
  method InferBoardWidth(rows: Option<seq<string>>) returns (w: nat)
    ensures w == InferredWidth(rows)
  {
    if rows.None? || |rows.value| == 0 {
      return DefaultBoardWidth;
    }
    var rs := rows.value;
    var maxLen := 0;
    for i := 0 to |rs|
      invariant maxLen == MaxRowLength(rs[..i])
    {
      assert rs[..i + 1][..i] == rs[..i];
      var len := |SanitizeRowText(rs[i])|;
      if len > maxLen {
        maxLen := len;
      }
    }
    assert rs[..|rs|] == rs;
    w := if maxLen == 0 then DefaultBoardWidth else maxLen;
  }

  /** A pattern entry of the configuration (`{ x, y, rows }`). */
  datatype Pattern = Pattern(x: Option<real>, y: Option<real>, rows: Option<seq<string>>)

  /**
   * The pattern configuration file. A field that is not a finite number is
   * `None`; a list field that is not an array is `None`.
   */
  datatype PatternConfig = PatternConfig(
    boardWidth: Option<real>,
    boardHeight: Option<real>,
    stepIntervalFrames: Option<real>,
    spawnEveryGenerations: Option<real>,
    initialPatternRows: Option<seq<string>>,
    injectionPatterns: Option<seq<Option<Pattern>>>)

  function MaxInt(a: int, b: int): int { if a >= b then a else b }

  /** `BOARD_WIDTH`: a configured width of at least 2, else the inferred width. */
  function BoardWidth(cfg: PatternConfig): (w: nat)
    ensures w >= 1
    ensures cfg.boardWidth.Some? && cfg.boardWidth.value.Floor >= 2 ==> w == cfg.boardWidth.value.Floor
    ensures !(cfg.boardWidth.Some? && cfg.boardWidth.value.Floor >= 2) ==> w == InferredWidth(cfg.initialPatternRows)
  {
    var raw := if cfg.boardWidth.Some? then cfg.boardWidth.value.Floor else 0;
    if raw >= 2 then raw else InferredWidth(cfg.initialPatternRows)
  }

  /** `BOARD_HEIGHT`: the configured height floored and raised to 1, else 26. */
  function BoardHeight(cfg: PatternConfig): (h: nat)
    ensures h >= 1
  {
    if cfg.boardHeight.Some? then MaxInt(1, cfg.boardHeight.value.Floor) else DefaultBoardHeight
  }

  /** `STEP_INTERVAL_FRAMES`. */
  function StepIntervalFrames(cfg: PatternConfig): (n: nat)
    ensures n >= 1
  {
    if cfg.stepIntervalFrames.Some? then MaxInt(1, cfg.stepIntervalFrames.value.Floor) else DefaultStepIntervalFrames
  }

  /** `SPAWN_EVERY_GENERATIONS`. */
  function SpawnEveryGenerations(cfg: PatternConfig): (n: nat)
    ensures n >= 1
  {
    if cfg.spawnEveryGenerations.Some? then MaxInt(1, cfg.spawnEveryGenerations.value.Floor) else DefaultSpawnEveryGenerations
  }
}
