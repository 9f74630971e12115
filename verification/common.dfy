/**
 * Small vocabulary shared by the three animation plugins: optional values,
 * results of external collaborators, 2D points and the bounded FIFO that
 * both the Fourier trace and the DVD sprite history use
 * (push at the end, then drop from the front down to a maximum length).
 */
module Common {

  datatype Option<+T> = None | Some(value: T)

  datatype Result<+T> = Ok(value: T) | Err(message: string)

  /** A 2D coordinate, as the `{ x, y }` objects of the source. */
  datatype Point = Point(x: real, y: real)

  function Abs(v: real): (r: real)
    ensures r >= 0.0 && (r == v || r == -v)
  {
    if v < 0.0 then -v else v
  }

  function MaxReal(a: real, b: real): (r: real)
    ensures r >= a && r >= b && (r == a || r == b)
  {
    if a >= b then a else b
  }

  function MinReal(a: real, b: real): (r: real)
    ensures r <= a && r <= b && (r == a || r == b)
  {
    if a <= b then a else b
  }

  /** Division by a positive number keeps order. */
  lemma DivMonotone(a: real, b: real, w: real)
    requires 0.0 < w && a <= b
    ensures a / w <= b / w
  {
    var qa, qb := a / w, b / w;
    assert qa * w == a && qb * w == b;
    assert (qb - qa) * w == b - a;
  }

  /** A positive number divided by a positive number is positive. */
  lemma DivPositive(a: real, w: real)
    requires 0.0 < w && 0.0 < a
    ensures 0.0 < a / w
  {
    var q := a / w;
    assert q * w == a;
  }

  /** A positive number divided by itself is 1, and 0 divided by it is 0. */
  lemma DivSelf(w: real)
    requires 0.0 < w
    ensures w / w == 1.0 && 0.0 / w == 0.0
  {
    assert w / w * w == w;
    assert 0.0 / w * w == 0.0;
  }

  /**
   * `if (s.length > max) s.splice(0, s.length - max)`: keep the newest `max`
   * entries of `s`, evicting from the front only.
   */
  function KeepLast<T>(s: seq<T>, max: nat): (r: seq<T>)
  {
    if |s| > max then s[|s| - max..] else s
  }

  /** What survives the eviction: the newest `min(|s|, max)` entries, in order. */
  lemma KeepLastProperties<T>(s: seq<T>, max: nat)
    ensures var r := KeepLast(s, max);
      && |r| == (if |s| > max then max else |s|)
      && r == s[|s| - |r|..]
  {
  }

  /**
   * Pushing a batch onto a FIFO that was within its bound and then evicting:
   * the result is within the bound, ends with the whole batch (when the
   * batch fits), and what survives of the old contents is a suffix of them,
   * in their original order.
   */
  lemma {:induction false} PushThenEvict<T>(old_: seq<T>, batch: seq<T>, max: nat)
    requires |batch| <= max
    ensures var r := KeepLast(old_ + batch, max);
      && |r| <= max
      && r[|r| - |batch|..] == batch
      && r[..|r| - |batch|] == old_[|old_| - (|r| - |batch|)..]
  {
    var s := old_ + batch;
    var r := KeepLast(s, max);
    KeepLastProperties(s, max);
    var k := |s| - |r|;
    assert r == s[k..];
    assert k <= |old_|;
    assert r[|r| - |batch|..] == s[|old_|..] == batch;
    assert r[..|r| - |batch|] == s[k..|old_|] == old_[k..];
  }
}
