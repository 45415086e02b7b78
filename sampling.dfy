/**
  Nearest-neighbour sample indices. Both frame resamplers pick source
  position `floor(i / (dst / src))` for output position `i`; over exact
  arithmetic that is `i * src / dst`, which is what the model computes.
*/
module Sampling {

  /** The source position sampled for output position `i` when `src` positions shrink to `dst`. */
  function SourceIndex(i: nat, src: nat, dst: nat): nat
    requires dst > 0
  {
    i * src / dst
  }

  lemma MulLeftMonotone(a: int, b: int, c: int)
    requires a <= b && c >= 0
    ensures a * c <= b * c
  {
  }

  lemma DivIsFloor(x: int, d: int)
    requires d > 0
    ensures (x / d) * d <= x < (x / d) * d + d
  {
  }

  lemma DivMonotone(x: int, y: int, d: int)
    requires d > 0 && x <= y
    ensures x / d <= y / d
  {
    DivIsFloor(x, d);
    DivIsFloor(y, d);
    if x / d > y / d {
      MulLeftMonotone(y / d + 1, x / d, d);
    }
  }

  /** The sampled position is a real position of the source: below `src`. */
  lemma {:induction false} SourceIndexInRange(i: nat, src: nat, dst: nat)
    requires i < dst && src > 0
    ensures SourceIndex(i, src, dst) < src
  {
    var q := i * src / dst;
    DivIsFloor(i * src, dst);
    MulLeftMonotone(i, dst - 1, src);
    if q >= src {
      MulLeftMonotone(src, q, dst);
    }
  }

  /** Shrinking (`dst <= src`) samples strictly increasing positions: no position twice, none out of order. */
  lemma {:induction false} SourceIndexIncreasing(i: nat, j: nat, src: nat, dst: nat)
    requires i < j && 0 < dst <= src
    ensures SourceIndex(i, src, dst) < SourceIndex(j, src, dst)
  {
    MulLeftMonotone(i + 1, j, src);
    assert i * src + dst <= j * src;
    DivMonotone(i * src + dst, j * src, dst);
    DivIsFloor(i * src, dst);
    DivIsFloor(i * src + dst, dst);
    var q := i * src / dst;
    if (i * src + dst) / dst <= q {
      MulLeftMonotone((i * src + dst) / dst, q, dst);
    }
  }

  /**
    The web player keeps `floor(rows * dst / src)` rows and samples row
    `y * src / dst` for each: every such row exists.
  */
  lemma {:induction false} ScaledRowInRange(y: nat, rows: nat, src: nat, dst: nat)
    requires src > 0 && dst > 0
    requires y < rows * dst / src
    ensures SourceIndex(y, src, dst) < rows
  {
    DivIsFloor(rows * dst, src);
    MulLeftMonotone(y + 1, rows * dst / src, src);
    assert y * src < rows * dst;
    var q := y * src / dst;
    DivIsFloor(y * src, dst);
    if q >= rows {
      MulLeftMonotone(rows, q, dst);
    }
  }

  lemma MulAtLeast(d: int, n: int)
    requires d >= 1 && n > 0
    ensures d * n >= n
  {
    if d > 1 {
      MulAtLeast(d - 1, n);
      assert d * n == (d - 1) * n + n;
    }
  }

  /** Euclidean quotient and remainder are determined by any decomposition with a remainder in range. */
  lemma ModUnique(x: int, q: int, r: int, n: int)
    requires n > 0 && 0 <= r < n && x == q * n + r
    ensures x / n == q && x % n == r
  {
    var q', r' := x / n, x % n;
    assert q' * n + r' == x;
    assert (q - q') * n == r' - r;
    if q > q' {
      MulAtLeast(q - q', n);
    } else if q < q' {
      MulAtLeast(q' - q, n);
    }
  }
}
