/** Board coordinates shared by both board models: runs, `dist` and `in_range` of a6test.py. */
module Geometry {

  /** A run of pieces, given as the tuple `(r1, c1, r2, c2)` of its two end cells. */
  datatype Run = Run(r1: int, c1: int, r2: int, c2: int)

  function Abs(x: int): nat {
    if x < 0 then -x else x
  }

  /** `dist(r1, c1, r2, c2)`: the Manhattan distance between two cells. */
  function Dist(r1: int, c1: int, r2: int, c2: int): (d: nat)
    ensures d >= Abs(r1 - r2) && d >= Abs(c1 - c2)
    ensures d == 0 <==> r1 == r2 && c1 == c2
  {
    Abs(r1 - r2) + Abs(c1 - c2)
  }

  /** `in_range(board, r, c)` for a board of the given height and width. */
  function InRange(height: int, width: int, r: int, c: int): (inside: bool)
    ensures inside ==> height > 0 && width > 0
  {
    0 <= r < height && 0 <= c < width
  }

  /** A unit step along one axis: -1, 0 or +1. */
  predicate IsStep(d: int) {
    -1 <= d <= 1
  }

  /** `i * d` for a unit step `d`, written so that the solver stays in linear arithmetic. */
  function Offset(i: int, d: int): int
    requires IsStep(d)
  {
    if d == 1 then i else if d == -1 then -i else 0
  }

  /** `Offset` is the product it stands for. */
  lemma OffsetIsProduct(i: int, d: int)
    requires IsStep(d)
    ensures Offset(i, d) == i * d
  {
  }

  /** `dist` is a metric: it is zero exactly on equal cells, symmetric, and obeys the
      triangle inequality. */
  lemma DistIsMetric(r1: int, c1: int, r2: int, c2: int, r3: int, c3: int)
    ensures Dist(r1, c1, r2, c2) == 0 <==> r1 == r2 && c1 == c2
    ensures Dist(r1, c1, r2, c2) == Dist(r2, c2, r1, c1)
    ensures Dist(r1, c1, r3, c3) <= Dist(r1, c1, r2, c2) + Dist(r2, c2, r3, c3)
  {
  }
}
