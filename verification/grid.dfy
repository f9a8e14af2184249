/** Rectangular grids of colour names, as both board classes store them. */
module Grid {

  /** The colour of an empty cell (`NOBODY` in a6consts.py). */
  const Nobody: string := ""

  type Cells = seq<seq<string>>

  /** `g` has `height` rows of `width` cells each. */
  predicate IsGrid(g: Cells, height: int, width: int) {
    |g| == height && forall r :: 0 <= r < |g| ==> |g[r]| == width
  }

  /** A grid of the given size whose every cell is empty. */
  function Blank(height: nat, width: nat): (g: Cells)
    ensures IsGrid(g, height, width)
    ensures forall r, c :: 0 <= r < height && 0 <= c < width ==> g[r][c] == Nobody
  {
    seq(height, _ => seq(width, _ => Nobody))
  }

  /** `g` with the single cell `(r, c)` replaced by `v`. */
  function Set(g: Cells, r: int, c: int, v: string): (g': Cells)
    requires 0 <= r < |g| && 0 <= c < |g[r]|
    ensures |g'| == |g|
    ensures forall i :: 0 <= i < |g| ==> |g'[i]| == |g[i]|
    ensures g'[r][c] == v
    ensures forall i, j :: 0 <= i < |g| && 0 <= j < |g[i]| && (i != r || j != c) ==> g'[i][j] == g[i][j]
  {
    g[r := g[r][c := v]]
  }

  /** Writing a cell back to the value it already holds changes nothing. */
  lemma SetSame(g: Cells, r: int, c: int)
    requires 0 <= r < |g| && 0 <= c < |g[r]|
    ensures Set(g, r, c, g[r][c]) == g
  {
    assert g[r][c := g[r][c]] == g[r];
  }

  /** A second write to a cell overrides the first. */
  lemma SetSet(g: Cells, r: int, c: int, v: string, w: string)
    requires 0 <= r < |g| && 0 <= c < |g[r]|
    ensures Set(Set(g, r, c, v), r, c, w) == Set(g, r, c, w)
  {
    assert g[r][c := v][c := w] == g[r][c := w];
  }
}
