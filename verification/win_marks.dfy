/** The expansion of a winning run into board positions at the start of `markWin` in
    connectn/container.py. The run `(r1, c1, r2, c2)` is walked one cell at a time: the
    column moves right until it reaches `c2`, and the row moves one step towards `r2`
    until it reaches it. */
module WinMarks {
  import opened Wrappers
  import opened Geometry

  type Position = (int, int)

  /** One iteration of the walking loop from `(r, c)`. */
  function Step(run: Run, r: int, c: int): (next: Position)
    ensures next.1 == (if c != run.c2 then c + 1 else c)
    ensures Abs(run.r2 - next.0) == (if r == run.r2 then 0 else Abs(run.r2 - r) - 1)
  {
    (if r < run.r2 then r + 1 else if r > run.r2 then r - 1 else r,
     if c != run.c2 then c + 1 else c)
  }

  /** The row reached after `i` steps: `i` steps from `r1` towards `r2`, stopping there. */
  function RowAt(run: Run, i: nat): int {
    if run.r1 <= run.r2 then Min(run.r1 + i, run.r2) else Max(run.r1 - i, run.r2)
  }

  /** The column reached after `i` steps from a run whose start is left of its end. */
  function ColAt(run: Run, i: nat): int {
    Min(run.c1 + i, run.c2)
  }

  /** The number of positions the walk produces. */
  function WalkLength(run: Run): nat {
    Max(Abs(run.r2 - run.r1), run.c2 - run.c1) + 1
  }

  /** `(r, c)` lies in the rectangle the two ends of the run span. */
  predicate InBox(run: Run, p: Position) {
    && Min(run.r1, run.r2) <= p.0 <= Max(run.r1, run.r2)
    && Min(run.c1, run.c2) <= p.1 <= Max(run.c1, run.c2)
  }

  /** The loop of `markWin` that lists the positions of a run whose start column is not right
      of its end column. */
  method ExpandRun(run: Run) returns (positions: seq<Position>)
    requires run.c1 <= run.c2
    ensures |positions| == WalkLength(run)
    ensures positions[0] == (run.r1, run.c1)
    ensures positions[|positions| - 1] == (run.r2, run.c2)
    ensures forall i :: 0 <= i < |positions| ==> positions[i] == (RowAt(run, i), ColAt(run, i))
    ensures forall i :: 0 <= i < |positions| ==> InBox(run, positions[i])
  {
    var n := WalkLength(run) - 1;
    positions := [];
    var r, c := run.r1, run.c1;
    while r != run.r2 || c != run.c2
      invariant |positions| <= n
      invariant r == RowAt(run, |positions|) && c == ColAt(run, |positions|)
      invariant forall i :: 0 <= i < |positions| ==> positions[i] == (RowAt(run, i), ColAt(run, i))
      decreases n - |positions|
    {
      positions := positions + [(r, c)];
      var next := Step(run, r, c);
      r, c := next.0, next.1;
    }
    positions := positions + [(run.r2, run.c2)];
    forall i | 0 <= i < |positions|
      ensures InBox(run, positions[i])
    {
      assert positions[i] == (RowAt(run, i), ColAt(run, i));
    }
  }

  /** When the start column is right of the end column the loop never ends: the column only
      grows, so it never comes back to `c2`, and the loop condition stays true. */
  lemma LeftwardRunNeverEnds(run: Run, r: int, c: int)
    requires c > run.c2
    ensures Step(run, r, c).1 > run.c2
    ensures Step(run, r, c).0 != run.r2 || Step(run, r, c).1 != run.c2
  {
  }

  /** Consecutive positions of the walk are neighbouring cells: the column moves right by at
      most one and the row by at most one, so the stars form a connected chain. */
  lemma WalkIsConnected(run: Run, i: nat)
    requires run.c1 <= run.c2
    ensures 0 <= ColAt(run, i + 1) - ColAt(run, i) <= 1
    ensures Abs(RowAt(run, i + 1) - RowAt(run, i)) <= 1
  {
  }
}
