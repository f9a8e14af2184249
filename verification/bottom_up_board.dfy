/** The Connect-N board of a6board.py.

    Row 0 is the BOTTOM row: a piece dropped into a column comes to rest in the
    lowest-indexed empty row, and the column is full once row `height - 1` is
    occupied. The board keeps a stack of the moves made so that they can be undone.

    The run scans call `dist(self, r1, c1, r2, c2)`, a five-argument function that
    a6board.py never defines (a6test.py defines a four-argument `dist`). The length
    test is therefore a parameter `longEnough(run, leng)` of the scans; the run
    endpoints they compute are modelled exactly. */
module BottomUpBoard {
  import opened Wrappers
  import opened Grid
  import opened Geometry

  /** A recorded move: the `(row, column)` a piece was placed at. */
  datatype Move = Move(row: int, col: int)

  datatype Board = Board(width: int, height: int, streak: int, cells: Cells, moves: seq<Move>)

  /** The shape the constructor creates and every operation keeps: a `height` x `width`
      grid and a move stack of cells on that grid. */
  predicate Valid(b: Board) {
    && b.width >= 0
    && b.height >= 0
    && IsGrid(b.cells, b.height, b.width)
    && forall i :: 0 <= i < |b.moves| ==> InRange(b.height, b.width, b.moves[i].row, b.moves[i].col)
  }

  /** Gravity: in every column the occupied cells form a block resting on row 0. */
  predicate Stacked(b: Board)
    requires Valid(b)
  {
    forall r1, r2, c :: 0 <= r1 <= r2 < b.height && 0 <= c < b.width && b.cells[r2][c] != Nobody ==> b.cells[r1][c] != Nobody
  }

  /** The constructor `_init_(rows=6, cols=7, streak=4)`: an empty board with no moves. */
  function Init(rows: nat := 6, cols: nat := 7, streak: int := 4): (b: Board)
    ensures Valid(b) && Stacked(b)
    ensures b.height == rows && b.width == cols && b.streak == streak
    ensures b.moves == []
    ensures forall r, c :: InRange(rows, cols, r, c) ==> b.cells[r][c] == Nobody
  {
    Board(cols, rows, streak, Blank(rows, cols), [])
  }

  /** `clear()`: empties every cell and forgets every move. */
  function Clear(b: Board): (b': Board)
    requires Valid(b)
    ensures Valid(b') && Stacked(b')
    ensures b'.width == b.width && b'.height == b.height && b'.streak == b.streak
    ensures b'.moves == []
    ensures forall r, c :: InRange(b.height, b.width, r, c) ==> b'.cells[r][c] == Nobody
  {
    b.(cells := Blank(b.height, b.width), moves := [])
  }

  /** A cleared board is indistinguishable from a freshly constructed one. */
  lemma ClearIsInit(b: Board)
    requires Valid(b)
    ensures Clear(b) == Init(b.height, b.width, b.streak)
  {
  }

  /** `getMoveCount()`. */
  function GetMoveCount(b: Board): (n: nat)
    ensures n == 0 <==> GetLastMove(b).None?
  {
    |b.moves|
  }

  /** `getLastMove()`: the most recent move, or `None` before the first one. */
  function GetLastMove(b: Board): (m: Option<Move>)
    ensures m.None? <==> b.moves == []
    ensures m.Some? ==> m.value == b.moves[|b.moves| - 1]
  {
    if b.moves == [] then None else Some(b.moves[|b.moves| - 1])
  }

  /** The loop of `findAvailableRow` from `row` on. */
  function AvailableFrom(b: Board, col: int, row: int): (r: int)
    requires Valid(b) && 0 <= col < b.width && 0 <= row <= b.height
    ensures row <= r <= b.height
    ensures r < b.height ==> b.cells[r][col] == Nobody
    ensures forall k :: row <= k < r ==> b.cells[k][col] != Nobody
    decreases b.height - row
  {
    if row == b.height then b.height
    else if b.cells[row][col] == Nobody then row
    else AvailableFrom(b, col, row + 1)
  }

  /** `findAvailableRow(col)`: the lowest empty row of `col`, or `height` when there is none. */
  function FindAvailableRow(b: Board, col: int): (r: int)
    requires Valid(b) && 0 <= col < b.width
    ensures 0 <= r <= b.height
    ensures r < b.height ==> b.cells[r][col] == Nobody
    ensures forall k :: 0 <= k < r ==> b.cells[k][col] != Nobody
  {
    AvailableFrom(b, col, 0)
  }

  /** `isFullColumn(col)`: the top row of `col` is occupied. */
  function IsFullColumn(b: Board, col: int): (full: bool)
    requires Valid(b) && b.height > 0 && 0 <= col < b.width
    ensures !full ==> FindAvailableRow(b, col) < b.height
    ensures Stacked(b) ==> (full <==> FindAvailableRow(b, col) == b.height)
  {
    b.cells[b.height - 1][col] != Nobody
  }

  /** Under gravity, a column tests full exactly when it has no available row. */
  lemma FullColumnHasNoRow(b: Board, col: int)
    requires Valid(b) && Stacked(b) && b.height > 0 && 0 <= col < b.width
    ensures IsFullColumn(b, col) <==> FindAvailableRow(b, col) == b.height
  {
  }

  /** No cell of the board is empty: what `isFullBoard` decides. */
  predicate NoEmptyCell(b: Board)
    requires Valid(b)
  {
    forall r, c :: 0 <= r < b.height && 0 <= c < b.width ==> b.cells[r][c] != Nobody
  }

  /** `isFullBoard()`, with its two nested loops and early exit. */
  method IsFullBoard(b: Board) returns (full: bool)
    requires Valid(b)
    ensures full <==> NoEmptyCell(b)
  {
    var r := 0;
    while r < b.height
      invariant 0 <= r <= b.height
      invariant forall i, j :: 0 <= i < r && 0 <= j < b.width ==> b.cells[i][j] != Nobody
    {
      var c := 0;
      while c < b.width
        invariant 0 <= c <= b.width
        invariant forall j :: 0 <= j < c ==> b.cells[r][j] != Nobody
      {
        if b.cells[r][c] == Nobody {
          return false;
        }
        c := c + 1;
      }
      r := r + 1;
    }
    return true;
  }

  /** `place(column, color)`: the board afterwards and the row used, or -1 for a full column. */
  function Place(b: Board, column: int, color: string): (res: (Board, int))
    requires Valid(b) && 0 <= column < b.width
    ensures Valid(res.0) && res.0.width == b.width && res.0.height == b.height && res.0.streak == b.streak
    ensures res.1 == -1 <==> forall k :: 0 <= k < b.height ==> b.cells[k][column] != Nobody
    ensures res.1 == -1 ==> res.0 == b
    ensures res.1 != -1 ==>
              && 0 <= res.1 < b.height
              && b.cells[res.1][column] == Nobody
              && (forall k :: 0 <= k < res.1 ==> b.cells[k][column] != Nobody)
              && res.0.cells == Set(b.cells, res.1, column, color)
              && res.0.moves == b.moves + [Move(res.1, column)]
  {
    var row := FindAvailableRow(b, column);
    if row == b.height then (b, -1)
    else (b.(cells := Set(b.cells, row, column, color), moves := b.moves + [Move(row, column)]), row)
  }

  /** `undoPlace()`: pops the last move and empties its cell; does nothing without moves. */
  function UndoPlace(b: Board): (b': Board)
    requires Valid(b)
    ensures Valid(b') && b'.width == b.width && b'.height == b.height && b'.streak == b.streak
    ensures b.moves == [] ==> b' == b
    ensures b.moves != [] ==>
              && b'.moves == b.moves[..|b.moves| - 1]
              && b'.cells == Set(b.cells, b.moves[|b.moves| - 1].row, b.moves[|b.moves| - 1].col, Nobody)
  {
    if b.moves == [] then b
    else
      var m := b.moves[|b.moves| - 1];
      b.(cells := Set(b.cells, m.row, m.col, Nobody), moves := b.moves[..|b.moves| - 1])
  }

  /** A successful `place` followed by `undoPlace` restores the grid and the move stack. */
  lemma PlaceUndoRoundTrip(b: Board, column: int, color: string)
    requires Valid(b) && 0 <= column < b.width
    requires Place(b, column, color).1 != -1
    ensures UndoPlace(Place(b, column, color).0) == b
  {
    var (p, row) := Place(b, column, color);
    assert p.moves[|p.moves| - 1] == Move(row, column);
    assert p.moves[..|p.moves| - 1] == b.moves;
    SetSet(b.cells, row, column, color, Nobody);
    SetSame(b.cells, row, column);
  }

  /** After a successful `place`, `getLastMove` reports it and the move count grows by one. */
  lemma PlaceIsLastMove(b: Board, column: int, color: string)
    requires Valid(b) && 0 <= column < b.width
    requires Place(b, column, color).1 != -1
    ensures GetLastMove(Place(b, column, color).0) == Some(Move(Place(b, column, color).1, column))
    ensures GetMoveCount(Place(b, column, color).0) == GetMoveCount(b) + 1
  {
  }

  /** Dropping a real piece keeps gravity. */
  lemma PlaceKeepsStacked(b: Board, column: int, color: string)
    requires Valid(b) && Stacked(b) && 0 <= column < b.width && color != Nobody
    ensures Stacked(Place(b, column, color).0)
  {
    var (p, row) := Place(b, column, color);
    if row != -1 {
      forall r1, r2, c | 0 <= r1 <= r2 < b.height && 0 <= c < b.width && p.cells[r2][c] != Nobody
        ensures p.cells[r1][c] != Nobody
      {
        if c == column && r2 != row {
          assert b.cells[r2][c] != Nobody;
          assert r2 < row;
        }
      }
    }
  }

  // ---------------------------------------------------------------------------
  // Run scans
  // ---------------------------------------------------------------------------

  /** The cell `i` steps from `(r, c)` in direction `(dr, dc)` is on the board and holds `color`. */
  predicate OnLine(b: Board, r: int, c: int, dr: int, dc: int, i: int, color: string)
    requires Valid(b) && IsStep(dr) && IsStep(dc)
  {
    && InRange(b.height, b.width, r + Offset(i, dr), c + Offset(i, dc))
    && b.cells[r + Offset(i, dr)][c + Offset(i, dc)] == color
  }

  /** `k` is the length of the maximal stretch of `(r, c)`'s colour starting at `(r, c)` and
      heading in direction `(dr, dc)`: steps `0..k` hold that colour, step `k + 1` does not
      (or is off the board). */
  predicate MaximalReach(b: Board, r: int, c: int, dr: int, dc: int, k: int)
    requires Valid(b) && IsStep(dr) && IsStep(dc) && InRange(b.height, b.width, r, c)
  {
    && k >= 0
    && (forall i :: 0 <= i <= k ==> OnLine(b, r, c, dr, dc, i, b.cells[r][c]))
    && !OnLine(b, r, c, dr, dc, k + 1, b.cells[r][c])
  }

  /** There is only one maximal stretch in each direction. */
  lemma MaximalReachUnique(b: Board, r: int, c: int, dr: int, dc: int, k1: int, k2: int)
    requires Valid(b) && IsStep(dr) && IsStep(dc) && InRange(b.height, b.width, r, c)
    requires MaximalReach(b, r, c, dr, dc, k1) && MaximalReach(b, r, c, dr, dc, k2)
    ensures k1 == k2
  {
  }

  /** How many steps in direction `(dr, dc)` remain on the board from `(r, c)`. */
  function Room(b: Board, r: int, c: int, dr: int, dc: int): nat
    requires InRange(b.height, b.width, r, c)
  {
    (if dr == 1 then b.height - 1 - r else if dr == -1 then r else 0)
    + (if dc == 1 then b.width - 1 - c else if dc == -1 then c else 0)
  }

  /** One scanning loop of the `find*` methods: steps from `(r, c)` while the next cell is
      on the board and has the colour of the cell `(r, c)`, and counts the steps. */
  function Reach(b: Board, r: int, c: int, dr: int, dc: int): (k: int)
    requires Valid(b) && IsStep(dr) && IsStep(dc) && (dr != 0 || dc != 0)
    requires InRange(b.height, b.width, r, c)
    ensures MaximalReach(b, r, c, dr, dc, k)
    decreases Room(b, r, c, dr, dc)
  {
    if InRange(b.height, b.width, r + dr, c + dc) && b.cells[r + dr][c + dc] == b.cells[r][c] then
      var k' := Reach(b, r + dr, c + dc, dr, dc);
      ReachStep(b, r, c, dr, dc, k');
      1 + k'
    else
      assert OnLine(b, r, c, dr, dc, 0, b.cells[r][c]);
      0
  }

  /** Step `i` from `(r, c)` is step `i - 1` from the next cell along the line. */
  lemma OnLineShift(b: Board, r: int, c: int, dr: int, dc: int, i: int, color: string)
    requires Valid(b) && IsStep(dr) && IsStep(dc)
    ensures OnLine(b, r, c, dr, dc, i, color) <==> OnLine(b, r + dr, c + dc, dr, dc, i - 1, color)
  {
    assert r + Offset(i, dr) == (r + dr) + Offset(i - 1, dr);
    assert c + Offset(i, dc) == (c + dc) + Offset(i - 1, dc);
  }

  /** A maximal stretch from the next cell extends by one to a maximal stretch from `(r, c)`
      when the two cells have the same colour. */
  lemma ReachStep(b: Board, r: int, c: int, dr: int, dc: int, k: int)
    requires Valid(b) && IsStep(dr) && IsStep(dc) && InRange(b.height, b.width, r, c)
    requires InRange(b.height, b.width, r + dr, c + dc) && b.cells[r + dr][c + dc] == b.cells[r][c]
    requires MaximalReach(b, r + dr, c + dc, dr, dc, k)
    ensures MaximalReach(b, r, c, dr, dc, k + 1)
  {
    var color := b.cells[r][c];
    forall i | 0 <= i <= k + 1
      ensures OnLine(b, r, c, dr, dc, i, color)
    {
      if i > 0 {
        OnLineShift(b, r, c, dr, dc, i, color);
      }
    }
    OnLineShift(b, r, c, dr, dc, k + 2, color);
  }

  /** The length test the scans apply to a candidate run: `dist(self, r1, c1, r2, c2) >= leng`
      in the source, with the undefined `dist` left abstract. */
  type LengthTest = (Run, int) -> bool

  /** A run a scan through `(r, c)` may report: both ends on the board and of `(r, c)`'s
      colour, left end first (`c1 <= c <= c2`). */
  predicate WellFormedRun(b: Board, r: int, c: int, run: Run)
    requires Valid(b) && InRange(b.height, b.width, r, c)
  {
    && InRange(b.height, b.width, run.r1, run.c1)
    && InRange(b.height, b.width, run.r2, run.c2)
    && run.c1 <= c <= run.c2
    && b.cells[run.r1][run.c1] == b.cells[r][c]
    && b.cells[run.r2][run.c2] == b.cells[r][c]
  }

  /** Keeps `run` when it passes the length test. */
  function Keep(run: Run, leng: int, longEnough: LengthTest): Option<Run> {
    if longEnough(run, leng) then Some(run) else None
  }

  /** `findVertical(r, c, leng)`: from `(r, c)` down to the lowest cell of the same colour. */
  function FindVertical(b: Board, r: int, c: int, leng: int, longEnough: LengthTest): (run: Option<Run>)
    requires Valid(b) && InRange(b.height, b.width, r, c)
    ensures forall k :: MaximalReach(b, r, c, -1, 0, k) ==> run == Keep(Run(r, c, r - k, c), leng, longEnough)
    ensures run.Some? ==> WellFormedRun(b, r, c, run.value)
  {
    var down := Reach(b, r, c, -1, 0);
    forall k | MaximalReach(b, r, c, -1, 0, k)
      ensures k == down
    {
      MaximalReachUnique(b, r, c, -1, 0, k, down);
    }
    assert OnLine(b, r, c, -1, 0, down, b.cells[r][c]);
    Keep(Run(r, c, r - down, c), leng, longEnough)
  }

  /** `findAcross(r, c, leng)`: the maximal horizontal run through `(r, c)`. */
  function FindAcross(b: Board, r: int, c: int, leng: int, longEnough: LengthTest): (run: Option<Run>)
    requires Valid(b) && InRange(b.height, b.width, r, c)
    ensures forall kl, kr :: MaximalReach(b, r, c, 0, -1, kl) && MaximalReach(b, r, c, 0, 1, kr) ==>
              run == Keep(Run(r, c - kl, r, c + kr), leng, longEnough)
    ensures run.Some? ==> WellFormedRun(b, r, c, run.value)
  {
    var left := Reach(b, r, c, 0, -1);
    var right := Reach(b, r, c, 0, 1);
    forall kl, kr | MaximalReach(b, r, c, 0, -1, kl) && MaximalReach(b, r, c, 0, 1, kr)
      ensures kl == left && kr == right
    {
      MaximalReachUnique(b, r, c, 0, -1, kl, left);
      MaximalReachUnique(b, r, c, 0, 1, kr, right);
    }
    assert OnLine(b, r, c, 0, -1, left, b.cells[r][c]);
    assert OnLine(b, r, c, 0, 1, right, b.cells[r][c]);
    Keep(Run(r, c - left, r, c + right), leng, longEnough)
  }

  /** `findSWNE(r, c, leng)`: the maximal run through `(r, c)` from south-west (lower rows,
      lower columns) to north-east. */
  function FindSWNE(b: Board, r: int, c: int, leng: int, longEnough: LengthTest): (run: Option<Run>)
    requires Valid(b) && InRange(b.height, b.width, r, c)
    ensures forall k1, k2 :: MaximalReach(b, r, c, -1, -1, k1) && MaximalReach(b, r, c, 1, 1, k2) ==>
              run == Keep(Run(r - k1, c - k1, r + k2, c + k2), leng, longEnough)
    ensures run.Some? ==> WellFormedRun(b, r, c, run.value)
  {
    var back := Reach(b, r, c, -1, -1);
    var ahead := Reach(b, r, c, 1, 1);
    forall k1, k2 | MaximalReach(b, r, c, -1, -1, k1) && MaximalReach(b, r, c, 1, 1, k2)
      ensures k1 == back && k2 == ahead
    {
      MaximalReachUnique(b, r, c, -1, -1, k1, back);
      MaximalReachUnique(b, r, c, 1, 1, k2, ahead);
    }
    assert OnLine(b, r, c, -1, -1, back, b.cells[r][c]);
    assert OnLine(b, r, c, 1, 1, ahead, b.cells[r][c]);
    Keep(Run(r - back, c - back, r + ahead, c + ahead), leng, longEnough)
  }

  /** `findNWSE(r, c, leng)`: the maximal run through `(r, c)` from north-west (higher rows,
      lower columns) to south-east. */
  function FindNWSE(b: Board, r: int, c: int, leng: int, longEnough: LengthTest): (run: Option<Run>)
    requires Valid(b) && InRange(b.height, b.width, r, c)
    ensures forall k1, k2 :: MaximalReach(b, r, c, 1, -1, k1) && MaximalReach(b, r, c, -1, 1, k2) ==>
              run == Keep(Run(r + k1, c - k1, r - k2, c + k2), leng, longEnough)
    ensures run.Some? ==> WellFormedRun(b, r, c, run.value)
  {
    var back := Reach(b, r, c, 1, -1);
    var ahead := Reach(b, r, c, -1, 1);
    forall k1, k2 | MaximalReach(b, r, c, 1, -1, k1) && MaximalReach(b, r, c, -1, 1, k2)
      ensures k1 == back && k2 == ahead
    {
      MaximalReachUnique(b, r, c, 1, -1, k1, back);
      MaximalReachUnique(b, r, c, -1, 1, k2, ahead);
    }
    assert OnLine(b, r, c, 1, -1, back, b.cells[r][c]);
    assert OnLine(b, r, c, -1, 1, ahead, b.cells[r][c]);
    Keep(Run(r + back, c - back, r - ahead, c + ahead), leng, longEnough)
  }

  /** `findWins(r, c)`: the first of the vertical, across, SW-NE and NW-SE scans (with the
      board's streak as length) that reports a run. */
  function FindWins(b: Board, r: int, c: int, longEnough: LengthTest): (run: Option<Run>)
    requires Valid(b) && InRange(b.height, b.width, r, c)
    ensures run.None? <==>
              && FindVertical(b, r, c, b.streak, longEnough).None?
              && FindAcross(b, r, c, b.streak, longEnough).None?
              && FindSWNE(b, r, c, b.streak, longEnough).None?
              && FindNWSE(b, r, c, b.streak, longEnough).None?
    ensures FindVertical(b, r, c, b.streak, longEnough).Some? ==> run == FindVertical(b, r, c, b.streak, longEnough)
    ensures FindVertical(b, r, c, b.streak, longEnough).None? && FindAcross(b, r, c, b.streak, longEnough).Some? ==>
              run == FindAcross(b, r, c, b.streak, longEnough)
    ensures (FindVertical(b, r, c, b.streak, longEnough).None? && FindAcross(b, r, c, b.streak, longEnough).None?
             && FindSWNE(b, r, c, b.streak, longEnough).Some?) ==> run == FindSWNE(b, r, c, b.streak, longEnough)
    ensures (FindVertical(b, r, c, b.streak, longEnough).None? && FindAcross(b, r, c, b.streak, longEnough).None?
             && FindSWNE(b, r, c, b.streak, longEnough).None?) ==> run == FindNWSE(b, r, c, b.streak, longEnough)
    ensures run.Some? ==> WellFormedRun(b, r, c, run.value)
  {
    var vertical := FindVertical(b, r, c, b.streak, longEnough);
    if vertical.Some? then vertical
    else
      var across := FindAcross(b, r, c, b.streak, longEnough);
      if across.Some? then across
      else
        var swne := FindSWNE(b, r, c, b.streak, longEnough);
        if swne.Some? then swne
        else FindNWSE(b, r, c, b.streak, longEnough)
  }
}
