/** The Connect-N board of a6test.py.

    Row 0 is the TOP row: a piece dropped into a column comes to rest in the
    highest-indexed empty row of that column, and the column is full once row 0
    is occupied. The players of a6player.py are modelled on this board: it is the
    one that provides the `hasHorizontal`, `getNextRow`, `place(color, col)` and
    `undoPlace(col)` they call, although a6player.py imports and asserts the
    `Board` of a6board.py. */
module TopDownBoard {
  import opened Wrappers
  import opened Grid
  import opened Geometry

  datatype Board = Board(width: int, height: int, streak: int, grid: Cells)

  /** The invariant the constructor's assertions establish. */
  predicate Valid(b: Board) {
    && b.width > 0
    && b.height > 0
    && 0 < b.streak <= Min(b.width, b.height)
    && IsGrid(b.grid, b.height, b.width)
  }

  /** Gravity: in every column the occupied cells form a block at the bottom, so an
      occupied cell has only occupied cells below it (at higher row indices). */
  predicate Settled(b: Board)
    requires Valid(b)
  {
    forall r1, r2, c :: 0 <= r1 <= r2 < b.height && 0 <= c < b.width && b.grid[r1][c] != Nobody ==> b.grid[r2][c] != Nobody
  }

  /** The constructor `_init_(width, height, streak)`: an empty `height` x `width` board. */
  function Init(width: int, height: int, streak: int): (b: Board)
    requires width > 0 && height > 0 && 0 < streak <= Min(width, height)
    ensures Valid(b) && Settled(b)
    ensures b.width == width && b.height == height && b.streak == streak
    ensures forall r, c :: InRange(height, width, r, c) ==> b.grid[r][c] == Nobody
  {
    Board(width, height, streak, Blank(height, width))
  }

  /** `isFullColumn(col)`: the top row 0 of `col` is occupied. */
  function IsFullColumn(b: Board, col: int): (full: bool)
    requires Valid(b) && 0 <= col < b.width
    ensures Settled(b) ==> (full <==> forall r :: 0 <= r < b.height ==> b.grid[r][col] != Nobody)
  {
    b.grid[0][col] != Nobody
  }

  /** `isFullBoard()`: every column is full. */
  function IsFullBoard(b: Board): (full: bool)
    requires Valid(b)
    ensures full <==> forall col :: 0 <= col < b.width ==> IsFullColumn(b, col)
    ensures full && Settled(b) ==> forall r, c :: InRange(b.height, b.width, r, c) ==> b.grid[r][c] != Nobody
  {
    TopRowFull(b);
    forall col :: 0 <= col < b.width ==> b.grid[0][col] != Nobody
  }

  /** A full top row is a full column everywhere, and on a settled board it fills every cell. */
  lemma TopRowFull(b: Board)
    requires Valid(b)
    ensures (forall col :: 0 <= col < b.width ==> b.grid[0][col] != Nobody)
              <==> forall col :: 0 <= col < b.width ==> IsFullColumn(b, col)
    ensures (forall col :: 0 <= col < b.width ==> b.grid[0][col] != Nobody) && Settled(b) ==>
              forall r, c :: InRange(b.height, b.width, r, c) ==> b.grid[r][c] != Nobody
  {
    if forall col :: 0 <= col < b.width ==> IsFullColumn(b, col) {
      forall col | 0 <= col < b.width
        ensures b.grid[0][col] != Nobody
      {
        assert IsFullColumn(b, col);
      }
    }
    if (forall col :: 0 <= col < b.width ==> b.grid[0][col] != Nobody) && Settled(b) {
      forall r, c | InRange(b.height, b.width, r, c)
        ensures b.grid[r][c] != Nobody
      {
        assert b.grid[0][c] != Nobody;
      }
    }
  }

  /** On a settled board, a column tests full exactly when every one of its cells is occupied. */
  lemma FullColumnIsOccupied(b: Board, col: int)
    requires Valid(b) && Settled(b) && 0 <= col < b.width
    ensures IsFullColumn(b, col) <==> forall r :: 0 <= r < b.height ==> b.grid[r][col] != Nobody
  {
  }

  /** On a settled board, the board tests full exactly when no cell is empty. */
  lemma FullBoardHasNoEmptyCell(b: Board)
    requires Valid(b) && Settled(b)
    ensures IsFullBoard(b) <==> forall r, c :: InRange(b.height, b.width, r, c) ==> b.grid[r][c] != Nobody
  {
    if IsFullBoard(b) {
      forall r, c | InRange(b.height, b.width, r, c)
        ensures b.grid[r][c] != Nobody
      {
        assert IsFullColumn(b, c);
      }
    }
  }

  /** The scan of `getNextRow` from `row` upwards: the first empty cell met. */
  function NextRowFrom(b: Board, col: int, row: int): (r: int)
    requires Valid(b) && 0 <= col < b.width && 0 <= row < b.height
    requires b.grid[0][col] == Nobody
    ensures 0 <= r <= row
    ensures b.grid[r][col] == Nobody
    ensures forall k :: r < k <= row ==> b.grid[k][col] != Nobody
    decreases row
  {
    if b.grid[row][col] == Nobody then row else NextRowFrom(b, col, row - 1)
  }

  /** `getNextRow(col)`: the row a piece dropped into `col` lands in. */
  function GetNextRow(b: Board, col: int): (r: int)
    requires Valid(b) && 0 <= col < b.width && !IsFullColumn(b, col)
    ensures 0 <= r < b.height
    ensures b.grid[r][col] == Nobody
    ensures forall k :: r < k < b.height ==> b.grid[k][col] != Nobody
    ensures Settled(b) ==> forall k :: 0 <= k <= r ==> b.grid[k][col] == Nobody
  {
    NextRowFrom(b, col, b.height - 1)
  }

  /** `place(color, col)`: drops a piece of `color` into `col`. */
  function Place(b: Board, color: string, col: int): (b': Board)
    requires Valid(b) && color != Nobody && 0 <= col < b.width && !IsFullColumn(b, col)
    ensures Valid(b') && b'.width == b.width && b'.height == b.height && b'.streak == b.streak
    ensures b'.grid[GetNextRow(b, col)][col] == color
    ensures forall r, c :: InRange(b.height, b.width, r, c) && (r != GetNextRow(b, col) || c != col) ==> b'.grid[r][c] == b.grid[r][c]
    ensures Settled(b) ==> Settled(b')
  {
    var row := GetNextRow(b, col);
    var b' := b.(grid := Set(b.grid, row, col, color));
    assert Settled(b) ==> Settled(b') by {
      if Settled(b) {
        forall r1, r2, c | 0 <= r1 <= r2 < b.height && 0 <= c < b.width && b'.grid[r1][c] != Nobody
          ensures b'.grid[r2][c] != Nobody
        {
          if c == col && r1 != row {
            assert b.grid[r1][c] != Nobody;
          }
        }
      }
    }
    b'
  }

  /** The scan of `undoPlace` from `row` downwards: the first occupied cell of `col`. */
  function TopFrom(b: Board, col: int, row: int): (top: Option<int>)
    requires Valid(b) && 0 <= col < b.width && 0 <= row <= b.height
    ensures top.None? ==> forall k :: row <= k < b.height ==> b.grid[k][col] == Nobody
    ensures top.Some? ==> row <= top.value < b.height && b.grid[top.value][col] != Nobody
    ensures top.Some? ==> forall k :: row <= k < top.value ==> b.grid[k][col] == Nobody
    decreases b.height - row
  {
    if row == b.height then None
    else if b.grid[row][col] != Nobody then Some(row)
    else TopFrom(b, col, row + 1)
  }

  /** `undoPlace(col)`: removes the topmost piece (lowest row index) of `col`, if any. */
  function UndoPlace(b: Board, col: int): (b': Board)
    requires Valid(b) && 0 <= col < b.width
    ensures Valid(b') && b'.width == b.width && b'.height == b.height && b'.streak == b.streak
    ensures (forall r :: 0 <= r < b.height ==> b.grid[r][col] == Nobody) ==> b' == b
    ensures forall r :: 0 <= r < b.height && b.grid[r][col] != Nobody && (forall k :: 0 <= k < r ==> b.grid[k][col] == Nobody) ==>
              b'.grid == Set(b.grid, r, col, Nobody)
    ensures Settled(b) ==> Settled(b')
  {
    match TopFrom(b, col, 0)
    case None => b
    case Some(row) =>
      var b' := b.(grid := Set(b.grid, row, col, Nobody));
      assert Settled(b) ==> Settled(b') by {
        if Settled(b) {
          forall r1, r2, c | 0 <= r1 <= r2 < b.height && 0 <= c < b.width && b'.grid[r1][c] != Nobody
            ensures b'.grid[r2][c] != Nobody
          {
            assert b.grid[r1][c] != Nobody;
            if c == col {
              assert row < r1;
            }
          }
        }
      }
      b'
  }

  /** Placing a piece and taking it back from the same column restores the board,
      provided the board obeys gravity. */
  lemma PlaceUndoRoundTrip(b: Board, color: string, col: int)
    requires Valid(b) && Settled(b) && color != Nobody && 0 <= col < b.width && !IsFullColumn(b, col)
    ensures UndoPlace(Place(b, color, col), col) == b
  {
    var row := GetNextRow(b, col);
    var p := Place(b, color, col);
    assert p.grid == Set(b.grid, row, col, color);
    assert forall k :: 0 <= k < row ==> p.grid[k][col] == Nobody;
    assert UndoPlace(p, col).grid == Set(p.grid, row, col, Nobody);
    SetSet(b.grid, row, col, color, Nobody);
    SetSame(b.grid, row, col);
  }

  /** The `s` cells starting at `(r, c)` and stepping by `(dr, dc)` all hold `color`, and
      the last of them is on the board. */
  predicate RunOf(b: Board, color: string, r: int, c: int, dr: int, dc: int, s: int)
    requires Valid(b) && IsStep(dr) && IsStep(dc) && InRange(b.height, b.width, r, c)
  {
    && InRange(b.height, b.width, r + Offset(s - 1, dr), c + Offset(s - 1, dc))
    && forall i :: 0 <= i < s ==> b.grid[r + Offset(i, dr)][c + Offset(i, dc)] == color
  }

  /** The loop of `_checkRun` from step `i` on. */
  function MatchFrom(b: Board, color: string, r: int, c: int, dr: int, dc: int, i: int, s: int): bool
    requires Valid(b) && IsStep(dr) && IsStep(dc) && InRange(b.height, b.width, r, c) && 0 <= i
    requires InRange(b.height, b.width, r + Offset(s - 1, dr), c + Offset(s - 1, dc))
    decreases s - i
  {
    if i >= s then true
    else b.grid[r + Offset(i, dr)][c + Offset(i, dc)] == color && MatchFrom(b, color, r, c, dr, dc, i + 1, s)
  }

  /** The loop succeeds exactly when every remaining cell holds `color`. */
  lemma {:induction false} MatchFromSpec(b: Board, color: string, r: int, c: int, dr: int, dc: int, i: int, s: int)
    requires Valid(b) && IsStep(dr) && IsStep(dc) && InRange(b.height, b.width, r, c) && 0 <= i
    requires InRange(b.height, b.width, r + Offset(s - 1, dr), c + Offset(s - 1, dc))
    ensures MatchFrom(b, color, r, c, dr, dc, i, s) <==>
              forall k :: i <= k < s ==> b.grid[r + Offset(k, dr)][c + Offset(k, dc)] == color
    decreases s - i
  {
    if i < s {
      MatchFromSpec(b, color, r, c, dr, dc, i + 1, s);
    }
  }

  /** `_checkRun(color, r, c, dr, dc, streak)`: the run of `s` cells from `(r, c)`, or `None`. */
  function CheckRun(b: Board, color: string, r: int, c: int, dr: int, dc: int, s: int): (run: Option<Run>)
    requires Valid(b) && IsStep(dr) && IsStep(dc) && InRange(b.height, b.width, r, c)
    ensures run.Some? ==> run.value.r1 == r && run.value.c1 == c
    ensures run.Some? ==> InRange(b.height, b.width, run.value.r2, run.value.c2)
    ensures run.Some? && s >= 1 ==> b.grid[r][c] == color
  {
    var endR := r + Offset(s - 1, dr);
    var endC := c + Offset(s - 1, dc);
    if !InRange(b.height, b.width, endR, endC) then None
    else if !MatchFrom(b, color, r, c, dr, dc, 0, s) then None
    else Some(Run(r, c, endR, endC))
  }

  /** `_checkRun` reports a run exactly when its `s` cells hold `color` and end on the board,
      and the run it reports goes from `(r, c)` to the last of those cells. */
  lemma CheckRunSpec(b: Board, color: string, r: int, c: int, dr: int, dc: int, s: int)
    requires Valid(b) && IsStep(dr) && IsStep(dc) && InRange(b.height, b.width, r, c)
    ensures CheckRun(b, color, r, c, dr, dc, s).Some? <==> RunOf(b, color, r, c, dr, dc, s)
    ensures CheckRun(b, color, r, c, dr, dc, s).Some? ==>
              CheckRun(b, color, r, c, dr, dc, s).value == Run(r, c, r + Offset(s - 1, dr), c + Offset(s - 1, dc))
  {
    if InRange(b.height, b.width, r + Offset(s - 1, dr), c + Offset(s - 1, dc)) {
      MatchFromSpec(b, color, r, c, dr, dc, 0, s);
    }
  }

  /** The four scan directions of `hasHorizontal`, `hasVertical`, `hasDiagonal1` (south-west
      to north-east) and `hasDiagonal2` (north-west to south-east), in that order. */
  datatype Direction = Horizontal | Vertical | Diagonal1 | Diagonal2 {
    function Dr(): int {
      match this
      case Horizontal => 0
      case Vertical => 1
      case Diagonal1 => -1
      case Diagonal2 => 1
    }

    function Dc(): int {
      match this
      case Horizontal => 1
      case Vertical => 0
      case Diagonal1 => 1
      case Diagonal2 => 1
    }
  }

  /** `hasHorizontal`, `hasVertical`, `hasDiagonal1` and `hasDiagonal2`. */
  function Has(b: Board, color: string, r: int, c: int, d: Direction, s: int): (run: Option<Run>)
    requires Valid(b) && InRange(b.height, b.width, r, c)
    ensures run.Some? <==> RunOf(b, color, r, c, d.Dr(), d.Dc(), s)
  {
    CheckRunSpec(b, color, r, c, d.Dr(), d.Dc(), s);
    CheckRun(b, color, r, c, d.Dr(), d.Dc(), s)
  }

  /** Every run of `s >= 1` cells that `_checkRun` reports starts at `(r, c)`, has both ends
      on the board, and its ends are between `s - 1` and `2 * (s - 1)` apart under `dist`. */
  lemma CheckRunEndsOnBoard(b: Board, color: string, r: int, c: int, d: Direction, s: int)
    requires Valid(b) && InRange(b.height, b.width, r, c) && s >= 1
    requires Has(b, color, r, c, d, s).Some?
    ensures var run := Has(b, color, r, c, d, s).value;
      && run.r1 == r && run.c1 == c
      && InRange(b.height, b.width, run.r2, run.c2)
      && s - 1 <= Dist(run.r1, run.c1, run.r2, run.c2) <= 2 * (s - 1)
  {
    var run := Has(b, color, r, c, d, s).value;
    assert run.r2 == r + Offset(s - 1, d.Dr()) && run.c2 == c + Offset(s - 1, d.Dc());
  }
}
