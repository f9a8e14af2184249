/** The players of a6player.py: a human `Player`, the `AIPlayer` that scores every legal
    column by trying it on the board of a6test.py, and the validity helpers. */
module Players {
  import opened Wrappers
  import opened Text
  import opened Grid
  import opened Geometry
  import opened PyValues
  import opened TopDownBoard

  /** `SCORE_WIN` and `SCORE_BAD` of a6consts.py. */
  const ScoreWin: int := 999999
  const ScoreBad: int := 0

  /** Which class a player is an instance of: `Player`, `AIPlayer` or `BetterAIPlayer`. */
  datatype Kind = Human | AI | BetterAI

  datatype Player = Player(color: string, name: string, kind: Kind)

  /** The name `setName(value)` stores for a player of colour `color`. */
  function NameFor(color: string, value: string): (name: string)
    ensures |name| > 0
    ensures value != "" ==> name == value
    ensures value == "" ==> |name| == |color| + 7 && name[..|color|] == Capitalize(color) && name[|color|..] == " player"
  {
    if value == "" then Capitalize(color) + " player" else value
  }

  /** `setName(value)`. */
  function SetName(p: Player, value: string): (p': Player)
    ensures p'.color == p.color && p'.kind == p.kind && |p'.name| > 0
    ensures value != "" ==> p'.name == value
    ensures value == "" ==> p'.name == Capitalize(p.color) + " player"
  {
    p.(name := NameFor(p.color, value))
  }

  /** The constructor `_init_(color, name)` of the class of the given kind. */
  function NewPlayer(color: string, name: string, kind: Kind): (p: Player)
    ensures p.color == color && p.kind == kind && |p.name| > 0
    ensures name != "" ==> p.name == name
  {
    SetName(Player(color, "", kind), name)
  }

  /** Every player has a non-empty name, so giving a player back its own name changes nothing. */
  lemma SetOwnNameIsIdentity(color: string, value: string, kind: Kind)
    ensures var p := NewPlayer(color, value, kind); SetName(p, p.name) == p
  {
  }

  // ---------------------------------------------------------------------------
  // AIPlayer
  // ---------------------------------------------------------------------------

  /** `_scoreRun(board, run)`: `SCORE_BAD` for no run, otherwise the `dist` between its ends. */
  function ScoreRun(run: Option<Run>): (score: nat)
    ensures run.None? ==> score == ScoreBad
    ensures run.Some? ==> score == Dist(run.value.r2, run.value.c2, run.value.r1, run.value.c1)
    ensures run.Some? ==> (score == 0 <==> run.value.r1 == run.value.r2 && run.value.c1 == run.value.c2)
  {
    match run
    case None => ScoreBad
    case Some(x) => Dist(x.r1, x.c1, x.r2, x.c2)
  }

  /** A run of `s >= 1` pieces scores at least `s - 1` and at most `2 * (s - 1)`; a missing
      run scores `SCORE_BAD`. */
  lemma ScoreRunBounds(b: Board, color: string, r: int, c: int, d: Direction, s: int)
    requires Valid(b) && InRange(b.height, b.width, r, c) && s >= 1
    ensures ScoreRun(Has(b, color, r, c, d, s)) <= 2 * (s - 1)
    ensures Has(b, color, r, c, d, s).Some? ==> s - 1 <= ScoreRun(Has(b, color, r, c, d, s))
    ensures Has(b, color, r, c, d, s).None? ==> ScoreRun(Has(b, color, r, c, d, s)) == ScoreBad
  {
    if Has(b, color, r, c, d, s).Some? {
      CheckRunEndsOnBoard(b, color, r, c, d, s);
    }
  }

  /** The `n`-th of the four directions `_evaluate` tries for each run length. */
  function NthDirection(n: int): Direction
    requires 1 <= n <= 4
  {
    if n == 1 then Horizontal else if n == 2 then Vertical else if n == 3 then Diagonal1 else Diagonal2
  }

  /** The best score of the first `n` directions for runs of exactly `s` pieces at `(r, c)`,
      folded with `max` in the order they are tried. */
  function BestOf(b: Board, color: string, r: int, c: int, s: int, n: nat): nat
    requires Valid(b) && InRange(b.height, b.width, r, c) && n <= 4
  {
    if n == 0 then 0 else Max(BestOf(b, color, r, c, s, n - 1), ScoreRun(Has(b, color, r, c, NthDirection(n), s)))
  }

  /** The best score of the four directions for runs of exactly `s` pieces at `(r, c)`. */
  function DirScore(b: Board, color: string, r: int, c: int, s: int): nat
    requires Valid(b) && InRange(b.height, b.width, r, c)
  {
    BestOf(b, color, r, c, s, 4)
  }

  /** `DirScore` written out: the four directions folded with `max`. */
  lemma DirScoreCases(b: Board, color: string, r: int, c: int, s: int)
    requires Valid(b) && InRange(b.height, b.width, r, c)
    ensures DirScore(b, color, r, c, s) ==
              Max(Max(Max(ScoreRun(Has(b, color, r, c, Horizontal, s)), ScoreRun(Has(b, color, r, c, Vertical, s))),
                      ScoreRun(Has(b, color, r, c, Diagonal1, s))),
                  ScoreRun(Has(b, color, r, c, Diagonal2, s)))
  {
    assert BestOf(b, color, r, c, s, 1) == ScoreRun(Has(b, color, r, c, Horizontal, s));
    assert BestOf(b, color, r, c, s, 2) == Max(BestOf(b, color, r, c, s, 1), ScoreRun(Has(b, color, r, c, Vertical, s)));
    assert BestOf(b, color, r, c, s, 3) == Max(BestOf(b, color, r, c, s, 2), ScoreRun(Has(b, color, r, c, Diagonal1, s)));
  }

  /** Each direction's score for runs of `s` pieces is at most their best. */
  lemma DirScoreCovers(b: Board, color: string, r: int, c: int, s: int, d: Direction)
    requires Valid(b) && InRange(b.height, b.width, r, c)
    ensures ScoreRun(Has(b, color, r, c, d, s)) <= DirScore(b, color, r, c, s)
  {
    DirScoreCases(b, color, r, c, s);
    match d
    case Horizontal =>
    case Vertical =>
    case Diagonal1 =>
    case Diagonal2 =>
  }

  /** The best score of any direction for any run length in `lo..hi`; 0 when there is none. */
  function MaxFrom(b: Board, color: string, r: int, c: int, lo: int, hi: int): nat
    requires Valid(b) && InRange(b.height, b.width, r, c)
    decreases hi - lo
  {
    if lo > hi then 0 else Max(DirScore(b, color, r, c, lo), MaxFrom(b, color, r, c, lo + 1, hi))
  }

  /** Runs of `s >= 1` pieces score at most `2 * (s - 1)` in every direction. */
  lemma DirScoreAtMost(b: Board, color: string, r: int, c: int, s: int)
    requires Valid(b) && InRange(b.height, b.width, r, c) && s >= 1
    ensures DirScore(b, color, r, c, s) <= 2 * (s - 1)
  {
    DirScoreCases(b, color, r, c, s);
    ScoreRunBounds(b, color, r, c, Horizontal, s);
    ScoreRunBounds(b, color, r, c, Vertical, s);
    ScoreRunBounds(b, color, r, c, Diagonal1, s);
    ScoreRunBounds(b, color, r, c, Diagonal2, s);
  }

  /** A step of the upper-bound proofs below, which fold `max` over the four directions: a
      bound on both scores bounds their `max`. */
  lemma MaxBelow(x: int, y: int, bound: int)
    requires x <= bound && y <= bound
    ensures Max(x, y) <= bound
  {
  }

  /** `MaxFrom` is an upper bound of the score of a run of any length in its range. */
  lemma {:induction false} MaxFromCovers(b: Board, color: string, r: int, c: int, lo: int, hi: int, s: int, d: Direction)
    requires Valid(b) && InRange(b.height, b.width, r, c) && lo <= s <= hi
    ensures ScoreRun(Has(b, color, r, c, d, s)) <= MaxFrom(b, color, r, c, lo, hi)
    decreases hi - lo
  {
    MaxFromStep(b, color, r, c, lo, hi);
    if s == lo {
      DirScoreCovers(b, color, r, c, lo, d);
    } else {
      MaxFromCovers(b, color, r, c, lo + 1, hi, s, d);
    }
  }

  /** `MaxFrom` is an upper bound of every run score in its range. */
  lemma MaxFromCoversAll(b: Board, color: string, r: int, c: int, lo: int, hi: int)
    requires Valid(b) && InRange(b.height, b.width, r, c)
    ensures forall s, d :: lo <= s <= hi ==> ScoreRun(Has(b, color, r, c, d, s)) <= MaxFrom(b, color, r, c, lo, hi)
  {
    forall s, d | lo <= s <= hi
      ensures ScoreRun(Has(b, color, r, c, d, s)) <= MaxFrom(b, color, r, c, lo, hi)
    {
      MaxFromCovers(b, color, r, c, lo, hi, s, d);
    }
  }

  /** Runs of at most `hi` pieces never score more than `2 * (hi - 1)`. */
  lemma {:induction false} MaxFromAtMost(b: Board, color: string, r: int, c: int, lo: int, hi: int)
    requires Valid(b) && InRange(b.height, b.width, r, c) && lo >= 1
    ensures MaxFrom(b, color, r, c, lo, hi) <= Max(0, 2 * (hi - 1))
    decreases hi - lo
  {
    if lo <= hi {
      MaxFromAtMost(b, color, r, c, lo + 1, hi);
      DirScoreAtMost(b, color, r, c, lo);
      MaxBelow(DirScore(b, color, r, c, lo), MaxFrom(b, color, r, c, lo + 1, hi), Max(0, 2 * (hi - 1)));
    }
  }

  /** One of the first `n` directions holds a full streak of `color` starting at `(r, c)`. */
  predicate WinAmong(b: Board, color: string, r: int, c: int, n: nat)
    requires Valid(b) && InRange(b.height, b.width, r, c) && n <= 4
  {
    n > 0 && (WinAmong(b, color, r, c, n - 1) || Has(b, color, r, c, NthDirection(n), b.streak).Some?)
  }

  /** Some direction holds a full streak of `color` starting at `(r, c)`. */
  predicate HasWin(b: Board, color: string, r: int, c: int)
    requires Valid(b) && InRange(b.height, b.width, r, c)
  {
    WinAmong(b, color, r, c, 4)
  }

  /** `HasWin` written out: one of the four directions holds a full streak. */
  lemma HasWinCases(b: Board, color: string, r: int, c: int)
    requires Valid(b) && InRange(b.height, b.width, r, c)
    ensures HasWin(b, color, r, c) <==>
              || Has(b, color, r, c, Horizontal, b.streak).Some?
              || Has(b, color, r, c, Vertical, b.streak).Some?
              || Has(b, color, r, c, Diagonal1, b.streak).Some?
              || Has(b, color, r, c, Diagonal2, b.streak).Some?
  {
    assert WinAmong(b, color, r, c, 1) == Has(b, color, r, c, Horizontal, b.streak).Some?;
    assert WinAmong(b, color, r, c, 2) == (WinAmong(b, color, r, c, 1) || Has(b, color, r, c, Vertical, b.streak).Some?);
    assert WinAmong(b, color, r, c, 3) == (WinAmong(b, color, r, c, 2) || Has(b, color, r, c, Diagonal1, b.streak).Some?);
  }

  /** The score `_evaluate` should give the piece at `(r, c)`: `SCORE_WIN` for a winning
      streak, otherwise the best run score of any length and direction, but at least 1. */
  function Score(b: Board, color: string, r: int, c: int): (score: int)
    requires Valid(b) && InRange(b.height, b.width, r, c)
    ensures HasWin(b, color, r, c) ==> score == ScoreWin
    ensures !HasWin(b, color, r, c) ==> 1 <= score <= Max(1, 2 * (b.streak - 1))
    ensures !HasWin(b, color, r, c) ==>
              forall s, d :: 1 <= s <= b.streak ==> ScoreRun(Has(b, color, r, c, d, s)) <= score
  {
    if HasWin(b, color, r, c) then ScoreWin
    else
      MaxFromCoversAll(b, color, r, c, 1, b.streak);
      MaxFromAtMost(b, color, r, c, 1, b.streak);
      Max(1, MaxFrom(b, color, r, c, 1, b.streak))
  }

  /** On any board the game can be played on (at most 20 columns, see consts.py), a move
      scores `SCORE_WIN` exactly when it completes a streak. */
  lemma WinScoreMeansWin(b: Board, color: string, r: int, c: int)
    requires Valid(b) && InRange(b.height, b.width, r, c) && b.streak <= 20
    ensures Score(b, color, r, c) == ScoreWin <==> HasWin(b, color, r, c)
  {
  }

  /** `_evaluate(board, r, c)`: run lengths from the streak down to 1, each in the four
      directions, returning `SCORE_WIN` as soon as a full streak is found. */
  method Evaluate(b: Board, color: string, r: int, c: int) returns (score: int)
    requires Valid(b) && InRange(b.height, b.width, r, c)
    ensures HasWin(b, color, r, c) ==> score == ScoreWin
    ensures !HasWin(b, color, r, c) ==> score == Max(1, MaxFrom(b, color, r, c, 1, b.streak))
  {
    score := EvaluateFrom(b, color, r, c, b.streak, ScoreBad);
  }

  /** The loop `for s in range(streak, 0, -1)` of `_evaluate` from run length `s` down, with
      `best` the best score of the longer runs. */
  method EvaluateFrom(b: Board, color: string, r: int, c: int, s: int, best: int) returns (score: int)
    requires Valid(b) && InRange(b.height, b.width, r, c) && 0 <= s <= b.streak
    requires best == MaxFrom(b, color, r, c, s + 1, b.streak)
    requires s < b.streak ==> !HasWin(b, color, r, c)
    ensures HasWin(b, color, r, c) ==> score == ScoreWin
    ensures !HasWin(b, color, r, c) ==> score == Max(1, MaxFrom(b, color, r, c, 1, b.streak))
    decreases s
  {
    if s == 0 {
      return if best > 0 then best else 1;
    }
    var best', win := EvaluateLength(b, color, r, c, s, best);
    if win {
      return ScoreWin;
    }
    score := EvaluateFrom(b, color, r, c, s - 1, best');
  }

  /** One iteration of the loop of `_evaluate`: the four directions for runs of `s` pieces,
      in order, stopping at a winning streak; otherwise `best` grows by their best score. */
  method EvaluateLength(b: Board, color: string, r: int, c: int, s: int, best: int) returns (best': int, win: bool)
    requires Valid(b) && InRange(b.height, b.width, r, c) && 0 < s <= b.streak
    requires best == MaxFrom(b, color, r, c, s + 1, b.streak)
    requires s < b.streak ==> !HasWin(b, color, r, c)
    ensures win <==> s == b.streak && HasWin(b, color, r, c)
    ensures !win ==> best' == MaxFrom(b, color, r, c, s, b.streak) && !HasWin(b, color, r, c)
  {
    HasWinCases(b, color, r, c);
    best' := best;
    var run := Has(b, color, r, c, Horizontal, s);
    if run.Some? && s == b.streak {
      return best', true;
    }
    best' := Max(best', ScoreRun(run));

    run := Has(b, color, r, c, Vertical, s);
    if run.Some? && s == b.streak {
      return best', true;
    }
    best' := Max(best', ScoreRun(run));

    run := Has(b, color, r, c, Diagonal1, s);
    if run.Some? && s == b.streak {
      return best', true;
    }
    best' := Max(best', ScoreRun(run));

    run := Has(b, color, r, c, Diagonal2, s);
    if run.Some? && s == b.streak {
      return best', true;
    }
    best' := Max(best', ScoreRun(run));
    FoldDirections(b, color, r, c, s, best);
    MaxFromStep(b, color, r, c, s, b.streak);
    win := false;
  }

  lemma MaxFromStep(b: Board, color: string, r: int, c: int, lo: int, hi: int)
    requires Valid(b) && InRange(b.height, b.width, r, c) && lo <= hi
    ensures MaxFrom(b, color, r, c, lo, hi) == Max(DirScore(b, color, r, c, lo), MaxFrom(b, color, r, c, lo + 1, hi))
  {
  }

  /** `Score` by cases, as `_evaluate` computes it. */
  lemma ScoreCases(b: Board, color: string, r: int, c: int)
    requires Valid(b) && InRange(b.height, b.width, r, c)
    ensures Score(b, color, r, c) == if HasWin(b, color, r, c) then ScoreWin else Max(1, MaxFrom(b, color, r, c, 1, b.streak))
  {
  }

  /** Folding `max` over the four directions' scores, one at a time onto `before`, gives the
      best of `before` and the best direction. */
  lemma FoldDirections(b: Board, color: string, r: int, c: int, s: int, before: int)
    requires Valid(b) && InRange(b.height, b.width, r, c)
    ensures Max(Max(Max(Max(before, ScoreRun(Has(b, color, r, c, Horizontal, s))), ScoreRun(Has(b, color, r, c, Vertical, s))),
                    ScoreRun(Has(b, color, r, c, Diagonal1, s))), ScoreRun(Has(b, color, r, c, Diagonal2, s)))
            == Max(DirScore(b, color, r, c, s), before)
  {
    DirScoreCases(b, color, r, c, s);
    MaxRegroup(before, ScoreRun(Has(b, color, r, c, Horizontal, s)), ScoreRun(Has(b, color, r, c, Vertical, s)),
               ScoreRun(Has(b, color, r, c, Diagonal1, s)), ScoreRun(Has(b, color, r, c, Diagonal2, s)));
  }

  /** Folding `max` over five values one at a time gives the same result as grouping the last four.
      `_evaluate` folds the four directions into its running best one at a time, while the
      reference score takes the best of the four first; this lemma is the step between the two. */
  lemma MaxRegroup(a: int, h: int, v: int, d1: int, d2: int)
    ensures Max(Max(Max(Max(a, h), v), d1), d2) == Max(Max(Max(Max(h, v), d1), d2), a)
  {
  }

  /** A column the AI may play: on the board and not full. */
  predicate Legal(b: Board, col: int)
    requires Valid(b)
  {
    0 <= col < b.width && !IsFullColumn(b, col)
  }

  /** One item of the dict of moves the AI builds: a column and its score. */
  datatype Entry = Entry(col: int, score: int)

  /** A Python dict of moves, as its items in insertion order (the order `for col in moves`
      visits them). */
  type Moves = seq<Entry>

  /** The keys of a dict of moves, in order. */
  function Cols(moves: Moves): (cols: seq<int>)
    ensures |cols| == |moves|
    ensures forall i :: 0 <= i < |moves| ==> cols[i] == moves[i].col
  {
    seq(|moves|, i requires 0 <= i < |moves| => moves[i].col)
  }

  /** Adding an item at the end adds its key at the end. */
  lemma ColsAppend(moves: Moves, e: Entry)
    ensures Cols(moves + [e]) == Cols(moves) + [e.col]
  {
    assert forall i :: 0 <= i < |moves| ==> (moves + [e])[i] == moves[i];
  }

  /** Dict keys are distinct. */
  predicate DistinctCols(moves: Moves) {
    forall i, j :: 0 <= i < j < |moves| ==> moves[i].col != moves[j].col
  }

  /** The columns appear in ascending order, as `_gatherMoves` inserts them. */
  predicate Ascending(cols: seq<int>) {
    forall i, j :: 0 <= i < j < |cols| ==> cols[i] < cols[j]
  }

  /** `s` is at least every score of `moves`. */
  predicate IsTop(moves: Moves, s: int) {
    forall j :: 0 <= j < |moves| ==> moves[j].score <= s
  }

  /** `_gatherMoves(board)`: every column that is not full, in ascending order, with the
      score `SCORE_BAD`. */
  method GatherMoves(b: Board) returns (moves: Moves)
    requires Valid(b)
    ensures Ascending(Cols(moves)) && DistinctCols(moves)
    ensures forall col :: col in Cols(moves) <==> Legal(b, col)
    ensures forall i :: 0 <= i < |moves| ==> moves[i].score == ScoreBad
  {
    moves := [];
    var col := 0;
    while col < b.width
      invariant 0 <= col <= b.width
      invariant Ascending(Cols(moves))
      invariant forall i :: 0 <= i < |moves| ==> moves[i].col < col
      invariant forall k :: k in Cols(moves) <==> 0 <= k < col && Legal(b, k)
      invariant forall i :: 0 <= i < |moves| ==> moves[i].score == ScoreBad
    {
      if !IsFullColumn(b, col) {
        GatherStep(b, moves, col);
        moves := moves + [Entry(col, ScoreBad)];
      }
      col := col + 1;
    }
  }

  /** Appending a legal column greater than every key keeps the keys ascending and adds
      exactly that column. */
  lemma GatherStep(b: Board, moves: Moves, col: int)
    requires Valid(b) && Legal(b, col)
    requires Ascending(Cols(moves)) && forall i :: 0 <= i < |moves| ==> moves[i].col < col
    requires forall k :: k in Cols(moves) <==> 0 <= k < col && Legal(b, k)
    ensures Ascending(Cols(moves + [Entry(col, ScoreBad)]))
    ensures forall k :: k in Cols(moves + [Entry(col, ScoreBad)]) <==> 0 <= k < col + 1 && Legal(b, k)
  {
    ColsAppend(moves, Entry(col, ScoreBad));
    var keys := Cols(moves) + [col];
    forall i, j | 0 <= i < j < |keys|
      ensures keys[i] < keys[j]
    {
      if j == |moves| {
        assert keys[i] == moves[i].col;
      }
    }
    forall k
      ensures k in keys <==> 0 <= k < col + 1 && Legal(b, k)
    {
      assert k in keys <==> k in Cols(moves) || k == col;
    }
  }

  /** The score the AI gives column `col`: that of the piece it would land in `col`. */
  function ColumnScore(b: Board, color: string, col: int): (score: int)
    requires Valid(b) && color != Nobody && Legal(b, col)
    ensures HasWin(Place(b, color, col), color, GetNextRow(b, col), col) ==> score == ScoreWin
    ensures score >= 1
  {
    Score(Place(b, color, col), color, GetNextRow(b, col), col)
  }

  /** `_evaluateMoves(board, moves)`: scores every key by placing a piece there, evaluating
      it, and taking it back; the keys and the board end as they started. */
  method EvaluateMoves(b: Board, color: string, moves: Moves) returns (after: Board, scored: Moves)
    requires Valid(b) && Settled(b) && color != Nobody
    requires forall i :: 0 <= i < |moves| ==> Legal(b, moves[i].col)
    ensures after == b
    ensures Cols(scored) == Cols(moves)
    ensures forall i :: 0 <= i < |scored| ==> scored[i].score == ColumnScore(b, color, scored[i].col)
  {
    after := b;
    scored := moves;
    var i := 0;
    while i < |moves|
      invariant 0 <= i <= |moves|
      invariant after == b
      invariant |scored| == |moves|
      invariant forall j :: 0 <= j < |moves| ==> scored[j].col == moves[j].col
      invariant forall j :: 0 <= j < i ==> scored[j].score == ColumnScore(b, color, scored[j].col)
    {
      var col := moves[i].col;
      var score;
      after, score := ScoreColumn(after, color, col);
      scored := scored[i := Entry(col, score)];
      i := i + 1;
    }
  }

  /** The body of the loop of `_evaluateMoves` for one key: place a piece in `col`, evaluate
      it, take it back. The board ends as it started. */
  method ScoreColumn(b: Board, color: string, col: int) returns (after: Board, score: int)
    requires Valid(b) && Settled(b) && color != Nobody && Legal(b, col)
    ensures after == b
    ensures score == ColumnScore(b, color, col)
  {
    var row := GetNextRow(b, col);
    after := Place(b, color, col);
    score := Evaluate(after, color, row, col);
    ScoreCases(after, color, row, col);
    PlaceUndoRoundTrip(b, color, col);
    after := UndoPlace(after, col);
  }

  /** `max(moves.values())` of a non-empty dict: a score some item has, and at least every
      item's score. */
  method MaxScore(moves: Moves) returns (maxScore: int, ghost top: int)
    requires |moves| > 0
    ensures 0 <= top < |moves| && moves[top].score == maxScore
    ensures IsTop(moves, maxScore)
  {
    maxScore := moves[0].score;
    top := 0;
    var i := 1;
    while i < |moves|
      invariant 1 <= i <= |moves|
      invariant 0 <= top < |moves| && moves[top].score == maxScore
      invariant forall j :: 0 <= j < i ==> moves[j].score <= maxScore
    {
      if moves[i].score > maxScore {
        top := i;
      }
      maxScore := Max(maxScore, moves[i].score);
      i := i + 1;
    }
  }

  /** The loop of `_findBestMoves`: the keys, in dict order, whose score is `target`. */
  method KeysScoring(moves: Moves, target: int) returns (keys: seq<int>)
    requires DistinctCols(moves)
    ensures forall k :: k in keys ==> k in Cols(moves)
    ensures forall i :: 0 <= i < |moves| ==> (moves[i].col in keys <==> moves[i].score == target)
    ensures Ascending(Cols(moves)) ==> Ascending(keys)
  {
    keys := [];
    ghost var from: seq<int> := [];
    var i := 0;
    while i < |moves|
      invariant 0 <= i <= |moves|
      invariant PickedFrom(moves, target, keys, from)
      invariant forall n :: 0 <= n < |keys| ==> from[n] < i
      invariant forall j :: 0 <= j < i && moves[j].score == target ==> moves[j].col in keys
    {
      if moves[i].score == target {
        keys := keys + [moves[i].col];
        from := from + [i];
      }
      i := i + 1;
    }
    PickedAreKeys(moves, target, keys, from);
    PickedAreScoring(moves, target, keys, from);
    if Ascending(Cols(moves)) {
      PickedKeepOrder(moves, target, keys, from);
    }
  }

  /** The positions `from` of the items that `_findBestMoves` picked for the keys `keys`:
      increasing, and each naming an item that scores `target` under that key. */
  predicate PickedFrom(moves: Moves, target: int, keys: seq<int>, from: seq<int>) {
    && |from| == |keys|
    && (forall n :: 0 <= n < |keys| ==> 0 <= from[n] < |moves| && moves[from[n]].col == keys[n] && moves[from[n]].score == target)
    && (forall n, m :: 0 <= n < m < |keys| ==> from[n] < from[m])
  }

  /** Keys picked from the items of a dict are keys of the dict. */
  lemma PickedAreKeys(moves: Moves, target: int, keys: seq<int>, from: seq<int>)
    requires PickedFrom(moves, target, keys, from)
    ensures forall k :: k in keys ==> k in Cols(moves)
  {
    forall k | k in keys
      ensures k in Cols(moves)
    {
      var n :| 0 <= n < |keys| && keys[n] == k;
      assert Cols(moves)[from[n]] == k;
    }
  }

  /** Keys picked from the items scoring `target`, covering all of them, are exactly the keys
      scoring `target`, since the keys of a dict are distinct. */
  lemma PickedAreScoring(moves: Moves, target: int, keys: seq<int>, from: seq<int>)
    requires DistinctCols(moves) && PickedFrom(moves, target, keys, from)
    requires forall j :: 0 <= j < |moves| && moves[j].score == target ==> moves[j].col in keys
    ensures forall i :: 0 <= i < |moves| ==> (moves[i].col in keys <==> moves[i].score == target)
  {
    forall j | 0 <= j < |moves| && moves[j].col in keys
      ensures moves[j].score == target
    {
      var n :| 0 <= n < |keys| && keys[n] == moves[j].col;
      assert moves[from[n]].col == moves[j].col;
    }
  }

  /** Keys picked from increasing positions keep the dict's order. */
  lemma PickedKeepOrder(moves: Moves, target: int, keys: seq<int>, from: seq<int>)
    requires PickedFrom(moves, target, keys, from) && Ascending(Cols(moves))
    ensures Ascending(keys)
  {
    forall n, m | 0 <= n < m < |keys|
      ensures keys[n] < keys[m]
    {
      assert Cols(moves)[from[n]] == keys[n] && Cols(moves)[from[m]] == keys[m];
    }
  }

  /** `_findBestMoves(board, moves)`: the keys, in dict order, whose score is the maximum
      score; `max` of an empty dict raises `ValueError`. */
  method FindBestMoves(moves: Moves) returns (best: Result<seq<int>>)
    requires DistinctCols(moves)
    ensures |moves| == 0 <==> best.Fail?
    ensures best.Fail? ==> best.fault == ValueError
    ensures best.Ok? ==> |best.value| > 0
    ensures best.Ok? ==> forall k :: k in best.value ==> k in Cols(moves)
    ensures best.Ok? ==> forall i :: 0 <= i < |moves| ==> (moves[i].col in best.value <==> IsTop(moves, moves[i].score))
    ensures best.Ok? && Ascending(Cols(moves)) ==> Ascending(best.value)
  {
    if |moves| == 0 {
      return Fail(ValueError);
    }
    var maxScore, top := MaxScore(moves);
    var keys := KeysScoring(moves, maxScore);
    assert moves[top].col in keys;
    return Ok(keys);
  }

  /** An item of a fully scored dict of all legal moves whose score is the maximum names a
      column that scores at least as well as every legal column. */
  lemma TopItemIsBestColumn(b: Board, color: string, scored: Moves, i: int)
    requires Valid(b) && color != Nobody
    requires forall col :: col in Cols(scored) <==> Legal(b, col)
    requires forall j :: 0 <= j < |scored| ==> scored[j].score == ColumnScore(b, color, scored[j].col)
    requires 0 <= i < |scored| && IsTop(scored, scored[i].score)
    ensures Legal(b, scored[i].col)
    ensures forall other :: Legal(b, other) ==> ColumnScore(b, color, other) <= ColumnScore(b, color, scored[i].col)
  {
    assert Cols(scored)[i] == scored[i].col;
    forall other | Legal(b, other)
      ensures ColumnScore(b, color, other) <= ColumnScore(b, color, scored[i].col)
    {
      assert other in Cols(scored);
      var j :| 0 <= j < |scored| && Cols(scored)[j] == other;
      assert scored[j].score <= scored[i].score;
    }
  }

  /** `chooseMove(board)` of `AIPlayer`; `random.choice` becomes the parameter `pick`, which
      selects among the best-scoring columns. The column is legal and scores at least as well
      as every other legal column. */
  method ChooseMove(b: Board, color: string, pick: nat) returns (col: int)
    requires Valid(b) && Settled(b) && color != Nobody && !IsFullBoard(b)
    ensures Legal(b, col)
    ensures forall other :: Legal(b, other) ==> ColumnScore(b, color, other) <= ColumnScore(b, color, col)
  {
    var moves := GatherMoves(b);
    var _, scored := EvaluateMoves(b, color, moves);
    MoveDictsAreValid(b, color, moves, scored);
    var best := FindBestMoves(scored);
    ghost var some :| 0 <= some < b.width && !IsFullColumn(b, some);
    assert some in Cols(moves);
    col := best.value[pick % |best.value|];
    assert col in Cols(scored);
    ghost var i :| 0 <= i < |scored| && Cols(scored)[i] == col;
    TopItemIsBestColumn(b, color, scored, i);
  }

  // ---------------------------------------------------------------------------
  // Helper functions
  // ---------------------------------------------------------------------------

  /** A run as the Python value `_checkRun` returns: `None` or a 4-tuple of ints. */
  function RunValue(run: Option<Run>): Value {
    match run
    case None => NoneV
    case Some(x) => TupleV([IntV(x.r1), IntV(x.c1), IntV(x.r2), IntV(x.c2)])
  }

  /** A dict of moves as the Python value the AI builds. */
  function MovesValue(moves: Moves): Value
    requires DistinctCols(moves)
  {
    DictV(map i | 0 <= i < |moves| :: IntV(moves[i].col) := IntV(moves[i].score))
  }

  /** `is_valid_run(board, run)`: `None`, or a tuple of four ints whose two ends are on the board. */
  function IsValidRun(b: Board, run: Value): (valid: bool)
    ensures run.NoneV? ==> valid
    ensures valid ==> run.NoneV? || (run.TupleV? && |run.items| == 4)
    ensures valid && run.TupleV? ==>
              && |run.items| == 4 && (forall i :: 0 <= i < 4 ==> IsInt(run.items[i]))
              && Dist(IntOf(run.items[0]), IntOf(run.items[1]), IntOf(run.items[2]), IntOf(run.items[3]))
                <= (b.height - 1) + (b.width - 1)
  {
    || run.NoneV?
    || (&& run.TupleV?
        && |run.items| == 4
        && (forall i :: 0 <= i < 4 ==> IsInt(run.items[i]))
        && InRange(b.height, b.width, IntOf(run.items[0]), IntOf(run.items[1]))
        && InRange(b.height, b.width, IntOf(run.items[2]), IntOf(run.items[3])))
  }

  /** `is_valid_dict(board, moves)`: a dict whose keys are columns of the board and whose
      values are non-negative ints. */
  function IsValidDict(b: Board, moves: Value): (valid: bool)
    ensures valid ==> moves.DictV?
    ensures moves.DictV? && moves.entries == map[] ==> valid
    ensures valid && b.width <= 0 ==> moves.entries == map[]
  {
    && moves.DictV?
    && forall k :: k in moves.entries ==>
         && IsInt(k) && 0 <= IntOf(k) < b.width
         && IsInt(moves.entries[k]) && IntOf(moves.entries[k]) >= 0
  }

  /** Whatever `_checkRun` returns passes `is_valid_run`. */
  lemma CheckedRunsAreValid(b: Board, color: string, r: int, c: int, d: Direction, s: int)
    requires Valid(b) && InRange(b.height, b.width, r, c) && s >= 1
    ensures IsValidRun(b, RunValue(Has(b, color, r, c, d, s)))
  {
    if Has(b, color, r, c, d, s).Some? {
      CheckRunEndsOnBoard(b, color, r, c, d, s);
    }
  }

  /** A dict of moves passes `is_valid_dict` exactly when its keys are columns of the board
      and its scores are non-negative. */
  lemma MovesValueValid(b: Board, moves: Moves)
    requires DistinctCols(moves)
    ensures IsValidDict(b, MovesValue(moves)) <==>
              forall i :: 0 <= i < |moves| ==> 0 <= moves[i].col < b.width && moves[i].score >= 0
  {
    var v := MovesValue(moves);
    if forall i :: 0 <= i < |moves| ==> 0 <= moves[i].col < b.width && moves[i].score >= 0 {
      forall k | k in v.entries
        ensures IsInt(k) && 0 <= IntOf(k) < b.width && IsInt(v.entries[k]) && IntOf(v.entries[k]) >= 0
      {
        var i :| 0 <= i < |moves| && k == IntV(moves[i].col);
        assert v.entries[k] == IntV(moves[i].score);
      }
    }
    if IsValidDict(b, v) {
      forall i | 0 <= i < |moves|
        ensures 0 <= moves[i].col < b.width && moves[i].score >= 0
      {
        var k := IntV(moves[i].col);
        assert k in v.entries;
      }
    }
  }

  /** Every score the AI gives a column is positive. */
  lemma ColumnScorePositive(b: Board, color: string, col: int)
    requires Valid(b) && color != Nobody && Legal(b, col)
    ensures ColumnScore(b, color, col) >= 1
  {
  }

  /** The dicts `_gatherMoves` and `_evaluateMoves` produce pass `is_valid_dict`. */
  lemma {:induction false} MoveDictsAreValid(b: Board, color: string, moves: Moves, scored: Moves)
    requires Valid(b) && color != Nobody
    requires DistinctCols(moves) && forall col :: col in Cols(moves) <==> Legal(b, col)
    requires forall i :: 0 <= i < |moves| ==> moves[i].score == ScoreBad
    requires Cols(scored) == Cols(moves)
    requires forall i :: 0 <= i < |scored| ==> scored[i].score == ColumnScore(b, color, scored[i].col)
    ensures DistinctCols(scored)
    ensures IsValidDict(b, MovesValue(moves))
    ensures IsValidDict(b, MovesValue(scored))
  {
    forall i | 0 <= i < |moves|
      ensures 0 <= moves[i].col < b.width
    {
      assert moves[i].col in Cols(moves);
    }
    MovesValueValid(b, moves);
    forall i, j | 0 <= i < j < |scored|
      ensures scored[i].col != scored[j].col
    {
      assert Cols(scored)[i] == moves[i].col;
      assert Cols(scored)[j] == moves[j].col;
    }
    forall i | 0 <= i < |scored|
      ensures 0 <= scored[i].col < b.width && scored[i].score >= 0
    {
      assert Cols(scored)[i] == moves[i].col;
      assert moves[i].col in Cols(moves);
      ColumnScorePositive(b, color, scored[i].col);
    }
    MovesValueValid(b, scored);
  }
}
