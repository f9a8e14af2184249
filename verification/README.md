# Connect-N, modelled in Dafny

This project models the game logic of a Connect-N teaching program. In Connect-N, players take turns dropping coloured pieces into the columns of a board. A piece falls to the lowest free cell of its column. A player wins with a straight line of `streak` pieces of their colour.

The program has two parts, and both are modelled.

The student part:
- two board classes with opposite row orientations, `a6test.py` and `a6board.py`;
- the players and the computer player that scores every legal column, `a6player.py`;
- the documented game controller, `a6game.py`.

The `connectn` application part:
- the shared buffer through which the game thread and the user interface exchange moves, `exporter.py`;
- the gameplay scene's phase machine, `gamescene.py`;
- the expansion of a winning run into board positions, `container.py`;
- the command-line board size, `consts.py`;
- the rules of the player-selection scene, `playerscene.py`.

Every entity is an immutable datatype, and every operation is a pure function or a method on values. Boards are grids of colour names, with `""` for an empty cell. The buffer is a queue plus two flags. Python exceptions become `Fail` values of a `Result`. Randomness, threads and animations are parameters:
- the random draws are sequences;
- `random.choice` is an index `pick`;
- whether the game thread is alive or crashed is a `Thread` value;
- whether an animation has finished is a boolean.

Modules, one per file:
- `Wrappers`: `Option`, `Result`, `Fault`, `Min`, `Max`.
- `Text`: ASCII `capitalize`.
- `PyValues`: dynamically typed Python values for the helpers that inspect types.
- `Geometry`: runs, `dist`, `in_range`.
- `Grid`: grids of colour names.
- `TopDownBoard`: `a6test.py`.
- `BottomUpBoard`: `a6board.py`.
- `Players`: `a6player.py`.
- `Games`: `a6game.py`.
- `SharedBuffers`: `exporter.py`.
- `WinMarks`: `container.py`.
- `Settings`: `consts.py`.
- `PlayerSelect`: `playerscene.py`.
- `GameScene`: `gamescene.py`.

Where a comment in the source disagrees with its code, the model follows the code.
- `gamescene.py:320` expects `findAvailableRow` to return -1 for a full column. `a6board.py:55` returns the board height instead. So `GameScene.GetPlayerChoice` never takes the -1 branch for a column that is not full, and the lemma `GameScene.FreeRowBelowTop` shows why.
- Both board classes and `Player` spell their constructor `_init_`. The model treats it as the initialiser the classes evidently intend.

## Model

| member | source | states |
|---|---|---|
| Geometry.DistIsMetric | a6test.py:83-84 | `dist` is the Manhattan distance. It is zero exactly on equal cells, symmetric, and obeys the triangle inequality. |
| Geometry.Dist | a6test.py:83-84 | `dist` is at least the row difference and at least the column difference, and it is zero exactly on equal cells. |
| Geometry.InRange | a6test.py:86-87 | A cell is in range only on a board with at least one row and one column. |
| Geometry.OffsetIsProduct | a6test.py:60-68 | The linear step offset used for runs equals `i * d` for a unit step `d`. |
| Grid.Blank | a6test.py:12-19 | A fresh grid has `height` rows of `width` cells, all empty. |
| Grid.Set | a6test.py:47-51 | Writing one cell changes that cell only and keeps the grid's shape. |
| Grid.SetSame | a6test.py:53-58 | Writing a cell back to its own value leaves the grid unchanged. |
| Grid.SetSet | a6test.py:53-58 | A second write to a cell overrides the first. |
| TopDownBoard.Init | a6test.py:12-19 | The constructor needs positive sizes and `0 < streak <= min(width, height)`. It gives a valid, settled board of that size with every cell empty. |
| TopDownBoard.IsFullColumn | a6test.py:37-39 | On a settled board, `isFullColumn(col)` holds exactly when every cell of the column is occupied. |
| TopDownBoard.IsFullBoard | a6test.py:34-35 | `isFullBoard` holds exactly when every column is full. On a settled board, a full board has no empty cell. |
| TopDownBoard.FullColumnIsOccupied | a6test.py:37-39 | On a settled board, `isFullColumn(col)` (row 0 occupied) holds exactly when every cell of the column is occupied. |
| TopDownBoard.FullBoardHasNoEmptyCell | a6test.py:34-35 | On a settled board, `isFullBoard` holds exactly when no cell is empty. |
| TopDownBoard.NextRowFrom | a6test.py:41-45 | The upward scan of `getNextRow` stops at an empty cell, and every cell it passed is occupied. |
| TopDownBoard.GetNextRow | a6test.py:41-45 | For a column that is not full, the row is the highest-indexed empty cell. On a settled board, every cell above it is empty too. |
| TopDownBoard.Place | a6test.py:47-51 | `place` writes `color` at `(getNextRow(col), col)`, leaves every other cell unchanged, and keeps gravity. |
| TopDownBoard.TopFrom | a6test.py:53-58 | The downward scan of `undoPlace` finds the first occupied cell of the column, or none when the column is empty. |
| TopDownBoard.UndoPlace | a6test.py:53-58 | `undoPlace` clears the lowest-indexed occupied cell of the column and keeps gravity. On an empty column it changes nothing. |
| TopDownBoard.PlaceUndoRoundTrip | a6test.py:41-58 | On a settled board, `place` followed by `undoPlace` on the same column restores the board. |
| TopDownBoard.MatchFromSpec | a6test.py:64-67 | The matching loop of `_checkRun` succeeds exactly when every remaining cell of the run holds `color`. |
| TopDownBoard.CheckRun | a6test.py:60-68 | A run that `_checkRun` reports starts at `(r, c)`, ends on the board, and, for `streak >= 1`, starts on a piece of `color`. |
| TopDownBoard.CheckRunSpec | a6test.py:60-68 | `_checkRun` returns a run exactly when its end is on the board and all `s` cells hold `color`. The run goes from `(r, c)` to `(r + (s-1)dr, c + (s-1)dc)`. |
| TopDownBoard.Has | a6test.py:70-80 | Each `has*` reports a run exactly when the `s` cells from `(r, c)` in its direction are on the board and all hold `color`. |
| TopDownBoard.CheckRunEndsOnBoard | a6test.py:70-87 | A run reported by any `has*` starts at `(r, c)` and ends on the board. Its ends are between `s - 1` and `2(s - 1)` apart under `dist`. |
| BottomUpBoard.Init | a6board.py:22-27 | The constructor, with defaults 6, 7 and 4, gives an empty, stacked board of the given size with no moves. |
| BottomUpBoard.Clear | a6board.py:38-40 | `clear` empties every cell and the move list and keeps the size and streak. |
| BottomUpBoard.ClearIsInit | a6board.py:22-40 | A cleared board equals a freshly constructed board of the same size. |
| BottomUpBoard.GetLastMove | a6board.py:48-49 | `getLastMove` is `None` exactly when there are no moves, and otherwise the most recent move. |
| BottomUpBoard.GetMoveCount | a6board.py:45-46 | `getMoveCount()` is 0 exactly when `getLastMove()` is `None`. |
| BottomUpBoard.AvailableFrom | a6board.py:51-55 | The loop of `findAvailableRow` returns the first empty row from its start, or `height`. Every row it passed is occupied. |
| BottomUpBoard.FindAvailableRow | a6board.py:51-55 | `findAvailableRow` is the least empty row of the column, or `height` when there is none. |
| BottomUpBoard.FullColumnHasNoRow | a6board.py:51-58 | Under gravity, `isFullColumn` (top row occupied) holds exactly when `findAvailableRow` returns `height`. |
| BottomUpBoard.IsFullColumn | a6board.py:57-58 | A column that is not full has a free row below the height. On a stacked board, `isFullColumn` holds exactly when `findAvailableRow` returns the height. |
| BottomUpBoard.IsFullBoard | a6board.py:60-65 | `isFullBoard` returns true exactly when no cell of the board is empty. |
| BottomUpBoard.Place | a6board.py:67-73 | `place` returns -1 and changes nothing exactly when the column has no empty cell. Otherwise it writes `color` at the least empty row, appends that move, and returns the row. |
| BottomUpBoard.UndoPlace | a6board.py:75-78 | `undoPlace` pops the last move and empties exactly its cell. With no moves it does nothing. |
| BottomUpBoard.PlaceUndoRoundTrip | a6board.py:67-78 | A successful `place` followed by `undoPlace` restores the grid and the move list. |
| BottomUpBoard.PlaceIsLastMove | a6board.py:45-73 | After a successful `place`, `getLastMove` reports that move and `getMoveCount` has grown by one. |
| BottomUpBoard.PlaceKeepsStacked | a6board.py:67-73 | Dropping a piece keeps every column stacked from row 0. |
| BottomUpBoard.MaximalReachUnique | a6board.py:93-143 | In each direction, the maximal stretch of a cell's colour has only one length. |
| BottomUpBoard.Reach | a6board.py:95-98 | Each scanning loop of the `find*` methods stops at the length of the maximal stretch of the cell's colour in its direction. |
| BottomUpBoard.OnLineShift | a6board.py:95-98 | Step `i` from a cell is step `i - 1` from the next cell along the line. |
| BottomUpBoard.ReachStep | a6board.py:95-98 | A maximal stretch from the next cell of the same colour extends by one to a maximal stretch from the cell. |
| BottomUpBoard.FindVertical | a6board.py:93-101 | `findVertical` scans downward only. Its candidate runs from `(r, c)` to the lowest cell of the same colour below, and it passes through the length test. |
| BottomUpBoard.FindAcross | a6board.py:103-115 | `findAcross` candidates the maximal horizontal run `(r, c1, r, c2)` with `c1 <= c <= c2`, both ends of the cell's colour. |
| BottomUpBoard.FindSWNE | a6board.py:117-129 | `findSWNE` candidates the maximal south-west to north-east run through the cell. |
| BottomUpBoard.FindNWSE | a6board.py:131-143 | `findNWSE` candidates the maximal north-west to south-east run through the cell. |
| BottomUpBoard.FindWins | a6board.py:145-151 | `findWins` tries vertical, across, SW-NE and NW-SE with the board's streak, in that order. It is `None` exactly when all four are, and returns the first that reports a run. |
| Text.LowerAll | a6player.py:20-25 | Lower-casing keeps the length and maps each character. |
| Text.Capitalize | a6player.py:20-25 | `capitalize` upper-cases the first character and lower-cases the rest. |
| Text.CapitalizeIdempotent | a6player.py:20-25 | A capitalized name is already in capitalized form. |
| Players.NameFor | a6player.py:20-25 | `setName('')` stores `color.capitalize() + ' player'`. A non-empty name is stored unchanged, so a name is never empty. |
| Players.SetName | a6player.py:20-25 | `setName` keeps the colour and class and leaves a non-empty name. A non-empty value is stored unchanged, and `''` gives `color.capitalize() + ' player'`. |
| Players.NewPlayer | a6player.py:33-37 | A new player keeps the colour and class it was created with. It has the given name, or the default name when that is empty. |
| Players.SetOwnNameIsIdentity | a6player.py:20-37 | Giving a player back its own name changes nothing. |
| Players.ScoreRunBounds | a6player.py:50-53 | `_scoreRun` is `SCORE_BAD` for no run. A reported run of `s` pieces scores between `s - 1` and `2(s - 1)`. |
| Players.ScoreRun | a6player.py:50-53 | `_scoreRun` is `SCORE_BAD` for no run. Otherwise it does not depend on which end of the run comes first, and it is 0 exactly when the two ends coincide. |
| Players.DirScoreCases | a6player.py:60-79 | The best score of the four directions for one run length is the `max` of the four `_scoreRun` values, in the order `_evaluate` tries them. |
| Players.DirScoreCovers | a6player.py:60-79 | Each direction's score is at most the best of the four. |
| Players.DirScoreAtMost | a6player.py:60-79 | Runs of `s` pieces score at most `2(s - 1)` in every direction. |
| Players.MaxFromCovers | a6player.py:60-79 | The best score over a range of run lengths bounds the score of every run length and direction in it. |
| Players.MaxFromCoversAll | a6player.py:60-79 | The bound above holds for all run lengths and directions of the range at once. |
| Players.MaxFromAtMost | a6player.py:60-79 | Runs of at most `hi` pieces never score more than `2(hi - 1)`. |
| Players.HasWinCases | a6player.py:61-78 | A win at `(r, c)` means that one of the four `has*` reports a run of the full streak. |
| Players.Score | a6player.py:55-81 | The intended score of a piece is `SCORE_WIN` for a full streak. Otherwise it lies between 1 and `max(1, 2(streak - 1))` and is at least every run score of every length and direction. |
| Players.WinScoreMeansWin | a6player.py:55-81 | On a board the program can create, a piece scores `SCORE_WIN` exactly when it completes a streak. |
| Players.Evaluate | a6player.py:55-81 | `_evaluate` returns `SCORE_WIN` when a direction holds a full streak. Otherwise it returns the best run score of any length and direction, but at least 1. |
| Players.EvaluateFrom | a6player.py:60-81 | The loop from run length `s` down, given the best score of the longer runs, ends with the same result as `_evaluate`. |
| Players.EvaluateLength | a6player.py:61-79 | One iteration stops exactly when a full streak is found. Otherwise it folds in the best score of its run length, which is not a win. |
| Players.MaxFromStep | a6player.py:60-79 | The best score over `lo..hi` is the `max` of that of `lo` and that of `lo + 1..hi`. |
| Players.ScoreCases | a6player.py:55-81 | The intended score by cases, as `_evaluate` returns it. |
| Players.FoldDirections | a6player.py:61-79 | Folding `max` over the four directions one at a time gives the best of the earlier score and the best direction. |
| Players.Cols | a6player.py:83-104 | The keys of a dict of moves, in insertion order. |
| Players.ColsAppend | a6player.py:83-88 | Inserting a new key adds it at the end of the keys. |
| Players.GatherMoves | a6player.py:83-88 | `_gatherMoves` has exactly the columns that are not full as keys, in ascending order, each with score `SCORE_BAD`. |
| Players.GatherStep | a6player.py:85-87 | Inserting the next legal column keeps the keys ascending and adds exactly that column. |
| Players.EvaluateMoves | a6player.py:90-96 | `_evaluateMoves` keeps the keys and gives each key the score of the piece dropped there. The board ends as it started. |
| Players.ScoreColumn | a6player.py:91-96 | The loop body places a piece, evaluates it and undoes it. The board ends as it started, and the score is that column's. |
| Players.ColumnScore | a6player.py:91-96 | The score of a column is at least 1, and it is `SCORE_WIN` when the piece landed there completes a streak. |
| Players.MaxScore | a6player.py:100 | `max(moves.values())` is the score of some item and at least every item's score. |
| Players.KeysScoring | a6player.py:98-104 | The loop of `_findBestMoves` keeps exactly the keys whose score is the target, in dict order. |
| Players.PickedAreKeys | a6player.py:101-103 | Keys picked from the items of a dict are keys of the dict. |
| Players.PickedAreScoring | a6player.py:101-103 | Because dict keys are distinct, the picked keys are exactly those scoring the target. |
| Players.PickedKeepOrder | a6player.py:101-103 | Keys picked in item order keep the dict's ascending order. |
| Players.FindBestMoves | a6player.py:98-104 | `_findBestMoves` raises `ValueError` exactly on an empty dict. Otherwise it returns a non-empty list of exactly the keys whose score is the maximum. |
| Players.TopItemIsBestColumn | a6player.py:98-112 | A key with the maximum score in the fully scored dict of legal moves is a legal column. It scores at least as well as every legal column. |
| Players.ChooseMove | a6player.py:106-112 | On a board that is not full, the AI's move is a legal column that scores at least as well as every legal column. |
| Players.CheckedRunsAreValid | a6player.py:121-132 | Whatever `_checkRun` returns passes `is_valid_run`. |
| Players.IsValidRun | a6player.py:121-132 | `is_valid_run` accepts `None`. Anything else it accepts is a 4-tuple of ints whose ends lie within `(height - 1) + (width - 1)` of each other under `dist`. |
| Players.MovesValueValid | a6player.py:134-143 | A dict of moves passes `is_valid_dict` exactly when its keys are columns of the board and its scores are non-negative. |
| Players.IsValidDict | a6player.py:134-143 | `is_valid_dict` accepts only dicts. It accepts the empty dict, and on a board with no columns it accepts nothing else. |
| Players.ColumnScorePositive | a6player.py:81 | Every score the AI gives a column is at least 1. |
| Players.MoveDictsAreValid | a6player.py:83-96 | The dicts built by `_gatherMoves` and `_evaluateMoves` pass `is_valid_dict`. |
| Games.Colors | a6game.py:30-33 | The colours of the players, in order. |
| Games.IsNewPlayer | a6game.py:142-156 | `is_new_player` is false exactly when some player has `p`'s colour. |
| Games.Init | a6game.py:88-104 | A new game has no players, current index -1, no winner, and an empty board of the given size. It satisfies every attribute invariant. |
| Games.AddPlayer | a6game.py:56-67 | Adding a player of a new colour keeps the invariants, including distinct colours. It appends the player and makes it current when the list was empty. |
| Games.ClearPlayers | a6game.py:69-73 | Clearing the players resets the current index to -1 and the winner to `None`, and keeps the invariants. |
| Games.GetCurrent | a6game.py:75-80 | `getCurrent` is `None` exactly when there are no players, and otherwise the player at the current index. |
| Games.Advance | a6game.py:107-114 | With at least one player, `advance` sets the current index to `(current + 1) mod len(players)`, wrapping from the last player to the first. It keeps the players, the board and the winner. |
| Games.AdvanceTimes | a6game.py:107-114 | Repeated advances keep the invariants, the players, the board and the winner. |
| Games.AdvanceTimesAdd | a6game.py:107-114 | `a` advances followed by `b` advances are `a + b` advances. |
| Games.AdvanceTimesCounts | a6game.py:107-114 | Before the end of the list, each advance moves the current index one place on. |
| Games.FullRoundRestoresCurrent | a6game.py:107-114 | `len(players)` advances bring back the same current player, so each player moves once per round. |
| SharedBuffers.Post | connectn/exporter.py:123-136 | `post` appends to the back of a valid buffer's queue and leaves an invalid buffer unchanged. |
| SharedBuffers.IsBlocked | connectn/exporter.py:70-81 | `isBlocked()` holds exactly when a thread waiting in `block()` would not return yet. Unblocking a blocked, valid buffer lets it return. |
| SharedBuffers.IsInvalid | connectn/exporter.py:83-94 | `isInvalid()` holds exactly when `reset()` would change the buffer. An invalid buffer polls nothing, and `block()` on it raises at once. |
| SharedBuffers.Poll | connectn/exporter.py:138-154 | `poll` on a valid, non-empty buffer removes and returns the front. Otherwise it returns `None` and changes nothing. |
| SharedBuffers.Block | connectn/exporter.py:96-109 | `block` always marks the buffer blocked, and fails with `RuntimeError` exactly when the buffer is invalid. |
| SharedBuffers.Wake | connectn/exporter.py:104-108 | A blocked caller returns once unblocked, raises once invalidated, and otherwise keeps waiting. |
| SharedBuffers.Unblock | connectn/exporter.py:111-121 | `unblock` clears `blocked` only on a valid buffer. |
| SharedBuffers.Invalidate | connectn/exporter.py:156-165 | `invalidate` sets `invalid` and keeps the queue and the `blocked` flag. |
| SharedBuffers.Reset | connectn/exporter.py:167-181 | `reset` restores an invalid buffer to the initial state and leaves a valid one unchanged. |
| SharedBuffers.InvalidIsSticky | connectn/exporter.py:104-165 | An invalid buffer stays invalid, with the same queue, under `post`, `poll`, `unblock`, `block` and `invalidate`. |
| SharedBuffers.ResetAfterInvalidate | connectn/exporter.py:156-181 | `invalidate` then `reset` always gives a fresh buffer. |
| SharedBuffers.PostAll | connectn/exporter.py:123-136 | Posting a sequence of messages keeps both flags. |
| SharedBuffers.PollN | connectn/exporter.py:138-154 | Polling repeatedly keeps both flags. |
| SharedBuffers.PostAllAppends | connectn/exporter.py:123-136 | Posting to a valid buffer appends the messages to its queue in order. |
| SharedBuffers.PollNDrains | connectn/exporter.py:138-154 | Polling a valid buffer as often as it holds messages yields them in order and empties it. |
| SharedBuffers.FifoRoundTrip | connectn/exporter.py:123-154 | Messages posted to a fresh buffer are polled back in posting order, leaving the buffer fresh: the buffer is a FIFO queue. |
| SharedBuffers.Receive | connectn/exporter.py:427-428 | Unpacking the polled reply raises `TypeError` exactly when there was nothing to poll. |
| SharedBuffers.GetChoice | connectn/exporter.py:412-430 | `get_choice` fails its assertion on an empty tag, and raises `RuntimeError` on an invalid buffer. |
| SharedBuffers.SetChoice | connectn/exporter.py:433-451 | `set_choice` fails its assertion on an empty tag, and raises `RuntimeError` on an invalid buffer. |
| SharedBuffers.AnswerEffect | connectn/gamescene.py:330-340 | The scene's answer takes the request off the queue, appends the reply and unblocks. |
| SharedBuffers.AnswerRequest | connectn/gamescene.py:330-340 | Answering a lone request leaves just the reply, unblocked. |
| SharedBuffers.GetChoiceAnswered | connectn/exporter.py:412-430 | Answered with one reply, `get_choice` returns the reply's value when its tag matches and `None` otherwise. It leaves the buffer idle. |
| SharedBuffers.SetChoiceAnswered | connectn/exporter.py:433-451 | Answered with one message, `set_choice` returns `None`, consumes the answer and leaves the buffer idle. |
| SharedBuffers.GetChoiceInvalidated | connectn/exporter.py:412-430 | If the other side invalidates the buffer instead of answering, `get_choice` raises `RuntimeError`. |
| WinMarks.Step | connectn/container.py:266-273 | One step moves the column right while it differs from `c2`, and the row one cell closer to `r2`. |
| WinMarks.ExpandRun | connectn/container.py:259-274 | For `c1 <= c2`, the positions start at `(r1, c1)` and end at `(r2, c2)`. There are `max(\|r2 - r1\|, c2 - c1) + 1` of them, each in the endpoints' bounding box. |
| WinMarks.LeftwardRunNeverEnds | connectn/container.py:266-269 | For `c1 > c2` the column only grows, so the loop condition stays true forever. |
| WinMarks.WalkIsConnected | connectn/container.py:266-273 | Consecutive positions are neighbouring cells. |
| Settings.DigitChar | connectn/consts.py:116-139 | A digit value becomes the digit character of that value. |
| Settings.ParseInt | connectn/consts.py:116-139 | `int(text)` succeeds exactly on one or more digits with an optional leading `+` or `-`. A `-` gives a value of at most 0, and otherwise the value is non-negative. |
| Settings.Arg | connectn/consts.py:116-139 | `int(sys.argv[i])` under the bare `except` is `None` exactly when the argument is missing or is not one or more digits with an optional leading sign. |
| Settings.NatToDigits | connectn/consts.py:116-139 | `str(n)` of a natural number is a non-empty string of digits. |
| Settings.DigitsRoundTrip | connectn/consts.py:116-139 | The digits of `n` read back as `n`. |
| Settings.ParseShowsInt | connectn/consts.py:116-139 | `int(str(n)) == n` for every integer. |
| Settings.Side | connectn/consts.py:116-128 | A row or column argument is used when it is an integer in `1..20`, else the default. |
| Settings.BoardSize | connectn/consts.py:97-139 | Rows and columns are clamped as above. The streak is `argv[3]` when it fits the board, else the default shrunk to the smaller side. Afterwards `1 <= streak <= min(rows, cols)`. |
| Settings.NoArgumentsGiveDefaults | connectn/consts.py:97-102 | Without arguments the board is 6 by 7 with a streak of 4. |
| Settings.ValidArgumentsAreUsed | connectn/consts.py:116-139 | Every size the command line may ask for, written in decimal, is honoured exactly. |
| PlayerSelect.InitialScene | connectn/playerscene.py:78-110 | The scene starts with `Human player` selected in both groups, and with red and blue, two distinct colours. |
| PlayerSelect.OthersOff | connectn/playerscene.py:175-182 | The loop of `toggle_player` turns off every other button of the group and keeps the clicked one. |
| PlayerSelect.TogglePlayer | connectn/playerscene.py:159-182 | With state false, the sender's button is turned back on and the rest of its group is kept. With state true, every other button of its group is turned off. The other group and the drop-downs are untouched, and a sender outside both groups changes nothing. |
| PlayerSelect.Click | connectn/radio.py:147-183 | A click negates the button's state before `toggle_player` sees it. Clicking a button that is on changes nothing. Clicking a button that is off turns every other button of its group off. Either way the clicked button ends on, and the other group and the drop-downs are untouched. |
| PlayerSelect.ClickSelectsClicked | connectn/playerscene.py:159-182 | From one selected button per group, after any click exactly the clicked button is on. The other group is untouched. |
| PlayerSelect.PlayerType | connectn/playerscene.py:37-49 | A group's type is the index of its last selected button, or 0 when none is selected. |
| PlayerSelect.GetPlayers | connectn/playerscene.py:28-49 | `getPlayers` is `[(color1, type1), (color2, type2)]`, with each type the selected button of its group. |
| PlayerSelect.FirstOtherFrom | connectn/playerscene.py:197-209 | The scan of `change_color` finds the first colour different from `color`, or none. |
| PlayerSelect.Avoid | connectn/playerscene.py:197-209 | The other drop-down moves off `color` when it shows it and has another colour. Otherwise it is unchanged. |
| PlayerSelect.ChangeColor | connectn/playerscene.py:184-209 | `change_color` moves only the other drop-down, and ignores any object that is neither drop-down. |
| PlayerSelect.PickKeepsColorsDistinct | connectn/playerscene.py:184-209 | After the first drop-down picks any palette colour, the two selected colours differ. |
| GameScene.Possessive | connectn/gamescene.py:33-44 | An empty word is unchanged. A word ending in `s`/`S` gains `'`, and any other word gains `'s`. |
| GameScene.Possessify | connectn/gamescene.py:33-44 | A value that is not a string comes back unchanged. |
| GameScene.PossessiveIsInjective | connectn/gamescene.py:33-44 | Two words with the same possessive are equal. |
| GameScene.OpenColumnFrom | connectn/gamescene.py:456-458 | The inner loop finds the nearest column, moving right and wrapping, that is not full. |
| GameScene.NextColumn | connectn/gamescene.py:458 | `(d + 1) % BOARD_COLS` stays a column of the board. |
| GameScene.GapStep | connectn/gamescene.py:456-458 | Each step of the inner loop moves one column further from the start. |
| GameScene.AddPair | connectn/gamescene.py:459-461 | Appending a fresh pair of an open column other than `col` keeps the fakes well formed. |
| GameScene.ChooseFakes | connectn/gamescene.py:440-464 | The list ends with `[col, col]` and has even length at most `2n + 2`. The fakes before that are adjacent equal pairs of open columns other than `col`, none repeated. |
| GameScene.CountsSplit | connectn/gamescene.py:475-485 | The human and computer counts grow by one item at a time. |
| GameScene.CountHumans | connectn/gamescene.py:475-479 | The first loop counts the players of type 0. |
| GameScene.CountComputers | connectn/gamescene.py:481-485 | The second loop counts the players of type 1 or 2. |
| GameScene.MakePlayers | connectn/gamescene.py:466-509 | There is one player per request, in order, with its colour. Type 1 gives AI, type 2 gives better AI, and anything else gives a human. Names follow the AI-count and all-human rules. |
| GameScene.NewPlayerName | connectn/gamescene.py:489-508 | The name chosen, or `setName`'s default when it is empty, is the name the player ends up with. |
| GameScene.LookupKeys | connectn/gamescene.py:413-415 | The colour table has exactly the players' colours as keys. |
| GameScene.LookupLast | connectn/gamescene.py:413-415 | A colour maps to the last player that has it. |
| GameScene.DistinctSnoc | connectn/gamescene.py:413-425 | Appending a player keeps colours distinct exactly when its colour is new. |
| GameScene.LookupSize | connectn/gamescene.py:413-425 | The table has one entry per player exactly when the colours are distinct. |
| GameScene.BuildLookup | connectn/gamescene.py:413-415 | The loop builds the colour table, later players overwriting earlier ones. |
| GameScene.ValidateGame | connectn/gamescene.py:397-427 | Validation succeeds exactly when the board has the configured size, there is a player, and colours are distinct. It then maps every colour to its player. Every failure is `RuntimeError`. |
| GameScene.GetPlayer | connectn/gamescene.py:429-438 | `_getPlayer` returns the player of the colour, or `RuntimeError` exactly when there is none. |
| GameScene.ColumnOf | connectn/gamescene.py:371-385 | An AI reply names a column only when it is an int on the board. |
| GameScene.ProcessAI | connectn/gamescene.py:371-395 | The AI's column is accepted exactly when it is a column of the board that is not full. A full column raises `RuntimeError`. An accepted column moves the scene to `STATE_DELAY`, with the piece over `col` and the hover list from `_chooseFakes`, and the game and buffer are untouched. |
| GameScene.CheckForPlayer | connectn/gamescene.py:252-284 | While the thread runs, a blocked human request moves to `STATE_SELECT`. An AI push of a column that is not full always moves to `STATE_DELAY` over that column, and a push of a full column raises `RuntimeError`. A crashed thread exits. A winner or a full board moves to `STATE_COMPLETE`. |
| GameScene.GetPlayerChoice | connectn/gamescene.py:286-328 | A touch on a column moves the piece there, and one off the board drops the piece. Releasing over a full column discards the piece. Releasing over an open column starts the drop to its lowest free row in `STATE_ANIMATE`. |
| GameScene.FreeRowBelowTop | connectn/gamescene.py:318-323 | A column that is not full has an available row below the board's height. |
| GameScene.WaitOnChoice | connectn/gamescene.py:342-351 | Once the hovering ends, the piece drops to the lowest free row of its column in `STATE_ANIMATE`. |
| GameScene.WaitOnDrop | connectn/gamescene.py:330-340 | Once the piece lands, `(color, True, col)` is posted, the buffer is unblocked, and the scene returns to `STATE_WAITING`. |
| GameScene.Update | connectn/gamescene.py:153-198 | `update` dispatches on the phase, and does nothing in `STATE_COMPLETE` or `STATE_RESET`. Every handler keeps the scene invariant. |
| GameScene.AddAll | connectn/gamescene.py:130-132 | Adding the distinct-coloured players one by one gives a game with exactly those players, the first one current. |
| GameScene.NewScene | connectn/gamescene.py:95-151 | A new scene succeeds exactly when there are players. It then waits, with a valid game of the configured size and the colour table built. |
| GameScene.ResetPress | connectn/gamescene.py:519-525 | Pressing reset moves to `STATE_RESET` and keeps the game. |
| GameScene.ResetRelease | connectn/gamescene.py:527-552 | Releasing reset gives a fresh buffer and a new empty game with the same players, and moves to `STATE_WAITING`. |
| GameScene.HumanTurn | connectn/gamescene.py:252-340 | A human turn through the scene answers the pending request. Afterwards the buffer holds exactly `(color, True, col)`, unblocked, so `get_choice` returns `col`. |
| GameScene.AITurn | connectn/gamescene.py:252-395 | An AI turn through the scene answers the pushed choice. After the hover and the drop, the buffer holds exactly `(color, True, col)`, unblocked, so `set_choice` returns and leaves the buffer empty. |

## Left out

- Thread machinery is not modelled, because it is concurrency and foreign calls. This covers `SafeThread` (start, join, the `ctypes` kill, crash capture), the condition-variable wait in `block`, and the `__new__` singleton of the buffer. The other side of a blocked call is the parameter `respond`, and the thread's liveness is a `Thread` value.
- Animations, easing, sounds, float coordinate maths, layout and the widget classes (`button.py`, `radio.py`, `drop.py`) are not modelled. They are rendering and float arithmetic. Their outcomes enter the scene as parameters: an animation being finished, and the column under a touch.
- `importer.py`, `app.py`, `__main__.py` and `__init__.py` are wiring and dynamic loading, so they are not modelled.
- `random.randint` and `random.choice` are replaced by parameters: the draws sequence, the number of fakes, and the index `pick`.
- `Game.takeTurn`, `Game.run`, `getWinner` and the getters are not modelled: their bodies are `pass` or plain field reads. Only the documented contracts of `__init__`, `addPlayer`, `clearPlayers`, `getCurrent` and `advance` are modelled.
- The human `Player.chooseMove` is not modelled beyond `get_choice`, because it only forwards to that I/O call.
- `_findStreak` and `markWin`'s conversion to screen coordinates are not modelled. `_findStreak` calls `findWins`, whose scans call `dist` with five arguments and `in_range`, neither of which `a6board.py` defines or imports.
- BottomUpBoard.FindVertical: the length test is the parameter `longEnough`, since the `dist` it calls does not exist. The same holds for FindAcross, FindSWNE and FindNWSE, and the run endpoints are modelled exactly.
- `a6board._str_` string formatting is not modelled.
- Python's negative list indices are not modelled. Every index the modelled code uses is in range under the documented preconditions.
- Text.Capitalize: covers ASCII letters only, because Unicode case mapping is out of scope.
- Settings.ParseInt: does not accept the surrounding whitespace, the `_` digit separators or the non-ASCII decimal digits (such as `٣`) that Python's `int` allows. Only ASCII `0`-`9` count as digits.
- Values held by the shared buffer are restricted to the `(tag, push, value)` triples every producer in the program posts.
- Error messages are paraphrased. Only the exception class is stated in contracts.
- Players: the players are modelled on the board of `a6test.py` (TopDownBoard) and on the `dist` and `in_range` of Geometry. As written, `a6player.py` imports `a6board.py` and asserts `type(board) == Board` (`a6player.py:40`, `107`, `122`, `135`). That `Board` has no `hasHorizontal`, `getNextRow`, `place(color, col)` or `undoPlace(col)`. Also, `dist` (`a6player.py:53`) and `in_range` (`a6player.py:132`) are defined only in `a6test.py:83-87`. So the code as written cannot run on either board, and `a6test.py`'s board is the only one whose interface it matches.
- Assertions that guard a method's arguments (`a6test.py:13-15`, `38`, `42`, `48-49`, `54` and the board-type assertions of `a6player.py`) are modelled as `requires`, so the model does not describe the `AssertionError` a violating call raises. The assertions of `get_choice` and `set_choice` are the exception: they are modelled as `AssertionError` results.
- Players.NewPlayer: the colour assertion of `a6player.py:34` (`introcs.is_tkcolor(color) or introcs.is_webcolor(color)`) is not modelled. `introcs`'s colour tables are not part of this model, so any string is accepted as a colour.
- Games.Advance: on a game without players it leaves the game unchanged. The documented contract of `a6game.py:107-114` leaves that case open, and `Game.advance`'s body is `pass`.
- Players.WinScoreMeansWin: requires `streak <= 20`, the most the command line allows. Without that bound, a non-winning score `2(streak - 1)` could reach `SCORE_WIN`.
- Players.EvaluateMoves: requires the board to be settled. This is the gravity invariant every reachable `a6test.py` board has, and the place/undo round trip depends on it. The same holds for Players.ChooseMove and Players.ScoreColumn.
- GameScene.ValidateGame: the duplicate-colour failure carries a generic message instead of naming the shared colour.
- GameScene.ProcessAI: a reply that is not an int column of the board fails with `IndexError`. The source's failure for such a value depends on the list indexing inside `isFullColumn`.
- GameScene.NextColumn: written as `d + 1` wrapping to 0, which equals `(d + 1) % BOARD_COLS` for a column `d` of the board.
- GameScene.CheckForPlayer: the label text is the scene's `info` string, and `_findStreak` after a win is not modelled (see above).
- GameScene.NewScene: the player specs must have distinct colours, which the selection scene guarantees (PlayerSelect.PickKeepsColorsDistinct). This is because `Game.addPlayer` requires distinct colours.
