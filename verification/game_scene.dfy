/** The gameplay scene of connectn/gamescene.py: its pure helpers and the phase machine that
    drives a game.

    The scene talks to the game's own thread through the shared buffer. The thread itself,
    the animations and the float geometry of the board view are not modelled; what they
    contribute enters as parameters: whether the thread is alive or crashed, whether the
    current animation has finished, the board column under a touch, and the random draws. */
module GameScene {
  import opened Wrappers
  import opened Text
  import opened PyValues
  import opened SharedBuffers
  import BU = BottomUpBoard
  import Games
  import Players
  import Settings
  import Grid

  type Player = Players.Player

  /** `FAKE_OUTS`: the most fake columns the AI's piece hovers over before it drops. */
  const FakeOuts: nat := 2

  /** The phases `STATE_WAITING` .. `STATE_RESET`. */
  datatype Phase = Waiting | Select | Delay | Animate | Complete | Resetting {
    /** The value of the `STATE_*` constant. */
    function Code(): int {
      match this
      case Waiting => 0
      case Select => 1
      case Delay => 2
      case Animate => 3
      case Complete => 4
      case Resetting => 5
    }
  }

  /** The game thread, as the scene sees it. */
  datatype Thread = Thread(alive: bool, crashed: bool)

  /** The touch input of one frame, already mapped to a board column. */
  datatype Input = Touch(col: int) | NoTouch

  /** The state of the scene: its phase, the game, the colour lookup `_players`, the shared
      buffer, the current colour, the information text, the column of the active piece, the
      columns the AI's piece hovers over, and the row a dropping piece falls to. */
  datatype Scene = Scene(
    size: Settings.Size,
    phase: Phase,
    game: Games.Game,
    lookup: map<string, Player>,
    buffer: Buffer,
    color: string,
    info: string,
    piece: Option<int>,
    hover: seq<int>,
    dropRow: Option<int>)

  /** A board size the command line can produce. */
  predicate SizeOk(size: Settings.Size) {
    && 1 <= size.rows <= Settings.MaxSide
    && 1 <= size.cols <= Settings.MaxSide
    && 1 <= size.streak <= Min(size.rows, size.cols)
  }

  /** The invariant every handler keeps: the game is well formed and has the configured size,
      an active piece is over a column of the board, and a piece exists whenever the scene
      waits on an animation of one. */
  predicate SceneInv(s: Scene) {
    && SizeOk(s.size)
    && Games.Inv(s.game)
    && s.game.board.width == s.size.cols
    && s.game.board.height == s.size.rows
    && (s.piece.Some? ==> 0 <= s.piece.value < s.size.cols)
    && ((s.phase == Delay || s.phase == Animate) ==> s.piece.Some?)
  }

  /** The colour names the lookup table maps to players of that colour. */
  predicate LookupFits(players: seq<Player>, lookup: map<string, Player>) {
    && (forall c :: c in lookup ==> c in Games.Colors(players))
    && (forall c :: c in Games.Colors(players) ==> c in lookup)
    && (forall i :: 0 <= i < |players| ==> players[i].color in lookup && lookup[players[i].color] == players[i])
  }

  // ---------------------------------------------------------------------------
  // possessify
  // ---------------------------------------------------------------------------

  /** `possessify(word)` on a string: an empty word comes back unchanged; otherwise an
      apostrophe is added, followed by `s` unless the word already ends in `s` or `S`. */
  function Possessive(word: string): (p: string)
    ensures word == "" ==> p == ""
    ensures word != "" ==> |p| > |word| && p[..|word|] == word && p[|word|] == '\''
    ensures word != "" && word[|word| - 1] in "sS" ==> |p| == |word| + 1
    ensures word != "" && word[|word| - 1] !in "sS" ==> |p| == |word| + 2 && p[|p| - 1] == 's'
  {
    if word == "" then word
    else if word[|word| - 1] in "sS" then word + "'"
    else word + "'s"
  }

  /** `possessify(word)`: a value that is not a string comes back unchanged. */
  function Possessify(word: Value): (p: Value)
    ensures !word.StrV? ==> p == word
    ensures word.StrV? ==> p == StrV(Possessive(word.s))
  {
    if !word.StrV? then word else StrV(Possessive(word.s))
  }

  /** The possessive form determines the word: two words with the same possessive are equal. */
  lemma PossessiveIsInjective(w1: string, w2: string)
    requires Possessive(w1) == Possessive(w2)
    ensures w1 == w2
  {
    var p := Possessive(w1);
    if w1 != "" && w2 != "" && |w1| == |w2| {
      assert w1 == p[..|w1|] == w2;
    }
  }

  // ---------------------------------------------------------------------------
  // _chooseFakes
  // ---------------------------------------------------------------------------

  /** How many steps to the right, wrapping around, column `c` is from column `col`. */
  function Gap(c: int, col: int, width: int): int {
    if col >= c then col - c else col - c + width
  }

  /** The fake columns of a hover list: adjacent equal pairs of columns of the board that are
      not full, none of them `col` and no two pairs alike. */
  predicate FakePairs(b: BU.Board, fakes: seq<int>, col: int)
    requires BU.Valid(b) && b.height > 0
  {
    && |fakes| % 2 == 0
    && (forall i :: 0 <= i < |fakes| ==> 0 <= fakes[i] < b.width && !BU.IsFullColumn(b, fakes[i]))
    && (forall i :: 0 <= i < |fakes| / 2 ==> fakes[2 * i] == fakes[2 * i + 1] && fakes[2 * i] != col)
    && (forall i, j :: 0 <= i < j < |fakes| / 2 ==> fakes[2 * i] != fakes[2 * j])
  }

  /** The inner loop of `_chooseFakes`: from column `c`, moving right and wrapping around,
      the first column that is not full. It stops at `col` at the latest, which is not full. */
  method OpenColumnFrom(b: BU.Board, c: int, col: int) returns (d: int)
    requires BU.Valid(b) && b.height > 0 && 0 <= col < b.width && !BU.IsFullColumn(b, col)
    requires 0 <= c < b.width
    ensures 0 <= d < b.width && !BU.IsFullColumn(b, d)
    ensures forall e :: 0 <= e < b.width && Gap(c, e, b.width) < Gap(c, d, b.width) ==> BU.IsFullColumn(b, e)
  {
    d := c;
    while BU.IsFullColumn(b, d)
      invariant 0 <= d < b.width && Gap(c, d, b.width) <= Gap(c, col, b.width)
      invariant forall e :: 0 <= e < b.width && Gap(c, e, b.width) < Gap(c, d, b.width) ==> BU.IsFullColumn(b, e)
      decreases Gap(c, col, b.width) - Gap(c, d, b.width)
    {
      GapStep(c, d, col, b.width);
      d := NextColumn(d, b.width);
    }
  }

  /** `(d + 1) % width` for a column `d` of the board. */
  function NextColumn(d: int, w: int): (next: int)
    requires 0 <= d < w
    ensures 0 <= next < w
  {
    if d + 1 == w then 0 else d + 1
  }

  /** Stepping right from `d`, short of `col`, moves one column further from `c`, and the
      columns closer to `c` than the new one are `d` and those closer than `d`. */
  lemma GapStep(c: int, d: int, col: int, w: int)
    requires 0 <= c < w && 0 <= d < w && 0 <= col < w && d != col
    requires Gap(c, d, w) <= Gap(c, col, w)
    ensures Gap(c, NextColumn(d, w), w) == Gap(c, d, w) + 1 <= Gap(c, col, w)
    ensures forall e :: 0 <= e < w && Gap(c, e, w) < Gap(c, NextColumn(d, w), w) ==> Gap(c, e, w) < Gap(c, d, w) || e == d
  {
  }

  /** Adding a fresh pair of a column that is not full and is not `col` keeps the fakes well
      formed. */
  lemma AddPair(b: BU.Board, fakes: seq<int>, col: int, c: int)
    requires BU.Valid(b) && b.height > 0 && FakePairs(b, fakes, col)
    requires 0 <= c < b.width && !BU.IsFullColumn(b, c) && c != col && c !in fakes
    ensures FakePairs(b, fakes + [c, c], col)
  {
    var f := fakes + [c, c];
    forall i, j | 0 <= i < j < |f| / 2
      ensures f[2 * i] != f[2 * j]
    {
      if j == |fakes| / 2 {
        assert f[2 * i] == fakes[2 * i];
      } else {
        assert f[2 * i] == fakes[2 * i] && f[2 * j] == fakes[2 * j];
      }
    }
    forall i | 0 <= i < |f| / 2
      ensures f[2 * i] == f[2 * i + 1] && f[2 * i] != col
    {
      if i < |fakes| / 2 {
        assert f[2 * i] == fakes[2 * i] && f[2 * i + 1] == fakes[2 * i + 1];
      }
    }
  }

  /** `_chooseFakes(n, col)`, with the `n` values of `random.randint(0, BOARD_COLS - 1)` given
      as `draws`. Each draw is moved right, wrapping around, to a column that is not full, and
      is kept as a pair unless it is `col` or already chosen; the list ends hovering over `col`
      twice. */
  method ChooseFakes(b: BU.Board, n: nat, col: int, draws: seq<int>) returns (result: seq<int>)
    requires BU.Valid(b) && b.height > 0 && 0 <= col < b.width && !BU.IsFullColumn(b, col)
    requires |draws| == n && forall i :: 0 <= i < n ==> 0 <= draws[i] < b.width
    ensures 2 <= |result| <= 2 * n + 2 && |result| % 2 == 0
    ensures result[|result| - 2..] == [col, col]
    ensures FakePairs(b, result[..|result| - 2], col)
  {
    result := [];
    var x := 0;
    while x < n
      invariant 0 <= x <= n
      invariant |result| <= 2 * x
      invariant FakePairs(b, result, col)
    {
      var c := OpenColumnFrom(b, draws[x], col);
      if c != col && c !in result {
        AddPair(b, result, col, c);
        result := result + [c, c];
      }
      x := x + 1;
    }
    ghost var fakes := result;
    result := result + [col, col];
    assert result[..|result| - 2] == fakes;
  }

  // ---------------------------------------------------------------------------
  // _makePlayers
  // ---------------------------------------------------------------------------

  /** A player type of the selection scene is a computer player: 1 (AI) or 2 (better AI). */
  predicate IsComputer(kind: int) {
    kind == 1 || kind == 2
  }

  /** The class `_makePlayers` instantiates for a type: anything but 1 and 2 is a human. */
  function KindOf(kind: int): Players.Kind {
    if kind == 1 then Players.AI else if kind == 2 then Players.BetterAI else Players.Human
  }

  /** How many of the requested players have type 0. */
  function Humans(specs: seq<(string, int)>): nat {
    if specs == [] then 0 else (if specs[0].1 == 0 then 1 else 0) + Humans(specs[1..])
  }

  /** How many of the requested players are computers. */
  function Computers(specs: seq<(string, int)>): nat {
    if specs == [] then 0 else (if IsComputer(specs[0].1) then 1 else 0) + Computers(specs[1..])
  }

  lemma {:induction false} CountsSplit(specs: seq<(string, int)>, i: nat)
    requires i < |specs|
    ensures Humans(specs[..i + 1]) == Humans(specs[..i]) + (if specs[i].1 == 0 then 1 else 0)
    ensures Computers(specs[..i + 1]) == Computers(specs[..i]) + (if IsComputer(specs[i].1) then 1 else 0)
    decreases i
  {
    if i > 0 {
      CountsSplit(specs[1..], i - 1);
      assert specs[1..][..i] == specs[..i + 1][1..];
      assert specs[1..][..i - 1] == specs[..i][1..];
    }
  }

  /** The first loop of `_makePlayers`: how many players are of type 0. */
  method CountHumans(specs: seq<(string, int)>) returns (humans: nat)
    ensures humans == Humans(specs)
  {
    humans := 0;
    var i := 0;
    while i < |specs|
      invariant 0 <= i <= |specs| && humans == Humans(specs[..i])
    {
      CountsSplit(specs, i);
      if specs[i].1 == 0 {
        humans := humans + 1;
      }
      i := i + 1;
    }
    assert specs[..i] == specs;
  }

  /** The second loop of `_makePlayers`: how many players are computers. */
  method CountComputers(specs: seq<(string, int)>) returns (computers: nat)
    ensures computers == Computers(specs)
  {
    computers := 0;
    var i := 0;
    while i < |specs|
      invariant 0 <= i <= |specs| && computers == Computers(specs[..i])
    {
      CountsSplit(specs, i);
      if IsComputer(specs[i].1) {
        computers := computers + 1;
      }
      i := i + 1;
    }
    assert specs[..i] == specs;
  }

  /** The name `_makePlayers` gives the player of colour `color` and type `kind`. */
  function NameGiven(color: string, kind: int, humans: nat, computers: nat, total: nat): string {
    if IsComputer(kind) then
      if computers > 1 then Capitalize(color) + " AI player" else "AI player"
    else if humans == total then ""
    else if computers > 1 then Capitalize(color) + " human player"
    else "Human player"
  }

  /** `_makePlayers(players)`: one player per requested `(color, type)`, in order. AI players
      are told apart by colour only when there are several; humans keep the default
      `"<Color> player"` name when everybody is human. */
  method MakePlayers(specs: seq<(string, int)>) returns (result: seq<Player>)
    ensures |result| == |specs|
    ensures forall i :: 0 <= i < |specs| ==> result[i].color == specs[i].0 && result[i].kind == KindOf(specs[i].1)
    ensures forall i :: 0 <= i < |specs| ==> result[i].name == MadeName(specs[i].0, specs[i].1, Humans(specs), Computers(specs), |specs|)
  {
    var humans := CountHumans(specs);
    var computers := CountComputers(specs);
    result := [];
    var i := 0;
    while i < |specs|
      invariant 0 <= i <= |specs| && |result| == i
      invariant forall j :: 0 <= j < i ==> result[j].color == specs[j].0 && result[j].kind == KindOf(specs[j].1)
      invariant forall j :: 0 <= j < i ==> result[j].name == MadeName(specs[j].0, specs[j].1, humans, computers, |specs|)
    {
      var name := NameGiven(specs[i].0, specs[i].1, humans, computers, |specs|);
      var p := Players.NewPlayer(specs[i].0, name, KindOf(specs[i].1));
      NewPlayerName(specs[i].0, specs[i].1, humans, computers, |specs|);
      result := result + [p];
      i := i + 1;
    }
  }

  /** The name the player of colour `color` and type `kind` ends up with. */
  function MadeName(color: string, kind: int, humans: nat, computers: nat, total: nat): string {
    if IsComputer(kind) then
      if computers > 1 then Capitalize(color) + " AI player" else "AI player"
    else if humans == total then Capitalize(color) + " player"
    else if computers > 1 then Capitalize(color) + " human player"
    else "Human player"
  }

  /** A player created with the name `_makePlayers` chooses gets that name, or `setName`'s
      default `"<Color> player"` when the name is empty. */
  lemma NewPlayerName(color: string, kind: int, humans: nat, computers: nat, total: nat)
    ensures Players.NewPlayer(color, NameGiven(color, kind, humans, computers, total), KindOf(kind)).name
            == MadeName(color, kind, humans, computers, total)
  {
  }

  // ---------------------------------------------------------------------------
  // _validateGame and _getPlayer
  // ---------------------------------------------------------------------------

  /** The table `{p.getColor(): p for p in players}` that the loop of `_validateGame` fills,
      later players overwriting earlier ones of the same colour. */
  function LookupOf(players: seq<Player>): map<string, Player>
    decreases |players|
  {
    if players == [] then map[]
    else LookupOf(players[..|players| - 1])[players[|players| - 1].color := players[|players| - 1]]
  }

  /** The table has exactly the players' colours as keys. */
  lemma {:induction false} LookupKeys(players: seq<Player>, c: string)
    ensures c in LookupOf(players) <==> c in Games.Colors(players)
    decreases |players|
  {
    if players != [] {
      var n := |players| - 1;
      var pre := players[..n];
      LookupKeys(pre, c);
      if c in Games.Colors(pre) {
        var j :| 0 <= j < n && Games.Colors(pre)[j] == c;
        assert Games.Colors(players)[j] == c;
      }
      if c in Games.Colors(players) {
        var j :| 0 <= j <= n && Games.Colors(players)[j] == c;
        if j < n {
          assert Games.Colors(pre)[j] == c;
        }
      }
    }
  }

  /** A colour maps to the last player that has it. */
  lemma {:induction false} LookupLast(players: seq<Player>, j: int)
    requires 0 <= j < |players|
    requires forall k :: j < k < |players| ==> players[k].color != players[j].color
    ensures players[j].color in LookupOf(players) && LookupOf(players)[players[j].color] == players[j]
    decreases |players|
  {
    var n := |players| - 1;
    if j < n {
      var pre := players[..n];
      forall k | j < k < n
        ensures pre[k].color != pre[j].color
      {
      }
      LookupLast(pre, j);
    }
  }

  /** Appending a player keeps the colours distinct exactly when its colour is new. */
  lemma DistinctSnoc(pre: seq<Player>, p: Player)
    ensures Games.DistinctColors(pre + [p]) <==> Games.DistinctColors(pre) && p.color !in Games.Colors(pre)
  {
    var players := pre + [p];
    var n := |pre|;
    if Games.DistinctColors(players) {
      forall a, b | 0 <= a < b < n
        ensures pre[a].color != pre[b].color
      {
        assert players[a] == pre[a] && players[b] == pre[b];
      }
      forall j | 0 <= j < n
        ensures Games.Colors(pre)[j] != p.color
      {
        assert players[j] == pre[j] && players[n] == p;
      }
    }
    if Games.DistinctColors(pre) && p.color !in Games.Colors(pre) {
      forall a, b | 0 <= a < b <= n
        ensures players[a].color != players[b].color
      {
        if b < n {
          assert players[a] == pre[a] && players[b] == pre[b];
        } else {
          assert Games.Colors(pre)[a] == players[a].color;
        }
      }
    }
  }

  /** The table has one entry per player exactly when the colours are distinct. */
  lemma {:induction false} LookupSize(players: seq<Player>)
    ensures |LookupOf(players)| <= |players|
    ensures |LookupOf(players)| == |players| <==> Games.DistinctColors(players)
    decreases |players|
  {
    if players != [] {
      var n := |players| - 1;
      var pre := players[..n];
      var p := players[n];
      assert players == pre + [p];
      LookupSize(pre);
      LookupKeys(pre, p.color);
      DistinctSnoc(pre, p);
    }
  }

  /** The loop `for p in players: lookup[p.getColor()] = p` of `_validateGame`. */
  method BuildLookup(players: seq<Player>) returns (lookup: map<string, Player>)
    ensures lookup == LookupOf(players)
  {
    lookup := map[];
    var i := 0;
    while i < |players|
      invariant 0 <= i <= |players| && lookup == LookupOf(players[..i])
    {
      assert players[..i + 1][..i] == players[..i];
      lookup := lookup[players[i].color := players[i]];
      i := i + 1;
    }
    assert players[..i] == players;
  }

  /** `_validateGame()`: the board must have the configured size, there must be a player, and
      no two players may share a colour; the result is the table from colour to player. */
  method ValidateGame(board: BU.Board, players: seq<Player>, size: Settings.Size) returns (res: Result<map<string, Player>>)
    ensures res.Ok? <==> board.width == size.cols && board.height == size.rows && |players| > 0 && Games.DistinctColors(players)
    ensures res.Fail? ==> res.fault.RuntimeError?
    ensures res.Ok? ==> LookupFits(players, res.value)
  {
    if board.width != size.cols {
      return Fail(RuntimeError("Game board does not have the configured number of columns"));
    }
    if board.height != size.rows {
      return Fail(RuntimeError("Game board does not have the configured number of rows"));
    }
    if |players| == 0 {
      return Fail(RuntimeError("Game has no players"));
    }
    var lookup := BuildLookup(players);
    LookupSize(players);
    if |lookup| != |players| {
      return Fail(RuntimeError("Multiple players have the same color"));
    }
    forall c
      ensures c in lookup <==> c in Games.Colors(players)
    {
      LookupKeys(players, c);
    }
    forall j | 0 <= j < |players|
      ensures players[j].color in lookup && lookup[players[j].color] == players[j]
    {
      LookupLast(players, j);
    }
    return Ok(lookup);
  }

  /** `_getPlayer(color)`: the player of that colour, or `RuntimeError` when there is none. */
  function GetPlayer(lookup: map<string, Player>, color: string): (res: Result<Player>)
    ensures res.Ok? <==> color in lookup
    ensures res.Ok? ==> res.value == lookup[color]
    ensures res.Fail? ==> res.fault.RuntimeError?
  {
    if color in lookup then Ok(lookup[color])
    else Fail(RuntimeError("The " + color + " player was not initialized properly"))
  }

  // ---------------------------------------------------------------------------
  // The phase handlers
  // ---------------------------------------------------------------------------

  /** The column an AI reply carries, when it is an int naming a column of the board. */
  function ColumnOf(value: Value, width: int): (col: Option<int>)
    ensures col.Some? ==> 0 <= col.value < width
  {
    if IsInt(value) && 0 <= IntOf(value) < width then Some(IntOf(value)) else None
  }

  /** `_processAI(color, col)`: refuses a full column; otherwise the AI's piece starts hovering
      over the fake columns and then `col`, and the scene waits for that. */
  method ProcessAI(s: Scene, color: string, value: Value, fakes: nat, draws: seq<int>) returns (res: Result<Scene>)
    requires SceneInv(s)
    requires fakes <= FakeOuts && |draws| == fakes && forall i :: 0 <= i < fakes ==> 0 <= draws[i] < s.size.cols
    ensures res.Ok? <==> ColumnOf(value, s.size.cols).Some? && !BU.IsFullColumn(s.game.board, ColumnOf(value, s.size.cols).value)
    ensures ColumnOf(value, s.size.cols).None? ==> res == Fail(IndexError)
    ensures res.Fail? ==> res.fault.RuntimeError? || res.fault == IndexError
    ensures var col := ColumnOf(value, s.size.cols);
            col.Some? && BU.IsFullColumn(s.game.board, col.value) ==> res.Fail? && res.fault.RuntimeError?
    ensures res.Ok? ==> SceneInv(res.value) && res.value.phase == Delay && res.value.color == color
    ensures res.Ok? ==> var col := ColumnOf(value, s.size.cols).value;
              && |res.value.hover| >= 2 && !BU.IsFullColumn(s.game.board, col)
              && res.value.piece == Some(col)
              && res.value.hover[|res.value.hover| - 2..] == [col, col]
              && FakePairs(s.game.board, res.value.hover[..|res.value.hover| - 2], col)
    ensures res.Ok? ==> res.value.game == s.game && res.value.buffer == s.buffer
  {
    var col := ColumnOf(value, s.size.cols);
    if col.None? {
      return Fail(IndexError);
    }
    if BU.IsFullColumn(s.game.board, col.value) {
      return Fail(RuntimeError("AI player sent an invalid column"));
    }
    var hover := ChooseFakes(s.game.board, fakes, col.value, draws);
    return Ok(s.(color := color, hover := hover, piece := Some(col.value), phase := Delay));
  }

  /** `_checkForPlayer()`. While the game thread runs, a blocked request is taken off the
      buffer: a human's request moves to `STATE_SELECT`, an AI's pushed choice goes through
      `_processAI`. Once the thread has ended, a crash stops the program, and a winner or a
      full board completes the game. */
  method CheckForPlayer(s: Scene, thread: Thread, fakes: nat, draws: seq<int>) returns (res: Result<Scene>)
    requires SceneInv(s)
    requires fakes <= FakeOuts && |draws| == fakes && forall i :: 0 <= i < fakes ==> 0 <= draws[i] < s.size.cols
    ensures res.Ok? ==> SceneInv(res.value) && res.value.game == s.game
    ensures thread.alive && !s.buffer.blocked ==> res == Ok(s)
    ensures thread.alive && s.buffer.blocked && Poll(s.buffer).1.None? ==> res == Fail(TypeError)
    ensures thread.alive && s.buffer.blocked && Poll(s.buffer).1.Some? ==>
              var m := Poll(s.buffer).1.value;
              && (m.tag !in s.lookup ==> res.Fail? && res.fault.RuntimeError?)
              && (m.tag in s.lookup && !m.push ==>
                    res.Ok? && res.value.phase == Select && res.value.color == m.tag
                    && res.value.buffer == Poll(s.buffer).0)
              && (res.Ok? && m.push ==> res.value.phase == Delay && res.value.color == m.tag)
              && (m.tag in s.lookup && m.push && ColumnOf(m.value, s.size.cols).Some?
                  && !BU.IsFullColumn(s.game.board, ColumnOf(m.value, s.size.cols).value) ==>
                    res.Ok? && res.value.phase == Delay && res.value.buffer == Poll(s.buffer).0
                    && res.value.piece == ColumnOf(m.value, s.size.cols))
              && (m.tag in s.lookup && m.push && ColumnOf(m.value, s.size.cols).Some?
                  && BU.IsFullColumn(s.game.board, ColumnOf(m.value, s.size.cols).value) ==>
                    res.Fail? && res.fault.RuntimeError?)
    ensures !thread.alive && thread.crashed ==> res == Fail(SystemExit)
    ensures !thread.alive && !thread.crashed && s.game.winner.Some? ==>
              (s.game.winner.value in s.lookup <==> res.Ok?) && (res.Ok? ==> res.value.phase == Complete)
    ensures !thread.alive && !thread.crashed && s.game.winner.None? && BU.NoEmptyCell(s.game.board) ==>
              res == Ok(s.(info := "Game Over: Draw", phase := Complete))
    ensures !thread.alive && !thread.crashed && s.game.winner.None? && !BU.NoEmptyCell(s.game.board) ==>
              res == Ok(s.(info := "Game Over"))
  {
    if thread.alive {
      if s.buffer.blocked {
        var (buffer, reply) := Receive(s.buffer);
        if reply.Fail? {
          return Fail(reply.fault);
        }
        var m := reply.value;
        var p := GetPlayer(s.lookup, m.tag);
        if p.Fail? {
          return Fail(p.fault);
        }
        var name := Possessive(p.value.name);
        var s' := s.(buffer := buffer, info := name + " turn", color := m.tag);
        if m.push {
          res := ProcessAI(s', m.tag, m.value, fakes, draws);
        } else {
          res := Ok(s'.(phase := Select));
        }
      } else {
        res := Ok(s);
      }
    } else if thread.crashed {
      res := Fail(SystemExit);
    } else if s.game.winner.Some? {
      var p := GetPlayer(s.lookup, s.game.winner.value);
      if p.Fail? {
        return Fail(p.fault);
      }
      res := Ok(s.(info := "Winner: " + p.value.name, phase := Complete));
    } else {
      var full := BU.IsFullBoard(s.game.board);
      if full {
        res := Ok(s.(info := "Game Over: Draw", phase := Complete));
      } else {
        res := Ok(s.(info := "Game Over"));
      }
    }
  }

  /** `_getPlayerChoice(inpt)`: a touch moves the human's piece over the touched column (or
      drops the piece on a column off the board); releasing it over a column that is not full
      starts its drop into the lowest free row, while a full column discards it. */
  function GetPlayerChoice(s: Scene, input: Input): (s': Scene)
    requires SceneInv(s) && s.phase == Select
    ensures SceneInv(s') && s'.game == s.game && s'.buffer == s.buffer && s'.color == s.color
    ensures input.Touch? && 0 <= input.col < s.size.cols ==> s'.piece == Some(input.col) && s'.phase == s.phase
    ensures input.Touch? && !(0 <= input.col < s.size.cols) ==> s'.piece.None? && s'.phase == s.phase
    ensures input.NoTouch? && s.piece.None? ==> s' == s
    ensures input.NoTouch? && s.piece.Some? && BU.IsFullColumn(s.game.board, s.piece.value) ==>
              s'.piece.None? && s'.phase == s.phase
    ensures input.NoTouch? && s.piece.Some? && !BU.IsFullColumn(s.game.board, s.piece.value) ==>
              && s'.phase == Animate && s'.piece == s.piece
              && s'.dropRow == Some(BU.FindAvailableRow(s.game.board, s.piece.value))
              && s'.dropRow.value < s.size.rows
              && s.game.board.cells[s'.dropRow.value][s.piece.value] == Grid.Nobody
  {
    match input
    case Touch(col) =>
      if col < 0 || col >= s.size.cols then
        s.(info := "Invalid column. Please choose a column between 0 and " + Settings.IntToString(s.size.cols - 1),
           piece := None)
      else s.(piece := Some(col))
    case NoTouch =>
      if s.piece.None? then s
      else
        var col := s.piece.value;
        if BU.IsFullColumn(s.game.board, col) then
          s.(info := "Column " + Settings.IntToString(col) + " is full. Please choose another column.", piece := None)
        else
          var row := BU.FindAvailableRow(s.game.board, col);
          FreeRowBelowTop(s.game.board, col);
          if row != -1 then s.(dropRow := Some(row), phase := Animate)
          else s.(info := "Error finding available row in column " + Settings.IntToString(col), piece := None)
  }

  /** A column whose top cell is free has a free row: `findAvailableRow` is below the height. */
  lemma FreeRowBelowTop(b: BU.Board, col: int)
    requires BU.Valid(b) && b.height > 0 && 0 <= col < b.width && !BU.IsFullColumn(b, col)
    ensures BU.FindAvailableRow(b, col) < b.height
  {
  }

  /** `_waitOnChoice()`: once the AI's piece has finished hovering, it drops into the lowest
      free row of its column. */
  function WaitOnChoice(s: Scene, inPlace: bool): (s': Scene)
    requires SceneInv(s) && s.phase == Delay
    ensures SceneInv(s') && s'.game == s.game && s'.buffer == s.buffer
    ensures !inPlace ==> s' == s
    ensures inPlace ==> s'.phase == Animate && s'.piece == s.piece
                        && s'.dropRow == Some(BU.FindAvailableRow(s.game.board, s.piece.value))
  {
    if inPlace then
      s.(dropRow := Some(BU.FindAvailableRow(s.game.board, s.piece.value)), phase := Animate)
    else s
  }

  /** `_waitOnDrop()`: once the piece has landed, the move `(color, True, col)` is posted for
      the game thread, which is unblocked, and the scene waits again. */
  function WaitOnDrop(s: Scene, inPlace: bool): (s': Scene)
    requires SceneInv(s) && s.phase == Animate
    ensures SceneInv(s') && s'.game == s.game
    ensures !inPlace ==> s' == s
    ensures inPlace ==> && s'.phase == Phase.Waiting && s'.piece.None?
                        && s'.buffer == Unblock(Post(s.buffer, Message(s.color, true, IntV(s.piece.value))))
  {
    if inPlace then
      var col := s.piece.value;
      s.(piece := None, buffer := Unblock(Post(s.buffer, Message(s.color, true, IntV(col)))), phase := Phase.Waiting)
    else s
  }

  /** The dispatch of `update(inpt, dt)` on the phase; a completed or resetting game does
      nothing. */
  method Update(s: Scene, thread: Thread, input: Input, inPlace: bool, fakes: nat, draws: seq<int>) returns (res: Result<Scene>)
    requires SceneInv(s)
    requires fakes <= FakeOuts && |draws| == fakes && forall i :: 0 <= i < fakes ==> 0 <= draws[i] < s.size.cols
    ensures res.Ok? ==> SceneInv(res.value) && res.value.game == s.game
    ensures s.phase == Complete || s.phase == Resetting ==> res == Ok(s)
    ensures s.phase != Phase.Waiting ==> res.Ok?
    ensures s.phase == Select ==> res == Ok(GetPlayerChoice(s, input))
    ensures s.phase == Delay ==> res == Ok(WaitOnChoice(s, inPlace))
    ensures s.phase == Animate ==> res == Ok(WaitOnDrop(s, inPlace))
  {
    match s.phase
    case Waiting => res := CheckForPlayer(s, thread, fakes, draws);
    case Select => res := Ok(GetPlayerChoice(s, input));
    case Delay => res := Ok(WaitOnChoice(s, inPlace));
    case Animate => res := Ok(WaitOnDrop(s, inPlace));
    case Complete => res := Ok(s);
    case Resetting => res := Ok(s);
  }

  // ---------------------------------------------------------------------------
  // Starting and resetting
  // ---------------------------------------------------------------------------

  /** The loop `for p in players: self._game.addPlayer(p)`. */
  method AddAll(g: Games.Game, players: seq<Player>) returns (g': Games.Game)
    requires Games.Inv(g) && g.players == [] && Games.DistinctColors(players)
    ensures Games.Inv(g') && g'.players == players && g'.board == g.board && g'.winner == g.winner
    ensures players != [] ==> g'.current == 0
  {
    g' := g;
    var i := 0;
    while i < |players|
      invariant 0 <= i <= |players|
      invariant Games.Inv(g') && g'.players == players[..i] && g'.board == g.board && g'.winner == g.winner
      invariant i > 0 ==> g'.current == 0
    {
      assert players[i].color !in Games.Colors(players[..i]) by {
        forall j | 0 <= j < i
          ensures Games.Colors(players[..i])[j] != players[i].color
        {
        }
      }
      g' := Games.AddPlayer(g', players[i]);
      assert players[..i] + [players[i]] == players[..i + 1];
      i := i + 1;
    }
    assert players[..i] == players;
  }

  /** `__init__(width, height, players)`: a new game of the configured size with the
      requested players, validated, on whatever the shared buffer currently holds; the scene
      starts waiting for the game thread. */
  method NewScene(size: Settings.Size, specs: seq<(string, int)>, buffer: Buffer) returns (res: Result<Scene>)
    requires SizeOk(size)
    requires forall i, j :: 0 <= i < j < |specs| ==> specs[i].0 != specs[j].0
    ensures res.Ok? <==> |specs| > 0
    ensures res.Fail? ==> res.fault.RuntimeError?
    ensures res.Ok? ==> && SceneInv(res.value) && res.value.phase == Phase.Waiting
                        && |res.value.game.players| == |specs| && res.value.game.current == 0
                        && LookupFits(res.value.game.players, res.value.lookup)
                        && res.value.game.board.moves == [] && res.value.buffer == buffer
  {
    var g := Games.Init(size.cols, size.rows, size.streak);
    var players := MakePlayers(specs);
    g := AddAll(g, players);
    var lookup := ValidateGame(g.board, g.players, size);
    if lookup.Fail? {
      return Fail(lookup.fault);
    }
    return Ok(Scene(size, Phase.Waiting, g, lookup.value, buffer, "", "", None, [], None));
  }

  /** `_reset_press`: the scene stops while the reset button is held. */
  function ResetPress(s: Scene): (s': Scene)
    ensures s'.phase == Resetting && s'.game == s.game && s'.buffer == s.buffer
  {
    s.(phase := Resetting)
  }

  /** `_reset_release`: the shared buffer is cleaned up, a new game with the same players on
      an empty board replaces the old one, and the scene starts waiting again. */
  method ResetRelease(s: Scene) returns (res: Result<Scene>)
    requires SceneInv(s)
    ensures res.Ok? <==> s.game.players != []
    ensures res.Ok? ==> && SceneInv(res.value) && res.value.phase == Phase.Waiting
                        && res.value.buffer == Fresh
                        && res.value.game.players == s.game.players
                        && res.value.game.board.moves == [] && res.value.game.winner.None?
                        && res.value.piece.None?
  {
    var buffer := Reset(Invalidate(s.buffer));
    var g := Games.Init(s.size.cols, s.size.rows, s.size.streak);
    g := AddAll(g, s.game.players);
    var lookup := ValidateGame(g.board, g.players, s.size);
    if lookup.Fail? {
      return Fail(lookup.fault);
    }
    return Ok(Scene(s.size, Phase.Waiting, g, lookup.value, buffer, "", s.info, None, [], None));
  }

  // ---------------------------------------------------------------------------
  // A human turn, end to end
  // ---------------------------------------------------------------------------

  /** A human's turn through the scene answers the request `get_choice` posted: when the
      request is taken off the buffer, the piece is moved over a column that is not full,
      released, and has landed, the buffer holds exactly the reply `(color, True, col)` and
      is unblocked, so `get_choice` returns `col`. */
  method HumanTurn(s: Scene, thread: Thread, col: int) returns (res: Result<Scene>)
    requires SceneInv(s) && s.phase == Phase.Waiting && thread.alive
    requires exists tag :: tag != "" && tag in s.lookup && s.buffer == Buffer([Message(tag, false, NoneV)], true, false)
    requires 0 <= col < s.size.cols && !BU.IsFullColumn(s.game.board, col)
    ensures res.Ok?
    ensures var tag := res.value.color;
            && res.value.phase == Phase.Waiting
            && res.value.buffer == Buffer([Message(tag, true, IntV(col))], false, false)
            && GetChoice(tag, Fresh, _ => res.value.buffer) == (Fresh, Returned(IntV(col)))
  {
    ghost var tag :| tag != "" && tag in s.lookup && s.buffer == Buffer([Message(tag, false, NoneV)], true, false);
    var r := CheckForPlayer(s, thread, 0, []);
    assert Poll(s.buffer).1 == Some(Message(tag, false, NoneV));
    var s1 := r.value;
    assert s1.phase == Select && s1.color == tag && s1.buffer == Buffer([], true, false);
    var s2 := GetPlayerChoice(s1, Touch(col));
    var s3 := GetPlayerChoice(s2, NoTouch);
    assert s3.phase == Animate;
    var s4 := WaitOnDrop(s3, true);
    assert s4.buffer == Buffer([Message(tag, true, IntV(col))], false, false);
    GetChoiceAnswered(tag, tag, IntV(col), _ => s4.buffer);
    res := Ok(s4);
  }

  /** An AI's turn through the scene answers the choice `set_choice` pushed: when the pushed
      column is taken off the buffer, the piece has finished hovering and has landed, the
      buffer holds exactly `(color, True, col)` and is unblocked, so `set_choice` returns and
      leaves the buffer empty. */
  method AITurn(s: Scene, thread: Thread, col: int, fakes: nat, draws: seq<int>) returns (res: Result<Scene>)
    requires SceneInv(s) && s.phase == Phase.Waiting && thread.alive
    requires fakes <= FakeOuts && |draws| == fakes && forall i :: 0 <= i < fakes ==> 0 <= draws[i] < s.size.cols
    requires exists tag :: tag != "" && tag in s.lookup && s.buffer == Buffer([Message(tag, true, IntV(col))], true, false)
    requires 0 <= col < s.size.cols && !BU.IsFullColumn(s.game.board, col)
    ensures res.Ok?
    ensures var tag := res.value.color;
            && res.value.phase == Phase.Waiting && res.value.game == s.game
            && res.value.buffer == Buffer([Message(tag, true, IntV(col))], false, false)
            && SetChoice(tag, IntV(col), Fresh, _ => res.value.buffer) == (Fresh, Returned(NoneV))
  {
    ghost var tag :| tag != "" && tag in s.lookup && s.buffer == Buffer([Message(tag, true, IntV(col))], true, false);
    var r := CheckForPlayer(s, thread, fakes, draws);
    assert Poll(s.buffer).1 == Some(Message(tag, true, IntV(col)));
    assert ColumnOf(IntV(col), s.size.cols) == Some(col);
    var s1 := r.value;
    assert s1.phase == Delay && s1.color == tag && s1.piece == Some(col) && s1.buffer == Buffer([], true, false);
    var s2 := WaitOnChoice(s1, true);
    var s3 := WaitOnDrop(s2, true);
    assert s3.buffer == Buffer([Message(tag, true, IntV(col))], false, false);
    SetChoiceAnswered(tag, IntV(col), Message(tag, true, IntV(col)), _ => s3.buffer);
    res := Ok(s3);
  }
}
