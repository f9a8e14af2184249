/** The game controller of a6game.py.

    `is_new_player` is the only function of that file with a body; the `Game` methods
    are documented but unimplemented, so `Game` is modelled by the contracts its
    documentation and attribute invariants state. */
module Games {
  import opened Wrappers
  import BottomUpBoard
  import Players

  type Player = Players.Player

  datatype Game = Game(board: BottomUpBoard.Board, players: seq<Player>, current: int, winner: Option<string>)

  /** The colours of `players`, in order. */
  function Colors(players: seq<Player>): (cs: seq<string>)
    ensures |cs| == |players|
    ensures forall i :: 0 <= i < |players| ==> cs[i] == players[i].color
  {
    if players == [] then [] else [players[0].color] + Colors(players[1..])
  }

  /** No two players share a colour. */
  predicate DistinctColors(players: seq<Player>) {
    forall i, j :: 0 <= i < j < |players| ==> players[i].color != players[j].color
  }

  /** The attribute invariants of `Game`: a valid board, players of distinct colours, a current
      index inside the player list or -1 when it is empty, and a winner that is the colour of
      one of the players if there is one. */
  predicate Inv(g: Game) {
    && BottomUpBoard.Valid(g.board)
    && DistinctColors(g.players)
    && (if g.players == [] then g.current == -1 else 0 <= g.current < |g.players|)
    && (g.winner.Some? ==> g.winner.value in Colors(g.players))
  }

  /** `is_new_player(players, p)`: no player in `players` has `p`'s colour. */
  method IsNewPlayer(players: seq<Player>, p: Player) returns (result: bool)
    ensures result <==> p.color !in Colors(players)
  {
    var i := 0;
    while i < |players|
      invariant 0 <= i <= |players|
      invariant forall k :: 0 <= k < i ==> players[k].color != p.color
    {
      if players[i].color == p.color {
        assert Colors(players)[i] == p.color;
        return false;
      }
      i := i + 1;
    }
    return true;
  }

  /** `__init__(width, height, streak)`: a new game on an empty board and with no players. */
  function Init(width: int, height: int, streak: int): (g: Game)
    requires width > 0 && height > 0 && 0 < streak <= Min(width, height)
    ensures Inv(g)
    ensures g.players == [] && g.current == -1 && g.winner == None
    ensures g.board.width == width && g.board.height == height && g.board.streak == streak
    ensures g.board.moves == []
  {
    Game(BottomUpBoard.Init(height, width, streak), [], -1, None)
  }

  /** `addPlayer(player)`: appends a player whose colour is new; when the list was empty the
      new player becomes the current one. */
  function AddPlayer(g: Game, p: Player): (g': Game)
    requires Inv(g) && p.color !in Colors(g.players)
    ensures Inv(g')
    ensures g'.players == g.players + [p]
    ensures g.players == [] ==> g'.current == 0 && g'.players[g'.current] == p
    ensures g.players != [] ==> g'.current == g.current
    ensures g'.board == g.board && g'.winner == g.winner
  {
    var g' := g.(players := g.players + [p], current := if g.players == [] then 0 else g.current);
    assert DistinctColors(g'.players) by {
      forall i, j | 0 <= i < j < |g'.players|
        ensures g'.players[i].color != g'.players[j].color
      {
        if j == |g.players| {
          assert Colors(g.players)[i] == g.players[i].color;
        }
      }
    }
    assert g.winner.Some? ==> g.winner.value in Colors(g'.players) by {
      if g.winner.Some? {
        var i :| 0 <= i < |g.players| && Colors(g.players)[i] == g.winner.value;
        assert Colors(g'.players)[i] == g.winner.value;
      }
    }
    g'
  }

  /** `clearPlayers()`: removes every player; the winner, which must be one of the players'
      colours, goes with them. */
  function ClearPlayers(g: Game): (g': Game)
    requires Inv(g)
    ensures Inv(g')
    ensures g'.players == [] && g'.current == -1 && g'.winner == None && g'.board == g.board
  {
    g.(players := [], current := -1, winner := None)
  }

  /** `getCurrent()`: the current player, or `None` when there are no players. */
  function GetCurrent(g: Game): (p: Option<Player>)
    requires Inv(g)
    ensures p.None? <==> g.players == []
    ensures p.Some? ==> p.value in g.players && p.value == g.players[g.current]
  {
    if g.players == [] then None else Some(g.players[g.current])
  }

  /** `advance()`: the next player becomes current, wrapping around to the first one after the
      last. A game without players is left as it is. */
  function Advance(g: Game): (g': Game)
    requires Inv(g)
    ensures Inv(g')
    ensures g'.players == g.players && g'.board == g.board && g'.winner == g.winner
    ensures g.players != [] ==> g'.current == (g.current + 1) % |g.players|
    ensures g.players != [] && g.current + 1 < |g.players| ==> g'.current == g.current + 1
    ensures g.players != [] && g.current + 1 == |g.players| ==> g'.current == 0
  {
    if g.players == [] then g
    else g.(current := if g.current + 1 == |g.players| then 0 else g.current + 1)
  }

  /** `n` calls of `advance()`. */
  function AdvanceTimes(g: Game, n: nat): (g': Game)
    requires Inv(g)
    ensures Inv(g') && g'.players == g.players && g'.board == g.board && g'.winner == g.winner
    decreases n
  {
    if n == 0 then g else AdvanceTimes(Advance(g), n - 1)
  }

  /** Advancing `a` times and then `b` times is advancing `a + b` times. */
  lemma {:induction false} AdvanceTimesAdd(g: Game, a: nat, b: nat)
    requires Inv(g)
    ensures AdvanceTimes(AdvanceTimes(g, a), b) == AdvanceTimes(g, a + b)
    decreases a
  {
    if a > 0 {
      AdvanceTimesAdd(Advance(g), a - 1, b);
    }
  }

  /** While the end of the list is not reached, each advance moves one place on. */
  lemma {:induction false} AdvanceTimesCounts(g: Game, n: nat)
    requires Inv(g) && g.players != [] && g.current + n < |g.players|
    ensures AdvanceTimes(g, n).current == g.current + n
    decreases n
  {
    if n > 0 {
      AdvanceTimesCounts(Advance(g), n - 1);
    }
  }

  /** Every player has a turn once in each round: `len(players)` advances bring back the
      current player. */
  lemma FullRoundRestoresCurrent(g: Game)
    requires Inv(g)
    ensures AdvanceTimes(g, |g.players|) == g
  {
    if g.players != [] {
      var len := |g.players|;
      var toLast := len - 1 - g.current;
      AdvanceTimesCounts(g, toLast);
      var last := AdvanceTimes(g, toLast);
      var first := AdvanceTimes(last, 1);
      assert first.current == 0;
      AdvanceTimesAdd(g, toLast, 1);
      if g.current > 0 {
        AdvanceTimesCounts(first, g.current);
      }
      AdvanceTimesAdd(g, toLast + 1, g.current);
    }
  }
}
