/** The rules of the player selection scene of connectn/playerscene.py: two groups of radio
    buttons choosing the kind of each player, and two colour drop-downs that may not show
    the same colour. Layout, drawing and hit-testing are not modelled; a click on a radio
    button is the toggle its `update` performs followed by the `toggle_player` listener. */
module PlayerSelect {
  import opened Wrappers

  /** The colours both drop-downs offer, in order. */
  const Palette: seq<string> := ["red", "blue", "green", "orange", "magenta", "cyan", "brown"]

  /** A colour drop-down: its colours and the index of the selected one. */
  datatype Drop = Drop(colors: seq<string>, choice: nat)

  predicate DropValid(d: Drop) {
    d.choice < |d.colors|
  }

  /** The `selected` property. */
  function Selected(d: Drop): string
    requires DropValid(d)
  {
    d.colors[d.choice]
  }

  /** The states of the radio buttons `Human player`, `AI player`, `Better AI player` of one
      group, in that order. */
  type Group = seq<bool>

  datatype Scene = Scene(group1: Group, group2: Group, color1: Drop, color2: Drop)

  /** The object that sent an event. */
  datatype Sender = Radio(group: int, pos: int) | FirstDrop | SecondDrop | OtherWidget

  predicate SceneValid(s: Scene) {
    DropValid(s.color1) && DropValid(s.color2)
  }

  /** Exactly the radio button `k` of the group is on. */
  predicate OnlyOn(g: Group, k: int) {
    0 <= k < |g| && g[k] && forall j :: 0 <= j < |g| && j != k ==> !g[j]
  }

  /** The scene `__init__` builds: `Human player` selected in both groups, red for the first
      player and blue for the second. */
  function InitialScene(): (s: Scene)
    ensures SceneValid(s)
    ensures OnlyOn(s.group1, 0) && OnlyOn(s.group2, 0)
    ensures Selected(s.color1) == "red" && Selected(s.color2) == "blue"
    ensures Selected(s.color1) != Selected(s.color2)
  {
    Scene([true, false, false], [true, false, false], Drop(Palette, 0), Drop(Palette, 1))
  }

  // ---------------------------------------------------------------------------
  // Radio groups
  // ---------------------------------------------------------------------------

  /** The loop of `toggle_player` over a group: every button other than `pos` is turned off. */
  function OthersOff(g: Group, pos: int): (g': Group)
    ensures |g'| == |g|
    ensures forall j :: 0 <= j < |g| ==> g'[j] == (j == pos && g[j])
  {
    seq(|g|, j requires 0 <= j < |g| => j == pos && g[j])
  }

  /** Group `g'` is group `g` after the listener saw button `pos` report `state`: with `state`
      false the button is on again and the rest is as it was; with `state` true the button
      keeps its state and every other button is off. */
  predicate Toggled(g: Group, g': Group, pos: int, state: bool) {
    && |g'| == |g| && 0 <= pos < |g|
    && (!state ==> g'[pos] && forall j :: 0 <= j < |g| && j != pos ==> g'[j] == g[j])
    && (state ==> g'[pos] == g[pos] && forall j :: 0 <= j < |g| && j != pos ==> !g'[j])
  }

  /** `toggle_player(obj, state)`: a button switched off is switched back on; a button switched
      on switches off every other button of its group. */
  function TogglePlayer(s: Scene, obj: Sender, state: bool): (s': Scene)
    requires obj.Radio?
    ensures s'.color1 == s.color1 && s'.color2 == s.color2
    ensures obj.group == 1 && 0 <= obj.pos < |s.group1| ==> Toggled(s.group1, s'.group1, obj.pos, state) && s'.group2 == s.group2
    ensures obj.group == 2 && 0 <= obj.pos < |s.group2| ==> Toggled(s.group2, s'.group2, obj.pos, state) && s'.group1 == s.group1
    ensures !(obj.group == 1 && 0 <= obj.pos < |s.group1|) && !(obj.group == 2 && 0 <= obj.pos < |s.group2|) ==> s' == s
  {
    if !state then
      if obj.group == 1 && 0 <= obj.pos < |s.group1| then s.(group1 := s.group1[obj.pos := true])
      else if obj.group == 2 && 0 <= obj.pos < |s.group2| then s.(group2 := s.group2[obj.pos := true])
      else s
    else if obj.group == 1 && 0 <= obj.pos < |s.group1| then s.(group1 := OthersOff(s.group1, obj.pos))
    else if obj.group == 2 && 0 <= obj.pos < |s.group2| then s.(group2 := OthersOff(s.group2, obj.pos))
    else s
  }

  /** A click on button `pos` of group `group`: the button flips its own state, then notifies
      `toggle_player` with the new state. */
  function Click(s: Scene, group: int, pos: int): (s': Scene)
    requires group == 1 || group == 2
    requires 0 <= pos < (if group == 1 then |s.group1| else |s.group2|)
    ensures s'.color1 == s.color1 && s'.color2 == s.color2
    ensures group == 1 ==> s'.group2 == s.group2 && |s'.group1| == |s.group1| && s'.group1[pos]
    ensures group == 2 ==> s'.group1 == s.group1 && |s'.group2| == |s.group2| && s'.group2[pos]
    ensures group == 1 && s.group1[pos] ==> s'.group1 == s.group1
    ensures group == 2 && s.group2[pos] ==> s'.group2 == s.group2
    ensures group == 1 && !s.group1[pos] ==> forall j :: 0 <= j < |s.group1| && j != pos ==> !s'.group1[j]
    ensures group == 2 && !s.group2[pos] ==> forall j :: 0 <= j < |s.group2| && j != pos ==> !s'.group2[j]
  {
    var flipped :=
      if group == 1 then s.(group1 := s.group1[pos := !s.group1[pos]])
      else s.(group2 := s.group2[pos := !s.group2[pos]]);
    var state := if group == 1 then flipped.group1[pos] else flipped.group2[pos];
    TogglePlayer(flipped, Radio(group, pos), state)
  }

  /** The groups behave as radio groups: with one button on, after any click exactly the
      clicked button is on, and the other group is untouched. */
  lemma ClickSelectsClicked(s: Scene, group: int, pos: int, k: int)
    requires group == 1 || group == 2
    requires 0 <= pos < (if group == 1 then |s.group1| else |s.group2|)
    requires OnlyOn(if group == 1 then s.group1 else s.group2, k)
    ensures OnlyOn(if group == 1 then Click(s, group, pos).group1 else Click(s, group, pos).group2, pos)
    ensures group == 1 ==> Click(s, group, pos).group2 == s.group2
    ensures group == 2 ==> Click(s, group, pos).group1 == s.group1
    ensures Click(s, group, pos).color1 == s.color1 && Click(s, group, pos).color2 == s.color2
  {
    var g := if group == 1 then s.group1 else s.group2;
    if g[pos] {
      assert pos == k;
      assert g[pos := !g[pos]][pos := true] == g;
    }
  }

  /** The loop of `getPlayers` over one group: the index of the last button that is on, or 0. */
  method PlayerType(g: Group) returns (kind: int)
    ensures (forall j :: 0 <= j < |g| ==> !g[j]) ==> kind == 0
    ensures (exists j :: 0 <= j < |g| && g[j]) ==> 0 <= kind < |g| && g[kind] && forall j :: kind < j < |g| ==> !g[j]
  {
    kind := 0;
    var found := false;
    var pos := 0;
    while pos < |g|
      invariant 0 <= pos <= |g|
      invariant found <==> exists j :: 0 <= j < pos && g[j]
      invariant !found ==> kind == 0
      invariant found ==> 0 <= kind < pos && g[kind] && forall j :: kind < j < pos ==> !g[j]
    {
      if g[pos] {
        kind := pos;
        found := true;
      }
      pos := pos + 1;
    }
  }

  /** `getPlayers()`: `[(color1, type1), (color2, type2)]`. */
  method GetPlayers(s: Scene) returns (players: seq<(string, int)>)
    requires SceneValid(s)
    ensures |players| == 2
    ensures players[0].0 == Selected(s.color1) && players[1].0 == Selected(s.color2)
    ensures forall k :: OnlyOn(s.group1, k) ==> players[0].1 == k
    ensures forall k :: OnlyOn(s.group2, k) ==> players[1].1 == k
  {
    var type1 := PlayerType(s.group1);
    var type2 := PlayerType(s.group2);
    players := [(Selected(s.color1), type1), (Selected(s.color2), type2)];
  }

  // ---------------------------------------------------------------------------
  // Colour drop-downs
  // ---------------------------------------------------------------------------

  /** The loop of `change_color` over the colours of the other drop-down, from index `i`: the
      first colour different from `color`. */
  function FirstOtherFrom(colors: seq<string>, color: string, i: nat): (k: Option<nat>)
    requires i <= |colors|
    ensures k.None? <==> forall j :: i <= j < |colors| ==> colors[j] == color
    ensures k.Some? ==> i <= k.value < |colors| && colors[k.value] != color
    ensures k.Some? ==> forall j :: i <= j < k.value ==> colors[j] == color
    decreases |colors| - i
  {
    if i == |colors| then None
    else if colors[i] != color then Some(i)
    else FirstOtherFrom(colors, color, i + 1)
  }

  /** `alt.selected = item` after `change_color` saw `color` in `alt`: the first colour that
      differs, if there is one. The setter stores the first index of `item`, which is the
      index the loop found since every earlier colour is `color`. */
  function Avoid(alt: Drop, color: string): (alt': Drop)
    requires DropValid(alt)
    ensures DropValid(alt') && alt'.colors == alt.colors
    ensures Selected(alt) != color ==> alt' == alt
    ensures Selected(alt) == color && (exists j :: 0 <= j < |alt.colors| && alt.colors[j] != color) ==>
              Selected(alt') != color
    ensures Selected(alt) == color && (forall j :: 0 <= j < |alt.colors| ==> alt.colors[j] == color) ==>
              alt' == alt
  {
    if Selected(alt) != color then alt
    else match FirstOtherFrom(alt.colors, color, 0)
      case None => alt
      case Some(k) => alt.(choice := k)
  }

  /** `change_color(obj, color)`: when the drop-down `obj` now shows `color`, the other one is
      moved off `color`; an event from any other object is ignored. */
  function ChangeColor(s: Scene, obj: Sender, color: string): (s': Scene)
    requires SceneValid(s)
    ensures SceneValid(s') && s'.group1 == s.group1 && s'.group2 == s.group2
    ensures obj.FirstDrop? ==> s'.color1 == s.color1 && s'.color2 == Avoid(s.color2, color)
    ensures obj.SecondDrop? ==> s'.color2 == s.color2 && s'.color1 == Avoid(s.color1, color)
    ensures !obj.FirstDrop? && !obj.SecondDrop? ==> s' == s
  {
    match obj
    case FirstDrop => s.(color2 := Avoid(s.color2, color))
    case SecondDrop => s.(color1 := Avoid(s.color1, color))
    case _ => s
  }

  /** The drop-downs keep the two players' colours apart: after the first drop-down is set
      to any colour of the palette and notifies `change_color`, the two colours differ. */
  lemma PickKeepsColorsDistinct(s: Scene, choice: nat)
    requires SceneValid(s) && s.color1.colors == Palette && s.color2.colors == Palette
    requires choice < |Palette|
    ensures var picked := s.(color1 := s.color1.(choice := choice));
            var s' := ChangeColor(picked, FirstDrop, Palette[choice]);
            Selected(s'.color1) != Selected(s'.color2)
  {
    var color := Palette[choice];
    if color == Palette[0] {
      assert Palette[1] != color;
    } else {
      assert Palette[0] != color;
    }
  }
}
