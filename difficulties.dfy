/** The difficulty presets the game offers (src/Difficulties.ts). */
module Difficulties {
  import opened Board
  import opened Placement
  import opened Engine

  datatype Difficulty = Easy | Medium | Hard | Expert

  /** The options of each preset. Every one leaves room for its mines off the
      four corners. */
  function Preset(d: Difficulty): (o: Options)
    ensures 2 <= o.width && 2 <= o.height
    ensures 0 < o.mines <= o.width * o.height - 4
  {
    match d
    case Easy => Options(10, 9, 9)
    case Medium => Options(40, 16, 16)
    case Hard => Options(99, 30, 16)
    case Expert => Options(145, 30, 20)
  }

  /** Every preset can be started: some stream of random draws lets
      initialize's rejection loop place all of its mines. */
  lemma PresetPlayable(d: Difficulty)
    ensures var o := Preset(d);
      exists draws :: AllOnGrid(draws, o.width, o.height) && Place(draws, o.width, o.height, o.mines, {}).Some?
  {
    var o := Preset(d);
    NonCornerCount(o.width, o.height);
    PlacementPossible(o.width, o.height, o.mines);
  }

  /** A game just started from a preset has width*height - mines safe tiles to
      find (71 on the easy board) and no mine in a corner, so a first click on
      a corner never detonates. */
  lemma PresetStart(m: Minefield, d: Difficulty, draws: seq<Point>)
    requires m.NewGame(Preset(d), draws)
    ensures m.remainingTiles == Preset(d).width * Preset(d).height - Preset(d).mines
    ensures d == Easy ==> m.remainingTiles == 71
    ensures var w, h := m.options.width, m.options.height;
      forall p {:trigger At(m.grid, p)} :: InBounds(p, w, h) && IsCorner(p, w, h) ==> !At(m.grid, p).isMine
  {
  }
}
