/** The board engine, class Minefield of src/Minefield.ts. The grid of tiles,
    the count of safe tiles still hidden, the detonation and completion flags
    and the cached snapshot are fields that the methods update in place. The
    invariant those fields keep, and the effect of each step on it, are
    stated first on plain values. */
module Engine {
  import opened Board
  import opened Placement
  import opened Reveal

  /** The deep copy handed to the view (src/Minefield.ts:20-26). */
  datatype Snapshot = Snapshot(grid: Grid, remainingTiles: int, detonated: bool, completed: bool)

  // ---------------------------------------------------------------------------
  // The invariant, on the values of the engine's fields

  /** The mine layout of initialization, remainingTiles counting the safe tiles
      still hidden, detonated recording whether a mine was revealed, and
      completion only once no safe tile is left. */
  ghost predicate Consistent(g: Grid, o: Options, rem: int, det: bool, comp: bool) {
    var w, h := o.width, o.height;
    Layout(g, w, h, o.mines)
    && rem == |Hidden(g, w, h)|
    && det == (CheckedMines(g, w, h) != {})
    && (comp ==> rem == 0)
  }

  /** remainingTiles is what the source computes: the cells, less the mines,
      less the safe tiles revealed so far (src/Minefield.ts:52, 152). */
  lemma RemainingTiles(g: Grid, o: Options, rem: int, det: bool, comp: bool)
    requires Consistent(g, o, rem, det, comp)
    ensures rem == o.width * o.height - o.mines - |CheckedSafe(g, o.width, o.height)|
    ensures 0 <= rem <= o.width * o.height - o.mines
  {
    HiddenCount(g, o.width, o.height);
  }

  /** Once the game is complete every safe tile has been revealed. */
  lemma CompletedClears(g: Grid, o: Options, rem: int, det: bool, comp: bool)
    requires Consistent(g, o, rem, det, comp) && comp
    ensures forall p {:trigger At(g, p)} :: InBounds(p, o.width, o.height) && !At(g, p).isMine ==> At(g, p).isChecked
  {
    NoneHidden(g, o.width, o.height);
  }

  /** A freshly laid out grid with nothing revealed starts the game with
      width*height - mines safe tiles to find (src/Minefield.ts:52). */
  lemma FreshGame(g: Grid, o: Options)
    requires Layout(g, o.width, o.height, o.mines)
    requires forall p {:trigger At(g, p)} :: InBounds(p, o.width, o.height) ==> !At(g, p).isChecked
    ensures Consistent(g, o, o.width * o.height - o.mines, false, false)
  {
    var w, h := o.width, o.height;
    assert CheckedSafe(g, w, h) == {};
    assert CheckedMines(g, w, h) == {};
    HiddenCount(g, w, h);
  }

  /** Flags leave the invariant alone (src/Minefield.ts:118-123). */
  lemma MarkStep(g: Grid, o: Options, rem: int, det: bool, comp: bool, at: Point)
    requires Consistent(g, o, rem, det, comp) && InBounds(at, o.width, o.height)
    ensures Consistent(Toggled(g, at), o, rem, det, comp)
  {
    MarkKeepsLayout(g, at, o.width, o.height);
  }

  /** Revealing one hidden tile (src/Minefield.ts:144-152): a mine sets
      detonated, a safe tile lowers remainingTiles by one, and the set of
      hidden tiles shrinks. */
  lemma RevealStep(g: Grid, o: Options, rem: int, det: bool, comp: bool, at: Point)
    requires Consistent(g, o, rem, det, comp)
    requires InBounds(at, o.width, o.height) && !At(g, at).isChecked
    ensures var g1 := Update(g, at, At(g, at).(isChecked := true));
      var mine := At(g, at).isMine;
      Consistent(g1, o, if mine then rem else rem - 1, det || mine, comp)
      && (!mine ==> rem > 0)
      && Unchecked(g1, o.width, o.height) < Unchecked(g, o.width, o.height)
  {
    var w, h := o.width, o.height;
    RevealOne(g, at, w, h);
    var g1 := Update(g, at, At(g, at).(isChecked := true));
    assert at in Unchecked(g, w, h);
    if At(g, at).isMine {
      assert at in CheckedMines(g1, w, h);
    } else {
      assert at in Hidden(g, w, h);
    }
  }

  /** What the neighbour loop (src/Minefield.ts:134-142, 156-163) has done to
      the fields so far, from (g0, rem0, det0, comp0) to (g, rem, det, comp):
      a completed reveal whose new tiles are all reached from neighbours of
      `at`, with remainingTiles only going down, completion set
      exactly when it reached zero, no mine revealed when none is around `at`,
      and the first i neighbours in ns checked or marked. */
  ghost predicate Progress(g0: Grid, rem0: int, det0: bool, comp0: bool, at: Point, ns: seq<Point>, i: int,
                           g: Grid, rem: int, det: bool, comp: bool, w: nat, h: nat) {
    Revealed(g0, g, w, h)
    && rem <= rem0
    && comp == (comp0 || (rem == 0 && rem < rem0))
    && RootedAround(g0, g, at, w, h)
    && (SafeAround(g0, at, w, h) ==> NoneDetonated(g0, g, w, h) && det == det0)
    && 0 <= i <= |ns|
    && (forall j :: 0 <= j < i ==> InBounds(ns[j], w, h) && (At(g, ns[j]).isChecked || At(g, ns[j]).isMarked))
  }

  /** The effect of checking neighbour n, from (g1, rem1, det1, comp1) to
      (g2, rem2, det2, comp2) (src/Minefield.ts:137-141, 159-162): a completed
      reveal that leaves n checked or marked, whose new tiles are all reached
      from n, with remainingTiles only going down, completion set exactly when
      it reached zero, no mine revealed when n is safe, and nothing changed
      when n was already checked. */
  ghost predicate NeighborChecked(g1: Grid, rem1: int, det1: bool, comp1: bool, n: Point,
                                  g2: Grid, rem2: int, det2: bool, comp2: bool, w: nat, h: nat) {
    Revealed(g1, g2, w, h) && InBounds(n, w, h)
    && (At(g2, n).isChecked || At(g2, n).isMarked)
    && 0 <= rem2 <= rem1 && comp2 == (comp1 || (rem2 == 0 && rem2 < rem1))
    && RootedAt(g1, g2, n, w, h)
    && (!At(g1, n).isMine ==> NoneDetonated(g1, g2, w, h) && det2 == det1)
    && (At(g1, n).isChecked ==> g2 == g1 && rem2 == rem1 && det2 == det1 && comp2 == comp1)
  }

  /** One more neighbour n checked, from (g1, ...) to (g2, ...), extends the
      progress of the loop. */
  lemma ProgressStep(g0: Grid, rem0: int, det0: bool, comp0: bool, at: Point, ns: seq<Point>, i: int,
                     g1: Grid, rem1: int, det1: bool, comp1: bool, n: Point,
                     g2: Grid, rem2: int, det2: bool, comp2: bool, w: nat, h: nat)
    requires Progress(g0, rem0, det0, comp0, at, ns, i, g1, rem1, det1, comp1, w, h)
    requires i < |ns| && ns[i] == n
    requires InBounds(n, w, h) && Adjacent(at, n)
    requires NeighborChecked(g1, rem1, det1, comp1, n, g2, rem2, det2, comp2, w, h)
    ensures Progress(g0, rem0, det0, comp0, at, ns, i + 1, g2, rem2, det2, comp2, w, h)
  {
    NeighborStep(g0, g1, g2, at, n, w, h);
    assert SafeAround(g0, at, w, h) ==> NoneDetonated(g0, g2, w, h) && det2 == det0 by {
      if SafeAround(g0, at, w, h) {
        assert !At(g0, n).isMine && !At(g1, n).isMine;
      }
    }
    forall j | 0 <= j < i + 1
      ensures InBounds(ns[j], w, h) && (At(g2, ns[j]).isChecked || At(g2, ns[j]).isMarked)
    {
      if j < i {
        assert At(g2, ns[j]) == At(g1, ns[j]).(isChecked := At(g2, ns[j]).isChecked);
      }
    }
  }

  /** Before the first neighbour nothing has changed. */
  lemma ProgressStarts(g: Grid, rem: int, det: bool, comp: bool, at: Point, ns: seq<Point>, w: nat, h: nat)
    requires Shaped(g, w, h)
    ensures Progress(g, rem, det, comp, at, ns, 0, g, rem, det, comp, w, h)
  {
    RevealedRefl(g, w, h);
  }

  /** Once every neighbour has been handled, all of them are checked or marked. */
  lemma ProgressSettles(g0: Grid, rem0: int, det0: bool, comp0: bool, at: Point,
                        g: Grid, rem: int, det: bool, comp: bool, w: nat, h: nat)
    requires var ns := Neighbors(at, w, h);
      Progress(g0, rem0, det0, comp0, at, ns, |ns|, g, rem, det, comp, w, h)
    ensures Settled(g, at, w, h)
  {
    var ns := Neighbors(at, w, h);
    forall n | n in ns ensures At(g, n).isChecked || At(g, n).isMarked {
      var j :| 0 <= j < |ns| && ns[j] == n;
    }
  }

  /** The effect of checkTile on a hidden, unflagged tile at `at`
      (src/Minefield.ts:144-167), from (g0, rem0, det0, comp0) to
      (g, rem, det, comp): a completed reveal, rooted at `at`, that leaves it
      checked. A mine is revealed alone and detonates. A safe tile lowers
      remainingTiles and detonates nothing; with a mine around it, it is
      revealed alone. Completion is set exactly when remainingTiles reaches 0. */
  ghost predicate HiddenChecked(g0: Grid, rem0: int, det0: bool, comp0: bool, at: Point,
                                g: Grid, rem: int, det: bool, comp: bool, w: nat, h: nat) {
    Revealed(g0, g, w, h) && InBounds(at, w, h) && At(g, at).isChecked
    && RootedAt(g0, g, at, w, h)
    && rem <= rem0 && comp == (comp0 || (rem == 0 && rem < rem0))
    && (At(g0, at).isMine ==> g == Update(g0, at, At(g0, at).(isChecked := true)) && det && rem == rem0)
    && (!At(g0, at).isMine ==> NoneDetonated(g0, g, w, h) && det == det0 && rem < rem0)
    && (!At(g0, at).isMine && At(g0, at).surroundingMines != 0 ==>
          g == Update(g0, at, At(g0, at).(isChecked := true)))
  }

  /** A hidden mine (src/Minefield.ts:144-150). */
  lemma MineChecked(g0: Grid, rem0: int, det0: bool, comp0: bool, at: Point, w: nat, h: nat)
    requires Shaped(g0, w, h) && InBounds(at, w, h)
    requires !At(g0, at).isChecked && !At(g0, at).isMarked && At(g0, at).isMine
    ensures HiddenChecked(g0, rem0, det0, comp0, at,
                          Update(g0, at, At(g0, at).(isChecked := true)), rem0, true, comp0, w, h)
  {
    SingleReveal(g0, at, w, h);
  }

  /** A hidden safe tile with a mine around it (src/Minefield.ts:144, 152,
      165-167). */
  lemma NumberChecked(g0: Grid, rem0: int, det0: bool, comp0: bool, at: Point, w: nat, h: nat)
    requires Shaped(g0, w, h) && InBounds(at, w, h)
    requires !At(g0, at).isChecked && !At(g0, at).isMarked && !At(g0, at).isMine
    requires At(g0, at).surroundingMines != 0
    ensures HiddenChecked(g0, rem0, det0, comp0, at, Update(g0, at, At(g0, at).(isChecked := true)),
                          rem0 - 1, det0, comp0 || rem0 - 1 == 0, w, h)
  {
    SingleReveal(g0, at, w, h);
  }

  /** A hidden safe tile with no mine around it, then the loop over its
      neighbours from (g1, rem0 - 1, det0, comp0) to (g2, rem2, det2, comp2)
      (src/Minefield.ts:144, 152, 156-167). */
  lemma CascadeChecked(g0: Grid, rem0: int, det0: bool, comp0: bool, at: Point,
                       g1: Grid, g2: Grid, rem2: int, det2: bool, comp2: bool, w: nat, h: nat)
    requires Shaped(g0, w, h) && InBounds(at, w, h)
    requires !At(g0, at).isChecked && !At(g0, at).isMarked && !At(g0, at).isMine
    requires At(g0, at).surroundingMines == 0
    requires g1 == Update(g0, at, At(g0, at).(isChecked := true))
    requires Revealed(g1, g2, w, h) && Settled(g2, at, w, h) && RootedAround(g1, g2, at, w, h)
    requires NoneDetonated(g1, g2, w, h) && det2 == det0
    requires rem2 <= rem0 - 1 && comp2 == (comp0 || (rem2 == 0 && rem2 < rem0 - 1))
    ensures HiddenChecked(g0, rem0, det0, comp0, at, g2, rem2, det2, comp2 || rem2 == 0, w, h)
  {
    RevealOne(g0, at, w, h);
    CascadeReveal(g0, g1, g2, at, w, h);
    assert At(g2, at) == At(g1, at).(isChecked := At(g2, at).isChecked);
  }

  // ---------------------------------------------------------------------------
  // The three loops of initialize (src/Minefield.ts:55-100)

  /** The columns of fresh tiles: hidden, unmarked, safe, with a zero count
      (src/Minefield.ts:55-69). */
  method NewGrid(w: nat, h: nat) returns (g: Grid)
    ensures Shaped(g, w, h)
    ensures forall p {:trigger At(g, p)} :: InBounds(p, w, h) ==> At(g, p) == Tile(p, false, false, false, 0)
  {
    g := [];
    for x := 0 to w
      invariant Shaped(g, x, h)
      invariant forall p {:trigger At(g, p)} :: InBounds(p, x, h) ==> At(g, p) == Tile(p, false, false, false, 0)
    {
      var column: seq<Tile> := [];
      for y := 0 to h
        invariant |column| == y
        invariant forall j :: 0 <= j < y ==> column[j] == Tile(Point(x, j), false, false, false, 0)
      {
        column := column + [Tile(Point(x, y), false, false, false, 0)];
      }
      ghost var before := g;
      g := g + [column];
      forall p {:trigger At(g, p)} | InBounds(p, x + 1, h) ensures At(g, p) == Tile(p, false, false, false, 0) {
        if p.x < x {
          assert At(g, p) == At(before, p);
        } else {
          assert At(g, p) == column[p.y];
        }
      }
    }
  }

  /** Rejection sampling of the mines (src/Minefield.ts:71-91): draws that hit
      a mine or a corner are skipped, the others become mines, until `mines`
      have been placed. Nothing but isMine changes. */
  method PlaceMines(g0: Grid, w: nat, h: nat, mines: nat, draws: seq<Point>) returns (g: Grid)
    requires Shaped(g0, w, h) && AllOnGrid(draws, w, h)
    requires Place(draws, w, h, mines, MineSet(g0, w, h)).Some?
    ensures Shaped(g, w, h)
    ensures Some(MineSet(g, w, h)) == Place(draws, w, h, mines, MineSet(g0, w, h))
    ensures forall p {:trigger At(g, p)} :: InBounds(p, w, h) ==> At(g, p) == At(g0, p).(isMine := At(g, p).isMine)
  {
    g := g0;
    // On a rejected draw the source's `mines--; continue` undoes the loop's own
    // `mines++`.
    var placed: int := 0;
    var k := 0;
    while placed < mines
      invariant 0 <= placed <= mines && 0 <= k <= |draws|
      invariant Shaped(g, w, h)
      invariant forall p {:trigger At(g, p)} :: InBounds(p, w, h) ==> At(g, p) == At(g0, p).(isMine := At(g, p).isMine)
      invariant Place(draws[k..], w, h, mines - placed, MineSet(g, w, h)) == Place(draws, w, h, mines, MineSet(g0, w, h))
      decreases |draws| - k
    {
      assert draws[k..] != [];
      assert draws[k..][1..] == draws[k + 1..];
      var at := draws[k];
      assert InBounds(at, w, h);
      k := k + 1;
      if At(g, at).isMine {
        assert at in MineSet(g, w, h);
        placed := placed - 1;
      } else if (at.x == 0 || at.x == w - 1) && (at.y == 0 || at.y == h - 1) {
        placed := placed - 1;
      } else {
        ghost var before := MineSet(g, w, h);
        assert at !in before;
        g := Update(g, at, At(g, at).(isMine := true));
        assert MineSet(g, w, h) == before + {at};
      }
      placed := placed + 1;
    }
  }

  /** The counting loops have filled in the tiles before (x, y) in column
      order with their number of neighbouring mines and left the rest of g0 as
      it was. */
  ghost predicate CountedUpTo(g0: Grid, g: Grid, mines: set<Point>, x: int, y: int, w: nat, h: nat) {
    Shaped(g0, w, h) && Shaped(g, w, h) && MineSet(g, w, h) == mines
    && forall p {:trigger At(g, p)} :: InBounds(p, w, h) ==>
      At(g, p) == At(g0, p).(surroundingMines :=
        if p.x < x || (p.x == x && p.y < y) then |MinesAround(mines, p)| else At(g0, p).surroundingMines)
  }

  /** Filling in the tile at (x, y) moves the loops on by one tile. */
  lemma CountedStep(g0: Grid, g: Grid, mines: set<Point>, x: nat, y: nat, w: nat, h: nat)
    requires CountedUpTo(g0, g, mines, x, y, w, h) && x < w && y < h
    ensures var at := Point(x, y);
      CountedUpTo(g0, Update(g, at, At(g, at).(surroundingMines := |MinesAround(mines, at)|)), mines, x, y + 1, w, h)
  {
    var at := Point(x, y);
    var g1 := Update(g, at, At(g, at).(surroundingMines := |MinesAround(mines, at)|));
    assert MineSet(g1, w, h) == MineSet(g, w, h);
  }

  /** A finished column: the next one starts. */
  lemma CountedColumn(g0: Grid, g: Grid, mines: set<Point>, x: int, w: nat, h: nat)
    requires CountedUpTo(g0, g, mines, x, h, w, h)
    ensures CountedUpTo(g0, g, mines, x + 1, 0, w, h)
  {
  }

  /** Every tile's count of neighbouring mines, summed over the neighbour
      lookup (src/Minefield.ts:93-100). Nothing else changes. */
  method CountSurrounding(g0: Grid, w: nat, h: nat) returns (g: Grid)
    requires Shaped(g0, w, h)
    ensures Shaped(g, w, h)
    ensures forall p {:trigger At(g, p)} :: InBounds(p, w, h) ==>
      At(g, p) == At(g0, p).(surroundingMines := |MinesAround(MineSet(g0, w, h), p)|)
  {
    g := g0;
    ghost var mines := MineSet(g0, w, h);
    for x := 0 to w
      invariant CountedUpTo(g0, g, mines, x, 0, w, h)
    {
      for y := 0 to h
        invariant CountedUpTo(g0, g, mines, x, y, w, h)
      {
        var at := Point(x, y);
        SurroundingCount(g, w, h, at);
        var count := CountMines(g, w, h, Neighbors(at, w, h));
        CountedStep(g0, g, mines, x, y, w, h);
        g := Update(g, at, At(g, at).(surroundingMines := count));
      }
      CountedColumn(g0, g, mines, x, w, h);
    }
  }

  // ---------------------------------------------------------------------------
  // How checkTile finds its tile (src/Minefield.ts:126)

  /** Array.prototype.at: a negative index counts back from the end; None is
      `undefined`. */
  function AtIndex(len: nat, i: int): (r: Option<int>)
    ensures r.Some? <==> 0 <= i + len && i < len
    ensures r.Some? ==> 0 <= r.value < len && (r.value == i || r.value == i + len)
    ensures 0 <= i ==> (r.Some? <==> i < len) && (r.Some? ==> r.value == i)
  {
    if 0 <= i < len then Some(i)
    else if 0 <= i + len && i < 0 then Some(i + len)
    else None
  }

  /** The grid position whose tile `grid.at(x)?.at(y)` finds, as written. */
  function ResolvedAsWritten(w: nat, h: nat, at: Point): (r: Option<Point>)
    ensures r.Some? ==> InBounds(r.value, w, h)
  {
    match AtIndex(w, at.x)
    case None => None
    case Some(x) =>
      match AtIndex(h, at.y)
      case None => None
      case Some(y) => Some(Point(x, y))
  }

  /** On the grid, and past its far edges, the lookup behaves as a bounds
      check; only negative coordinates are resolved differently. */
  lemma ResolvedOnGrid(w: nat, h: nat, at: Point)
    ensures InBounds(at, w, h) ==> ResolvedAsWritten(w, h, at) == Some(at)
    ensures w <= at.x || h <= at.y ==> ResolvedAsWritten(w, h, at) == None
    ensures at.x + w < 0 || at.y + h < 0 ==> ResolvedAsWritten(w, h, at) == None
  {
  }

  /** The wrap in a concrete game of 3x3: checkTile({x: -1, y: 1}) finds the
      tile at (2, 1), but a cascade from it walks the neighbours of (-1, 1),
      which include (0, 0), a tile that is not next to (2, 1). */
  lemma NegativeIndexWraps()
    ensures ResolvedAsWritten(3, 3, Point(-1, 1)) == Some(Point(2, 1))
    ensures !InBounds(Point(-1, 1), 3, 3)
    ensures Point(0, 0) in Neighbors(Point(-1, 1), 3, 3)
    ensures !Adjacent(Point(2, 1), Point(0, 0))
  {
    assert InBounds(Point(0, 0), 3, 3) && Adjacent(Point(-1, 1), Point(0, 0));
  }

  class Minefield {
    var options: Options
    var grid: Grid
    var remainingTiles: int
    var detonated: bool
    /** Whether completionTime is set. */
    var completed: bool
    /** The cached snapshot; None when a mutation has invalidated it. */
    var snapshot: Option<Snapshot>

    /** The engine's invariant between public calls. */
    ghost predicate Valid()
      reads this
    {
      Consistent(grid, options, remainingTiles, detonated, completed)
    }

    /** The state as a snapshot would show it now. */
    function View(): Snapshot
      reads this
    {
      Snapshot(grid, remainingTiles, detonated, completed)
    }

    /** A cached snapshot shows the current state. */
    ghost predicate Coherent()
      reads this
    {
      snapshot.Some? ==> snapshot.value == View()
    }

    /** The state right after initialize(opts) consumed the random draws. */
    ghost predicate NewGame(opts: Options, draws: seq<Point>)
      reads this
    {
      var w, h := opts.width, opts.height;
      options == opts && Valid()
      && (forall p {:trigger At(grid, p)} :: InBounds(p, w, h) ==>
            At(grid, p).position == p && !At(grid, p).isChecked && !At(grid, p).isMarked)
      && Place(draws, w, h, opts.mines, {}) == Some(MineSet(grid, w, h))
      && remainingTiles == w * h - opts.mines
      && !detonated && !completed && snapshot == None
    }

    constructor (opts: Options, draws: seq<Point>)
      requires AllOnGrid(draws, opts.width, opts.height)
      requires Place(draws, opts.width, opts.height, opts.mines, {}).Some?
      ensures NewGame(opts, draws)
    {
      options := opts;
      grid := [];
      remainingTiles := 0;
      detonated := false;
      completed := false;
      snapshot := None;
      new;
      Initialize(opts, draws);
    }

    /** Starts a new game (src/Minefield.ts:47-103): a fresh grid, `opts.mines`
        mines placed from the random draws, and every tile's count of
        neighbouring mines. The draws must let the rejection loop finish. */
    method Initialize(opts: Options, draws: seq<Point>)
      requires AllOnGrid(draws, opts.width, opts.height)
      requires Place(draws, opts.width, opts.height, opts.mines, {}).Some?
      modifies this
      ensures NewGame(opts, draws)
    {
      var w, h := opts.width, opts.height;
      options := opts;
      grid := [];
      completed := false;
      remainingTiles := w * h - opts.mines;
      detonated := false;

      var empty := NewGrid(w, h);
      assert MineSet(empty, w, h) == {};
      var mined := PlaceMines(empty, w, h, opts.mines, draws);
      grid := CountSurrounding(mined, w, h);

      PlaceResult(draws, w, h, opts.mines, {});
      assert MineSet(grid, w, h) == MineSet(mined, w, h);
      FreshGame(grid, opts);
      snapshot := None;
    }

    /** Toggles the flag on one tile (src/Minefield.ts:118-123). The tile is
        looked up without a bounds check, so a position off the grid throws a
        TypeError before anything changes; `thrown` reports that outcome. */
    method MarkTile(at: Point) returns (thrown: bool)
      requires Valid()
      modifies this
      ensures Valid()
      ensures options == old(options) && remainingTiles == old(remainingTiles)
      ensures detonated == old(detonated) && completed == old(completed)
      ensures thrown <==> !InBounds(at, options.width, options.height)
      ensures thrown ==> grid == old(grid) && snapshot == old(snapshot)
      ensures !thrown ==> grid == Toggled(old(grid), at) && snapshot == None
    {
      if !(0 <= at.x < |grid| && 0 <= at.y < |grid[at.x]|) {
        return true;
      }
      MarkStep(grid, options, remainingTiles, detonated, completed, at);
      var tile := At(grid, at);
      grid := Update(grid, at, tile.(isMarked := !tile.isMarked));
      snapshot := None;
      thrown := false;
    }

    /** Reveals a tile (src/Minefield.ts:125-171). A marked tile or a position
        off the grid leaves everything as it was, the cached snapshot
        included; a negative coordinate counts as off the grid here, where
        the source's `Array.prototype.at` would wrap it (see
        ResolvedAsWritten). An already checked tile reveals its neighbours (the chord).
        An unchecked mine detonates; an unchecked safe tile lowers
        remainingTiles and, with no mine around it, reveals its neighbours. */
    method CheckTile(at: Point)
      requires Valid()
      modifies this
      ensures Valid() && options == old(options)
      ensures Revealed(old(grid), grid, options.width, options.height)
      ensures remainingTiles <= old(remainingTiles)
      ensures completed == (old(completed) || (remainingTiles == 0 && remainingTiles < old(remainingTiles)))
      ensures InBounds(at, options.width, options.height) && !At(old(grid), at).isChecked ==>
        RootedAt(old(grid), grid, at, options.width, options.height)
      ensures InBounds(at, options.width, options.height) && At(old(grid), at).isChecked ==>
        RootedAround(old(grid), grid, at, options.width, options.height)
      ensures !InBounds(at, options.width, options.height) || At(old(grid), at).isMarked ==>
        grid == old(grid) && remainingTiles == old(remainingTiles) && detonated == old(detonated)
        && completed == old(completed) && snapshot == old(snapshot)
      ensures InBounds(at, options.width, options.height) && !At(old(grid), at).isMarked ==>
        At(grid, at).isChecked && snapshot == None
      ensures (InBounds(at, options.width, options.height) && !At(old(grid), at).isMarked
        && !At(old(grid), at).isChecked && At(old(grid), at).isMine) ==>
        grid == Update(old(grid), at, At(old(grid), at).(isChecked := true))
        && detonated && remainingTiles == old(remainingTiles)
      ensures (InBounds(at, options.width, options.height) && !At(old(grid), at).isMarked
        && !At(old(grid), at).isChecked && !At(old(grid), at).isMine
        && At(old(grid), at).surroundingMines != 0) ==>
        grid == Update(old(grid), at, At(old(grid), at).(isChecked := true))
      ensures (InBounds(at, options.width, options.height)
        && !At(old(grid), at).isChecked && !At(old(grid), at).isMine) ==>
        NoneDetonated(old(grid), grid, options.width, options.height)
      ensures (InBounds(at, options.width, options.height) && !At(old(grid), at).isMarked
        && !At(old(grid), at).isChecked && !At(old(grid), at).isMine) ==>
        detonated == old(detonated) && remainingTiles < old(remainingTiles)
      ensures (InBounds(at, options.width, options.height) && !At(old(grid), at).isMarked
        && At(old(grid), at).isChecked) ==> Settled(grid, at, options.width, options.height)
      decreases Unchecked(grid, options.width, options.height),
        if InBounds(at, options.width, options.height) && At(grid, at).isChecked then 4 else 1
    {
      if !(0 <= at.x < |grid| && 0 <= at.y < |grid[at.x]|) || At(grid, at).isMarked {
        RevealedRefl(grid, options.width, options.height);
        return;
      }
      if At(grid, at).isChecked {
        CheckNeighbors(at);
        snapshot := None;
      } else {
        RevealHidden(at);
      }
    }

    /** checkTile on a hidden, unflagged tile (src/Minefield.ts:144-167): the
        tile is revealed; a mine detonates; a safe tile lowers remainingTiles,
        reveals its neighbours when none of them is a mine, and completes the
        game when it was the last safe tile. */
    method RevealHidden(at: Point)
      requires Valid() && InBounds(at, options.width, options.height)
      requires !At(grid, at).isChecked && !At(grid, at).isMarked
      modifies this
      ensures Valid() && options == old(options) && snapshot == None
      ensures HiddenChecked(old(grid), old(remainingTiles), old(detonated), old(completed), at,
                            grid, remainingTiles, detonated, completed, options.width, options.height)
      decreases Unchecked(grid, options.width, options.height), 0
    {
      var w, h := options.width, options.height;
      var tile := At(grid, at);
      ghost var g0, rem0, comp0 := grid, remainingTiles, completed;
      RevealStep(grid, options, remainingTiles, detonated, completed, at);
      grid := Update(grid, at, tile.(isChecked := true));

      if tile.isMine {
        detonated := true;
        MineChecked(g0, rem0, old(detonated), comp0, at, w, h);
      } else {
        remainingTiles := remainingTiles - 1;
        if tile.surroundingMines == 0 {
          RevealAround(at, g0, rem0, old(detonated), comp0);
        } else {
          NumberChecked(g0, rem0, old(detonated), comp0, at, w, h);
        }
        if remainingTiles == 0 {
          completed := true;
        }
      }
      snapshot := None;
    }

    /** The zero-cascade of checkTile (src/Minefield.ts:156-163): once the safe
        tile at `at`, with no mine around it, has been revealed from grid g0,
        its neighbours are checked in turn. Together with that first reveal
        this is a reveal rooted at `at` that detonates nothing. */
    method RevealAround(at: Point, ghost g0: Grid, ghost rem0: int, ghost det0: bool, ghost comp0: bool)
      requires Valid() && Shaped(g0, options.width, options.height) && InBounds(at, options.width, options.height)
      requires !At(g0, at).isChecked && !At(g0, at).isMarked && !At(g0, at).isMine
      requires At(g0, at).surroundingMines == 0
      requires grid == Update(g0, at, At(g0, at).(isChecked := true))
      requires remainingTiles == rem0 - 1 && detonated == det0 && completed == comp0
      modifies this
      ensures Valid() && options == old(options)
      ensures HiddenChecked(g0, rem0, det0, comp0, at, grid, remainingTiles, detonated,
                            completed || remainingTiles == 0, options.width, options.height)
      decreases Unchecked(grid, options.width, options.height), 5
    {
      var w, h := options.width, options.height;
      ghost var g1 := grid;
      ZeroMeansSafe(grid, w, h, at);
      CheckNeighbors(at);
      CascadeChecked(g0, rem0, det0, comp0, at, g1, grid, remainingTiles, detonated, completed, w, h);
    }

    /** The loop shared by the chord (src/Minefield.ts:134-142) and the
        zero-cascade (src/Minefield.ts:156-163): every neighbour of `at` that is
        not yet checked is checked in turn. */
    method CheckNeighbors(at: Point)
      requires Valid() && InBounds(at, options.width, options.height) && At(grid, at).isChecked
      modifies this
      ensures Valid() && options == old(options)
      ensures Revealed(old(grid), grid, options.width, options.height)
      ensures Settled(grid, at, options.width, options.height)
      ensures remainingTiles <= old(remainingTiles)
      ensures completed == (old(completed) || (remainingTiles == 0 && remainingTiles < old(remainingTiles)))
      ensures RootedAround(old(grid), grid, at, options.width, options.height)
      ensures SafeAround(old(grid), at, options.width, options.height) ==>
        NoneDetonated(old(grid), grid, options.width, options.height) && detonated == old(detonated)
      decreases Unchecked(grid, options.width, options.height), 3
    {
      var w, h := options.width, options.height;
      var neighbors := Neighbors(at, w, h);
      ProgressStarts(grid, remainingTiles, detonated, completed, at, neighbors, w, h);
      for i := 0 to |neighbors|
        invariant Valid() && options == old(options)
        invariant Progress(old(grid), old(remainingTiles), old(detonated), old(completed), at, neighbors, i,
                           grid, remainingTiles, detonated, completed, w, h)
      {
        var n := neighbors[i];
        assert n in neighbors;
        assert InBounds(n, w, h) && Adjacent(at, n);
        ghost var g1, rem1, det1, comp1 := grid, remainingTiles, detonated, completed;
        UncheckedShrinks(old(grid), grid, w, h);
        CheckNeighbor(n);
        ProgressStep(old(grid), old(remainingTiles), old(detonated), old(completed), at, neighbors, i,
                     g1, rem1, det1, comp1, n, grid, remainingTiles, detonated, completed, w, h);
      }
      ProgressSettles(old(grid), old(remainingTiles), old(detonated), old(completed), at,
                      grid, remainingTiles, detonated, completed, w, h);
    }

    /** One round of that loop (src/Minefield.ts:137-141, 159-162): a
        neighbour not yet checked is checked. */
    method CheckNeighbor(n: Point)
      requires Valid() && InBounds(n, options.width, options.height)
      modifies this
      ensures Valid() && options == old(options)
      ensures NeighborChecked(old(grid), old(remainingTiles), old(detonated), old(completed), n,
                              grid, remainingTiles, detonated, completed, options.width, options.height)
      decreases Unchecked(grid, options.width, options.height), 2
    {
      if !At(grid, n).isChecked {
        CheckTile(n);
      } else {
        RevealedRefl(grid, options.width, options.height);
      }
    }

    /** Returns the cached snapshot, building and caching a copy of the state
        when there is none (src/Minefield.ts:187-203). */
    method GetSnapshot() returns (s: Snapshot)
      modifies this`snapshot
      ensures old(snapshot).Some? ==> s == old(snapshot).value && snapshot == old(snapshot)
      ensures old(snapshot).None? ==> s == View() && snapshot == Some(s)
      ensures old(Coherent()) ==> s == View() && Coherent()
    {
      if snapshot.None? {
        snapshot := Some(Snapshot(grid, remainingTiles, detonated, completed));
      }
      s := snapshot.value;
    }
  }
}
