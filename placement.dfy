/** Mine placement by rejection sampling (src/Minefield.ts:71-91). The random
    coordinates are an explicit stream of draws; a draw is rejected when its
    cell already holds a mine or is a corner, and the loop stops once the
    requested number of mines has been placed. */
module Placement {
  import opened Board

  /** Every draw lies on the grid (Math.floor(Math.random() * size) does). */
  predicate AllOnGrid(draws: seq<Point>, w: nat, h: nat) {
    forall i :: 0 <= i < |draws| ==> InBounds(draws[i], w, h)
  }

  /** The mines placed once `todo` more have been accepted from `draws`, starting
      from the set `mines`; None when the stream runs out first (the source would
      go on drawing). */
  ghost function Place(draws: seq<Point>, w: nat, h: nat, todo: nat, mines: set<Point>): (r: Option<set<Point>>)
    ensures r.Some? ==> mines <= r.value
    decreases |draws|
  {
    if todo == 0 then Some(mines)
    else if draws == [] then None
    else if draws[0] in mines || IsCorner(draws[0], w, h) then Place(draws[1..], w, h, todo, mines)
    else Place(draws[1..], w, h, todo - 1, mines + {draws[0]})
  }

  ghost function NonCorners(w: nat, h: nat): (s: set<Point>)
    ensures forall p :: p in s <==> InBounds(p, w, h) && !IsCorner(p, w, h)
  {
    set p | p in Cells(w, h) && !IsCorner(p, w, h)
  }

  /** Each accepted draw adds one new mine, on the grid and off the corners. */
  lemma {:induction false} PlaceResult(draws: seq<Point>, w: nat, h: nat, todo: nat, mines: set<Point>)
    requires AllOnGrid(draws, w, h)
    requires Place(draws, w, h, todo, mines).Some?
    ensures var r := Place(draws, w, h, todo, mines).value;
      mines <= r && |r| == |mines| + todo
      && forall p :: p in r - mines ==> InBounds(p, w, h) && !IsCorner(p, w, h)
    decreases |draws|
  {
    if todo != 0 {
      var d := draws[0];
      assert AllOnGrid(draws[1..], w, h);
      if d in mines || IsCorner(d, w, h) {
        PlaceResult(draws[1..], w, h, todo, mines);
      } else {
        assert InBounds(d, w, h);
        PlaceResult(draws[1..], w, h, todo - 1, mines + {d});
      }
    }
  }

  /** The loop can only finish when there are at least as many non-corner cells
      as mines requested. */
  lemma PlacementNeedsRoom(draws: seq<Point>, w: nat, h: nat, mines: nat)
    requires AllOnGrid(draws, w, h)
    requires Place(draws, w, h, mines, {}).Some?
    ensures mines <= |NonCorners(w, h)|
  {
    PlaceResult(draws, w, h, mines, {});
    var r := Place(draws, w, h, mines, {}).value;
    SubsetCard(r, NonCorners(w, h));
  }

  /** Lists the elements of a set in some order. */
  ghost function Enumerate(s: set<Point>): (r: seq<Point>)
    ensures |r| == |s| && forall q :: q in r ==> q in s
  {
    if s == {} then []
    else
      var p :| p in s;
      [p] + Enumerate(s - {p})
  }

  lemma {:induction false} EnumerationPlaces(s: set<Point>, w: nat, h: nat, todo: nat, mines: set<Point>)
    requires forall p :: p in s ==> InBounds(p, w, h) && !IsCorner(p, w, h) && p !in mines
    requires todo <= |s|
    ensures AllOnGrid(Enumerate(s), w, h)
    ensures Place(Enumerate(s), w, h, todo, mines).Some?
    decreases s
  {
    var e := Enumerate(s);
    assert forall i :: 0 <= i < |e| ==> e[i] in e;
    if s != {} {
      var p := e[0];
      assert e[1..] == Enumerate(s - {p});
      EnumerationPlaces(s - {p}, w, h, if todo == 0 then 0 else todo - 1, mines + {p});
    }
  }

  /** Conversely, when the non-corner cells suffice, some stream of draws lets
      the loop finish. */
  lemma PlacementPossible(w: nat, h: nat, mines: nat)
    requires mines <= |NonCorners(w, h)|
    ensures exists draws :: AllOnGrid(draws, w, h) && Place(draws, w, h, mines, {}).Some?
  {
    EnumerationPlaces(NonCorners(w, h), w, h, mines, {});
    var draws := Enumerate(NonCorners(w, h));
    assert AllOnGrid(draws, w, h) && Place(draws, w, h, mines, {}).Some?;
  }

  /** On a grid at least 2x2 the four corners are distinct, leaving w*h - 4 cells. */
  lemma NonCornerCount(w: nat, h: nat)
    requires w >= 2 && h >= 2
    ensures |NonCorners(w, h)| == w * h - 4
  {
    CellsCount(w, h);
    var corners := {Point(0, 0), Point(w - 1, 0), Point(0, h - 1), Point(w - 1, h - 1)};
    assert |corners| == 4;
    assert NonCorners(w, h) == Cells(w, h) - corners;
    assert corners <= Cells(w, h);
    assert Cells(w, h) * corners == corners;
  }
}
