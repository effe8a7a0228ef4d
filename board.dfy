/** Values of the minefield engine (src/Minefield.ts): points, tiles, the grid
    as a column-major sequence of columns, and the pure lookups and
    specification functions the engine is proved against. */
module Board {

  datatype Option<T> = None | Some(value: T)

  datatype Point = Point(x: int, y: int)

  datatype Options = Options(mines: nat, width: nat, height: nat)

  datatype Tile = Tile(position: Point, isMine: bool, isChecked: bool, isMarked: bool, surroundingMines: int)

  /** Column-major: `g[x][y]` is the tile at column x, row y. */
  type Grid = seq<seq<Tile>>

  predicate InBounds(p: Point, w: int, h: int) {
    0 <= p.x < w && 0 <= p.y < h
  }

  /** One of the four corner cells, which never hold a mine. */
  predicate IsCorner(p: Point, w: int, h: int) {
    (p.x == 0 || p.x == w - 1) && (p.y == 0 || p.y == h - 1)
  }

  /** The eight Moore neighbours of a cell, the cell itself excluded. */
  predicate Adjacent(p: Point, q: Point) {
    p != q && -1 <= p.x - q.x <= 1 && -1 <= p.y - q.y <= 1
  }

  /** Position of q in the row-major order of the 3x3 block centred on `at`. */
  function Rank(at: Point, q: Point): int {
    3 * (q.y - at.y + 1) + (q.x - at.x + 1)
  }

  predicate Increasing(at: Point, ps: seq<Point>) {
    forall i, j :: 0 <= i < j < |ps| ==> Rank(at, ps[i]) < Rank(at, ps[j])
  }

  ghost function Cells(w: nat, h: nat): (s: set<Point>)
    ensures forall p {:trigger p in s} :: p in s <==> InBounds(p, w, h)
  {
    var s := set x, y | 0 <= x < w && 0 <= y < h :: Point(x, y);
    assert forall p :: InBounds(p, w, h) ==> Point(p.x, p.y) in s;
    s
  }

  /** The cell of rank k in the 3x3 block centred on `at`. */
  function AtRank(at: Point, k: int): (q: Point)
    requires 0 <= k < 9
    ensures Rank(at, q) == k && -1 <= q.x - at.x <= 1 && -1 <= q.y - at.y <= 1
  {
    Point(at.x + k % 3 - 1, at.y + k / 3 - 1)
  }

  /** The in-bounds cells of rank k and above in the block around `at`, the
      centre left out, in increasing rank. */
  function Scan(at: Point, k: int, w: int, h: int): (r: seq<Point>)
    requires 0 <= k <= 9
    ensures forall q {:trigger q in r} :: q in r <==> InBounds(q, w, h) && Adjacent(at, q) && k <= Rank(at, q)
    decreases 9 - k
  {
    if k == 9 then []
    else
      var q := AtRank(at, k);
      var rest := Scan(at, k + 1, w, h);
      assert forall p :: Adjacent(at, p) && Rank(at, p) == k ==> p == q && k != 4;
      if k != 4 && InBounds(q, w, h) then [q] + rest else rest
  }

  lemma {:induction false} ScanIncreasing(at: Point, k: int, w: int, h: int)
    requires 0 <= k <= 9
    ensures var r := Scan(at, k, w, h);
      Increasing(at, r) && forall i :: 0 <= i < |r| ==> k <= Rank(at, r[i])
    decreases 9 - k
  {
    if k < 9 {
      ScanIncreasing(at, k + 1, w, h);
    }
  }

  /** The in-bounds neighbours of `at`, in the fixed order of the lookup table
      (left to right, top row first). */
  function Neighbors(at: Point, w: int, h: int): (r: seq<Point>)
    ensures forall q {:trigger q in r} {:trigger Adjacent(at, q)} :: q in r <==> InBounds(q, w, h) && Adjacent(at, q)
    ensures at !in r
    ensures |r| <= 8
  {
    var r := Scan(at, 0, w, h);
    ScanIncreasing(at, 0, w, h);
    NoDuplicates(at, r);
    r
  }

  /** The lookup lists the neighbours in increasing rank, hence each once. */
  lemma NeighborsIncreasing(at: Point, w: int, h: int)
    ensures Increasing(at, Neighbors(at, w, h))
    ensures var r := Neighbors(at, w, h); forall i, j :: 0 <= i < j < |r| ==> r[i] != r[j]
  {
    ScanIncreasing(at, 0, w, h);
    NoDuplicates(at, Neighbors(at, w, h));
  }

  /** A sequence increasing in rank has no repeated element and at most nine. */
  lemma NoDuplicates(at: Point, r: seq<Point>)
    requires Increasing(at, r)
    requires forall q :: q in r ==> Adjacent(at, q)
    ensures |r| <= 8
    ensures forall i, j :: 0 <= i < j < |r| ==> r[i] != r[j]
  {
    if |r| > 8 {
      var k := 0;
      assert r[0] in r;
      while k < 8
        invariant 0 <= k <= 8
        invariant Adjacent(at, r[k]) && Rank(at, r[k]) >= (if k >= 4 then k + 1 else k)
      {
        assert r[k + 1] in r;
        k := k + 1;
      }
      assert false;
    }
  }

  /** Cells of column x. */
  ghost function Column(x: int, h: nat): (s: set<Point>)
    ensures forall p {:trigger p in s} :: p in s <==> p.x == x && 0 <= p.y < h
  {
    var s := set y | 0 <= y < h :: Point(x, y);
    assert forall p: Point :: p.x == x && 0 <= p.y < h ==> Point(p.x, p.y) in s;
    s
  }

  lemma {:induction false} ColumnCount(x: int, h: nat)
    ensures |Column(x, h)| == h
  {
    if h > 0 {
      ColumnCount(x, h - 1);
      assert Column(x, h) == Column(x, h - 1) + {Point(x, h - 1)};
    }
  }

  /** The grid has exactly w*h cells. */
  lemma {:induction false} CellsCount(w: nat, h: nat)
    ensures |Cells(w, h)| == w * h
  {
    if w == 0 {
      assert Cells(w, h) == {};
    } else {
      var left, col := Cells(w - 1, h), Column(w - 1, h);
      CellsCount(w - 1, h);
      ColumnCount(w - 1, h);
      forall p ensures p in Cells(w, h) <==> p in left + col {
        assert p in Cells(w, h) <==> InBounds(p, w, h);
        assert p in left <==> InBounds(p, w - 1, h);
        assert p in col <==> p.x == w - 1 && 0 <= p.y < h;
      }
      assert Cells(w, h) == left + col;
      forall p | p in left ensures p !in col {
        assert InBounds(p, w - 1, h);
      }
      assert left * col == {};
      assert |left + col| == |left| + |col|;
      MulStep(w, h);
    }
  }

  lemma SubsetCard<T>(a: set<T>, b: set<T>)
    requires a <= b
    ensures |a| <= |b|
  {
    assert b == a + (b - a);
    assert a * (b - a) == {};
  }

  lemma MulStep(w: nat, h: nat)
    requires w > 0
    ensures (w - 1) * h + h == w * h
  {
  }

  // ---------------------------------------------------------------------------
  // The grid

  predicate Shaped(g: Grid, w: nat, h: nat) {
    |g| == w && forall x :: 0 <= x < w ==> |g[x]| == h
  }

  function At(g: Grid, p: Point): Tile
    requires 0 <= p.x < |g| && 0 <= p.y < |g[p.x]|
  {
    g[p.x][p.y]
  }

  /** The grid with the tile at p replaced by t. */
  function Update(g: Grid, p: Point, t: Tile): (r: Grid)
    requires 0 <= p.x < |g| && 0 <= p.y < |g[p.x]|
    ensures |r| == |g| && forall x {:trigger r[x]} :: 0 <= x < |g| ==> |r[x]| == |g[x]|
    ensures forall w, h {:trigger Shaped(r, w, h)} :: Shaped(g, w, h) ==> Shaped(r, w, h)
    ensures At(r, p) == t
    ensures forall q: Point {:trigger At(r, q)} :: 0 <= q.x < |g| && 0 <= q.y < |g[q.x]| && q != p ==> At(r, q) == At(g, q)
  {
    g[p.x := g[p.x][p.y := t]]
  }

  /** Tile [x][y] knows its own position. */
  ghost predicate Positioned(g: Grid, w: nat, h: nat)
    requires Shaped(g, w, h)
  {
    forall p {:trigger At(g, p)} :: InBounds(p, w, h) ==> At(g, p).position == p
  }

  ghost function MineSet(g: Grid, w: nat, h: nat): (s: set<Point>)
    requires Shaped(g, w, h)
    ensures forall p {:trigger p in s} :: p in s <==> InBounds(p, w, h) && At(g, p).isMine
  {
    set p | p in Cells(w, h) && At(g, p).isMine
  }

  /** Safe tiles already revealed. */
  ghost function CheckedSafe(g: Grid, w: nat, h: nat): (s: set<Point>)
    requires Shaped(g, w, h)
    ensures forall p {:trigger p in s} :: p in s <==> InBounds(p, w, h) && At(g, p).isChecked && !At(g, p).isMine
  {
    set p | p in Cells(w, h) && At(g, p).isChecked && !At(g, p).isMine
  }

  /** Mines already revealed (detonated). */
  ghost function CheckedMines(g: Grid, w: nat, h: nat): (s: set<Point>)
    requires Shaped(g, w, h)
    ensures forall p {:trigger p in s} :: p in s <==> InBounds(p, w, h) && At(g, p).isChecked && At(g, p).isMine
  {
    set p | p in Cells(w, h) && At(g, p).isChecked && At(g, p).isMine
  }

  /** Safe tiles still hidden: the ones remainingTiles counts. */
  ghost function Hidden(g: Grid, w: nat, h: nat): (s: set<Point>)
    requires Shaped(g, w, h)
    ensures forall p {:trigger p in s} :: p in s <==> InBounds(p, w, h) && !At(g, p).isChecked && !At(g, p).isMine
  {
    set p | p in Cells(w, h) && !At(g, p).isChecked && !At(g, p).isMine
  }

  ghost function Unchecked(g: Grid, w: nat, h: nat): (s: set<Point>)
    requires Shaped(g, w, h)
    ensures forall p {:trigger p in s} :: p in s <==> InBounds(p, w, h) && !At(g, p).isChecked
  {
    set p | p in Cells(w, h) && !At(g, p).isChecked
  }

  /** The mines among the neighbours of p. */
  ghost function MinesAround(mines: set<Point>, p: Point): (s: set<Point>)
    ensures forall q {:trigger q in s} :: q in s <==> q in mines && Adjacent(p, q)
  {
    set q | q in mines && Adjacent(p, q)
  }

  ghost predicate NoCornerMines(g: Grid, w: nat, h: nat)
    requires Shaped(g, w, h)
  {
    forall p {:trigger At(g, p)} :: InBounds(p, w, h) && IsCorner(p, w, h) ==> !At(g, p).isMine
  }

  /** Every tile's surroundingMines is the number of mines next to it. */
  ghost predicate CountsMatch(g: Grid, w: nat, h: nat)
    requires Shaped(g, w, h)
  {
    forall p {:trigger MinesAround(MineSet(g, w, h), p)} :: InBounds(p, w, h) ==> At(g, p).surroundingMines == |MinesAround(MineSet(g, w, h), p)|
  }

  /** The mine layout invariants that hold from the end of initialization on. */
  ghost predicate Layout(g: Grid, w: nat, h: nat, mines: nat) {
    Shaped(g, w, h) && Positioned(g, w, h) && NoCornerMines(g, w, h)
    && |MineSet(g, w, h)| == mines && CountsMatch(g, w, h)
  }

  /** The number of mines among the tiles at ns (the `reduce` over the neighbour
      tiles that computes surroundingMines). */
  function CountMines(g: Grid, w: nat, h: nat, ns: seq<Point>): (r: nat)
    requires Shaped(g, w, h)
    requires forall q :: q in ns ==> InBounds(q, w, h)
    ensures r <= |ns|
  {
    if ns == [] then 0
    else
      var last := ns[|ns| - 1];
      assert last in ns && forall q :: q in ns[..|ns| - 1] ==> q in ns;
      assert InBounds(last, w, h) && |g[last.x]| == h;
      CountMines(g, w, h, ns[..|ns| - 1]) + (if At(g, last).isMine then 1 else 0)
  }

  /** Over a duplicate-free sequence, the sum counts each mine of the sequence once. */
  lemma {:induction false} CountMinesIsCard(g: Grid, w: nat, h: nat, ns: seq<Point>)
    requires Shaped(g, w, h)
    requires forall q :: q in ns ==> InBounds(q, w, h)
    requires forall i, j :: 0 <= i < j < |ns| ==> ns[i] != ns[j]
    ensures CountMines(g, w, h, ns) == |set q | q in ns && At(g, q).isMine|
  {
    if ns != [] {
      var init, last := ns[..|ns| - 1], ns[|ns| - 1];
      assert forall q :: q in init ==> q in ns;
      assert last in ns && InBounds(last, w, h) && |g[last.x]| == h;
      CountMinesIsCard(g, w, h, init);
      var before := set q | q in init && At(g, q).isMine;
      var after := set q | q in ns && At(g, q).isMine;
      assert last !in init;
      assert ns == init + [last];
      if At(g, last).isMine {
        assert after == before + {last};
      } else {
        assert after == before;
      }
    }
  }

  /** The count over the neighbour lookup is the number of mines next to p. */
  lemma SurroundingCount(g: Grid, w: nat, h: nat, p: Point)
    requires Shaped(g, w, h)
    ensures CountMines(g, w, h, Neighbors(p, w, h)) == |MinesAround(MineSet(g, w, h), p)|
  {
    var ns := Neighbors(p, w, h);
    NeighborsIncreasing(p, w, h);
    CountMinesIsCard(g, w, h, ns);
    assert (set q | q in ns && At(g, q).isMine) == MinesAround(MineSet(g, w, h), p);
  }

  /** A zero count means every neighbour is safe. */
  lemma ZeroMeansSafe(g: Grid, w: nat, h: nat, p: Point)
    requires Shaped(g, w, h) && CountsMatch(g, w, h)
    requires InBounds(p, w, h) && At(g, p).surroundingMines == 0
    ensures forall q {:trigger Adjacent(p, q)} :: InBounds(q, w, h) && Adjacent(p, q) ==> !At(g, q).isMine
  {
    var around := MinesAround(MineSet(g, w, h), p);
    assert around == {};
    forall q | InBounds(q, w, h) && Adjacent(p, q) ensures !At(g, q).isMine {
      assert q !in around;
      assert q !in MineSet(g, w, h);
    }
  }

  /** Two grids of the same shape that agree on every tile are equal. */
  lemma SameTiles(g1: Grid, g2: Grid, w: nat, h: nat)
    requires Shaped(g1, w, h) && Shaped(g2, w, h)
    requires forall p {:trigger At(g1, p)} {:trigger At(g2, p)} :: InBounds(p, w, h) ==> At(g1, p) == At(g2, p)
    ensures g1 == g2
  {
    forall x | 0 <= x < w ensures g1[x] == g2[x] {
      forall y | 0 <= y < h ensures g1[x][y] == g2[x][y] {
        assert At(g1, Point(x, y)) == At(g2, Point(x, y));
      }
    }
  }

  // ---------------------------------------------------------------------------
  // Revealing tiles

  /** g1 differs from g0 only in tiles that became checked. */
  ghost predicate RevealOnly(g0: Grid, g1: Grid, w: nat, h: nat) {
    Shaped(g0, w, h) && Shaped(g1, w, h)
    && forall p {:trigger At(g1, p)} {:trigger At(g0, p)} :: InBounds(p, w, h) ==>
         At(g1, p) == At(g0, p).(isChecked := At(g1, p).isChecked)
         && (At(g0, p).isChecked ==> At(g1, p).isChecked)
  }

  lemma RevealTransitive(g0: Grid, g1: Grid, g2: Grid, w: nat, h: nat)
    requires RevealOnly(g0, g1, w, h) && RevealOnly(g1, g2, w, h)
    ensures RevealOnly(g0, g2, w, h)
  {
  }

  /** Revealing never hides a tile again. */
  lemma UncheckedShrinks(g0: Grid, g1: Grid, w: nat, h: nat)
    requires RevealOnly(g0, g1, w, h)
    ensures Unchecked(g1, w, h) <= Unchecked(g0, w, h)
  {
  }

  /** Revealing keeps the mine layout and only grows the revealed sets. */
  lemma RevealKeepsLayout(g0: Grid, g1: Grid, w: nat, h: nat)
    requires RevealOnly(g0, g1, w, h)
    ensures MineSet(g1, w, h) == MineSet(g0, w, h)
    ensures forall m :: Layout(g0, w, h, m) ==> Layout(g1, w, h, m)
    ensures Unchecked(g1, w, h) <= Unchecked(g0, w, h)
    ensures Hidden(g1, w, h) <= Hidden(g0, w, h)
    ensures CheckedSafe(g0, w, h) <= CheckedSafe(g1, w, h)
    ensures CheckedMines(g0, w, h) <= CheckedMines(g1, w, h)
  {
  }

  /** The safe tiles are split between the revealed and the hidden ones, so
      the hidden ones number w*h, less the mines, less those revealed. */
  lemma HiddenCount(g: Grid, w: nat, h: nat)
    requires Shaped(g, w, h)
    ensures |Hidden(g, w, h)| == w * h - |MineSet(g, w, h)| - |CheckedSafe(g, w, h)|
  {
    CellsCount(w, h);
    var mines, checked, hidden := MineSet(g, w, h), CheckedSafe(g, w, h), Hidden(g, w, h);
    var safe := Cells(w, h) - mines;
    assert |safe| == w * h - |mines| by {
      assert Cells(w, h) == safe + mines;
      assert safe * mines == {};
    }
    assert safe == checked + hidden;
    assert checked * hidden == {};
  }

  /** With no safe tile hidden, every safe tile has been revealed. */
  lemma NoneHidden(g: Grid, w: nat, h: nat)
    requires Shaped(g, w, h) && Hidden(g, w, h) == {}
    ensures forall p {:trigger At(g, p)} :: InBounds(p, w, h) && !At(g, p).isMine ==> At(g, p).isChecked
  {
    forall p {:trigger At(g, p)} | InBounds(p, w, h) && !At(g, p).isMine ensures At(g, p).isChecked {
      assert p !in Hidden(g, w, h);
    }
  }

  // ---------------------------------------------------------------------------
  // Marking tiles

  /** The grid with the flag of tile p flipped: only that flag changes. */
  function Toggled(g: Grid, p: Point): (r: Grid)
    requires 0 <= p.x < |g| && 0 <= p.y < |g[p.x]|
    ensures |r| == |g| && forall x {:trigger r[x]} :: 0 <= x < |g| ==> |r[x]| == |g[x]|
    ensures forall w, h {:trigger Shaped(r, w, h)} :: Shaped(g, w, h) ==> Shaped(r, w, h)
    ensures At(r, p).isMarked == !At(g, p).isMarked
    ensures At(r, p) == At(g, p).(isMarked := At(r, p).isMarked)
    ensures forall q: Point {:trigger At(r, q)} :: 0 <= q.x < |g| && 0 <= q.y < |g[q.x]| && q != p ==> At(r, q) == At(g, q)
  {
    var t := At(g, p);
    Update(g, p, t.(isMarked := !t.isMarked))
  }

  /** Marking a tile twice restores the grid. */
  lemma ToggleTwice(g: Grid, p: Point)
    requires 0 <= p.x < |g| && 0 <= p.y < |g[p.x]|
    ensures Toggled(Toggled(g, p), p) == g
  {
    var r := Toggled(Toggled(g, p), p);
    assert forall x :: 0 <= x < |g| ==> r[x] == g[x] by {
      forall x | 0 <= x < |g| ensures r[x] == g[x] {
        forall y | 0 <= y < |g[x]| ensures r[x][y] == g[x][y] {
          assert At(r, Point(x, y)) == At(g, Point(x, y));
        }
      }
    }
  }

  /** Flags play no part in the layout or in the revealed sets. */
  lemma MarkKeepsLayout(g: Grid, p: Point, w: nat, h: nat)
    requires Shaped(g, w, h) && InBounds(p, w, h)
    ensures MineSet(Toggled(g, p), w, h) == MineSet(g, w, h)
    ensures CheckedSafe(Toggled(g, p), w, h) == CheckedSafe(g, w, h)
    ensures CheckedMines(Toggled(g, p), w, h) == CheckedMines(g, w, h)
    ensures Hidden(Toggled(g, p), w, h) == Hidden(g, w, h)
    ensures forall m :: Layout(g, w, h, m) ==> Layout(Toggled(g, p), w, h, m)
  {
  }
}
