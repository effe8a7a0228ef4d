/** How one grid may follow another during checkTile (src/Minefield.ts:125-171):
    tiles only become checked, never marked ones, and every safe tile with no
    mine around it that got checked has had its neighbours revealed. These are
    relations between two grid values, so that the recursive reveal can be
    specified and its steps composed. */
module Reveal {
  import opened Board

  ghost predicate NewlyChecked(g0: Grid, g1: Grid, p: Point, w: nat, h: nat)
    requires Shaped(g0, w, h) && Shaped(g1, w, h)
  {
    InBounds(p, w, h) && !At(g0, p).isChecked && At(g1, p).isChecked
  }

  /** p was revealed as a safe tile with no mine around it: a tile that cascades. */
  ghost predicate Opened(g0: Grid, g1: Grid, p: Point, w: nat, h: nat)
    requires Shaped(g0, w, h) && Shaped(g1, w, h)
  {
    NewlyChecked(g0, g1, p, w, h) && !At(g1, p).isMine && At(g1, p).surroundingMines == 0
  }

  /** Every neighbour of p is checked or marked. */
  ghost predicate Settled(g: Grid, p: Point, w: nat, h: nat)
    requires Shaped(g, w, h)
  {
    forall n {:trigger Adjacent(p, n)} :: InBounds(n, w, h) && Adjacent(p, n) ==> At(g, n).isChecked || At(g, n).isMarked
  }

  /** A route of the flood fill between g0 and g1: a chain of adjacent tiles
      in which every tile but the last was opened. */
  ghost predicate Chain(g0: Grid, g1: Grid, path: seq<Point>, w: nat, h: nat)
    requires Shaped(g0, w, h) && Shaped(g1, w, h)
  {
    |path| > 0
    && forall i :: 0 <= i < |path| - 1 ==> Opened(g0, g1, path[i], w, h) && Adjacent(path[i], path[i + 1])
  }

  /** The flood fill between g0 and g1 can travel from src to q. */
  ghost predicate Reaches(g0: Grid, g1: Grid, src: Point, q: Point, w: nat, h: nat)
    requires Shaped(g0, w, h) && Shaped(g1, w, h)
  {
    exists path :: Chain(g0, g1, path, w, h) && path[0] == src && path[|path| - 1] == q
  }

  /** The flood fill can travel to q from some neighbour of `at`. */
  ghost predicate ReachesAround(g0: Grid, g1: Grid, at: Point, q: Point, w: nat, h: nat)
    requires Shaped(g0, w, h) && Shaped(g1, w, h)
  {
    exists n :: Adjacent(at, n) && Reaches(g0, g1, n, q, w, h)
  }

  /** Every tile checked between g0 and g1 was reached from src: the reveal
      started at src and spread only through opened tiles. */
  ghost predicate RootedAt(g0: Grid, g1: Grid, src: Point, w: nat, h: nat)
    requires Shaped(g0, w, h) && Shaped(g1, w, h)
  {
    forall q :: NewlyChecked(g0, g1, q, w, h) ==> Reaches(g0, g1, src, q, w, h)
  }

  /** Every tile checked between g0 and g1 was reached from a neighbour of
      `at`: the reveals of a chord on `at`. */
  ghost predicate RootedAround(g0: Grid, g1: Grid, at: Point, w: nat, h: nat)
    requires Shaped(g0, w, h) && Shaped(g1, w, h)
  {
    forall q :: NewlyChecked(g0, g1, q, w, h) ==> ReachesAround(g0, g1, at, q, w, h)
  }

  /** Nothing revealed between g0 and g1 is a mine. */
  ghost predicate NoneDetonated(g0: Grid, g1: Grid, w: nat, h: nat)
    requires Shaped(g0, w, h) && Shaped(g1, w, h)
  {
    forall p :: NewlyChecked(g0, g1, p, w, h) ==> !At(g1, p).isMine
  }

  /** Every neighbour of p is safe in g. */
  ghost predicate SafeAround(g: Grid, p: Point, w: nat, h: nat)
    requires Shaped(g, w, h)
  {
    forall n {:trigger Adjacent(p, n)} :: InBounds(n, w, h) && Adjacent(p, n) ==> !At(g, n).isMine
  }

  /** The effect of a completed checkTile: tiles only become checked, marked
      tiles are never revealed, and every cascading tile is settled. */
  ghost predicate Revealed(g0: Grid, g1: Grid, w: nat, h: nat) {
    RevealOnly(g0, g1, w, h)
    && (forall p :: NewlyChecked(g0, g1, p, w, h) ==> !At(g1, p).isMarked)
    && (forall p :: Opened(g0, g1, p, w, h) ==> Settled(g1, p, w, h))
  }

  lemma SettledStays(g1: Grid, g2: Grid, p: Point, w: nat, h: nat)
    requires RevealOnly(g1, g2, w, h) && Settled(g1, p, w, h)
    ensures Settled(g2, p, w, h)
  {
  }

  lemma RevealedRefl(g: Grid, w: nat, h: nat)
    requires Shaped(g, w, h)
    ensures Revealed(g, g, w, h) && NoneDetonated(g, g, w, h)
  {
  }

  /** Two completed reveals make one. */
  lemma RevealedTransitive(g0: Grid, g1: Grid, g2: Grid, w: nat, h: nat)
    requires Revealed(g0, g1, w, h) && Revealed(g1, g2, w, h)
    ensures Revealed(g0, g2, w, h)
  {
    RevealTransitive(g0, g1, g2, w, h);
    forall p | Opened(g0, g2, p, w, h) ensures Settled(g2, p, w, h) {
      if !Opened(g1, g2, p, w, h) {
        assert Opened(g0, g1, p, w, h);
        SettledStays(g1, g2, p, w, h);
      }
    }
  }

  /** Every tile is reached from itself. */
  lemma ReachesSelf(g0: Grid, g1: Grid, q: Point, w: nat, h: nat)
    requires Shaped(g0, w, h) && Shaped(g1, w, h)
    ensures Reaches(g0, g1, q, q, w, h)
  {
    assert Chain(g0, g1, [q], w, h);
  }

  /** A route of an earlier or of a later step is a route of their composition. */
  lemma ReachesGrows(g0: Grid, g1: Grid, g2: Grid, src: Point, q: Point, w: nat, h: nat)
    requires RevealOnly(g0, g1, w, h) && RevealOnly(g1, g2, w, h)
    requires Reaches(g0, g1, src, q, w, h) || Reaches(g1, g2, src, q, w, h)
    ensures Reaches(g0, g2, src, q, w, h)
  {
    if Reaches(g0, g1, src, q, w, h) {
      var path :| Chain(g0, g1, path, w, h) && path[0] == src && path[|path| - 1] == q;
      forall i | 0 <= i < |path| - 1 ensures Opened(g0, g2, path[i], w, h) {
        assert Opened(g0, g1, path[i], w, h);
      }
      assert Chain(g0, g2, path, w, h);
    } else {
      var path :| Chain(g1, g2, path, w, h) && path[0] == src && path[|path| - 1] == q;
      forall i | 0 <= i < |path| - 1 ensures Opened(g0, g2, path[i], w, h) {
        assert Opened(g1, g2, path[i], w, h);
      }
      assert Chain(g0, g2, path, w, h);
    }
  }

  /** The flood fill passes through an opened tile to its neighbours. */
  lemma ReachesThrough(g0: Grid, g1: Grid, r: Point, n: Point, q: Point, w: nat, h: nat)
    requires Shaped(g0, w, h) && Shaped(g1, w, h)
    requires Opened(g0, g1, r, w, h) && Adjacent(r, n) && Reaches(g0, g1, n, q, w, h)
    ensures Reaches(g0, g1, r, q, w, h)
  {
    var path :| Chain(g0, g1, path, w, h) && path[0] == n && path[|path| - 1] == q;
    var longer := [r] + path;
    forall i | 0 <= i < |longer| - 1
      ensures Opened(g0, g1, longer[i], w, h) && Adjacent(longer[i], longer[i + 1])
    {
      if i > 0 {
        assert longer[i] == path[i - 1] && longer[i + 1] == path[i];
      }
    }
    assert Chain(g0, g1, longer, w, h);
  }

  lemma NoneDetonatedTransitive(g0: Grid, g1: Grid, g2: Grid, w: nat, h: nat)
    requires RevealOnly(g0, g1, w, h) && RevealOnly(g1, g2, w, h)
    requires NoneDetonated(g0, g1, w, h) && NoneDetonated(g1, g2, w, h)
    ensures NoneDetonated(g0, g2, w, h)
  {
    forall p | NewlyChecked(g0, g2, p, w, h) ensures !At(g2, p).isMine {
      if At(g1, p).isChecked {
        assert NewlyChecked(g0, g1, p, w, h);
      } else {
        assert NewlyChecked(g1, g2, p, w, h);
      }
    }
  }

  /** One round of the neighbour loop (src/Minefield.ts:136-141, 158-162): the
      reveal started at neighbour n of `at` extends what the loop has revealed
      so far, keeps every new tile reached from a neighbour of `at`, and keeps
      the reveal free of mines when no neighbour of `at` is one. */
  lemma NeighborStep(g0: Grid, g1: Grid, g2: Grid, at: Point, n: Point, w: nat, h: nat)
    requires Revealed(g0, g1, w, h) && Revealed(g1, g2, w, h)
    requires InBounds(n, w, h) && Adjacent(at, n)
    requires RootedAround(g0, g1, at, w, h) && RootedAt(g1, g2, n, w, h)
    requires !At(g1, n).isMine ==> NoneDetonated(g1, g2, w, h)
    ensures Revealed(g0, g2, w, h)
    ensures RootedAround(g0, g2, at, w, h)
    ensures SafeAround(g0, at, w, h) && NoneDetonated(g0, g1, w, h) ==> NoneDetonated(g0, g2, w, h)
  {
    RevealedTransitive(g0, g1, g2, w, h);
    forall q | NewlyChecked(g0, g2, q, w, h)
      ensures ReachesAround(g0, g2, at, q, w, h)
    {
      if NewlyChecked(g0, g1, q, w, h) {
        var m :| Adjacent(at, m) && Reaches(g0, g1, m, q, w, h);
        ReachesGrows(g0, g1, g2, m, q, w, h);
      } else {
        assert NewlyChecked(g1, g2, q, w, h);
        ReachesGrows(g0, g1, g2, n, q, w, h);
      }
    }
    if SafeAround(g0, at, w, h) && NoneDetonated(g0, g1, w, h) {
      assert !At(g1, n).isMine;
      NoneDetonatedTransitive(g0, g1, g2, w, h);
    }
  }

  /** Checking the single unchecked tile p (src/Minefield.ts:144). */
  lemma RevealOne(g: Grid, p: Point, w: nat, h: nat)
    requires Shaped(g, w, h) && InBounds(p, w, h) && !At(g, p).isChecked
    ensures var g1 := Update(g, p, At(g, p).(isChecked := true));
      RevealOnly(g, g1, w, h)
      && (forall m :: Layout(g, w, h, m) ==> Layout(g1, w, h, m))
      && (forall q :: NewlyChecked(g, g1, q, w, h) ==> q == p)
      && Unchecked(g1, w, h) == Unchecked(g, w, h) - {p}
      && Hidden(g1, w, h) == Hidden(g, w, h) - {p}
      && CheckedSafe(g1, w, h) == CheckedSafe(g, w, h) + (if At(g, p).isMine then {} else {p})
      && CheckedMines(g1, w, h) == CheckedMines(g, w, h) + (if At(g, p).isMine then {p} else {})
  {
    var g1 := Update(g, p, At(g, p).(isChecked := true));
    RevealKeepsLayout(g, g1, w, h);
    assert Unchecked(g1, w, h) == Unchecked(g, w, h) - {p};
    assert Hidden(g1, w, h) == Hidden(g, w, h) - {p};
    assert CheckedSafe(g1, w, h) == CheckedSafe(g, w, h) + (if At(g, p).isMine then {} else {p});
    assert CheckedMines(g1, w, h) == CheckedMines(g, w, h) + (if At(g, p).isMine then {p} else {});
  }

  /** A reveal that does not cascade: a mine, or a safe tile with a mine
      around it (src/Minefield.ts:144-150, 152). */
  lemma SingleReveal(g0: Grid, at: Point, w: nat, h: nat)
    requires Shaped(g0, w, h) && InBounds(at, w, h)
    requires !At(g0, at).isChecked && !At(g0, at).isMarked
    requires At(g0, at).isMine || At(g0, at).surroundingMines != 0
    ensures var g1 := Update(g0, at, At(g0, at).(isChecked := true));
      Revealed(g0, g1, w, h)
      && (forall q :: NewlyChecked(g0, g1, q, w, h) ==> q == at)
      && RootedAt(g0, g1, at, w, h)
      && (!At(g0, at).isMine ==> NoneDetonated(g0, g1, w, h))
  {
    RevealOne(g0, at, w, h);
    ReachesSelf(g0, Update(g0, at, At(g0, at).(isChecked := true)), at, w, h);
  }

  /** A safe tile with no mine around it, followed by the reveal of its
      neighbours (src/Minefield.ts:144, 156-163): every new tile is reached
      from the clicked tile. */
  lemma CascadeReveal(g0: Grid, g1: Grid, g2: Grid, at: Point, w: nat, h: nat)
    requires Shaped(g0, w, h) && InBounds(at, w, h)
    requires !At(g0, at).isChecked && !At(g0, at).isMarked && !At(g0, at).isMine
    requires At(g0, at).surroundingMines == 0
    requires g1 == Update(g0, at, At(g0, at).(isChecked := true))
    requires Revealed(g1, g2, w, h) && Settled(g2, at, w, h)
    requires RootedAround(g1, g2, at, w, h)
    requires NoneDetonated(g1, g2, w, h)
    ensures Revealed(g0, g2, w, h)
    ensures RootedAt(g0, g2, at, w, h)
    ensures NoneDetonated(g0, g2, w, h)
  {
    RevealOne(g0, at, w, h);
    RevealTransitive(g0, g1, g2, w, h);
    assert At(g2, at) == At(g1, at);
    assert Opened(g0, g2, at, w, h);
    forall p | Opened(g0, g2, p, w, h) ensures Settled(g2, p, w, h) {
      if p != at {
        assert Opened(g1, g2, p, w, h);
      }
    }
    forall q | NewlyChecked(g0, g2, q, w, h)
      ensures Reaches(g0, g2, at, q, w, h)
    {
      if q == at {
        ReachesSelf(g0, g2, at, w, h);
      } else {
        assert NewlyChecked(g1, g2, q, w, h);
        var n :| Adjacent(at, n) && Reaches(g1, g2, n, q, w, h);
        ReachesGrows(g0, g1, g2, n, q, w, h);
        ReachesThrough(g0, g2, at, n, q, w, h);
      }
    }
    NoneDetonatedTransitive(g0, g1, g2, w, h);
  }

  // ---------------------------------------------------------------------------
  // The contract determines the reveal

  /** A route ends at a new tile and starts at one. */
  lemma ChainStart(g0: Grid, g1: Grid, path: seq<Point>, w: nat, h: nat)
    requires Shaped(g0, w, h) && Shaped(g1, w, h)
    requires Chain(g0, g1, path, w, h) && NewlyChecked(g0, g1, path[|path| - 1], w, h)
    ensures NewlyChecked(g0, g1, path[0], w, h)
  {
    if |path| > 1 {
      assert Opened(g0, g1, path[0], w, h);
    }
  }

  /** A second completed reveal from g0 that has checked the first tile of a
      route of the reveal g0 -> g1 has checked its last tile too: it opened
      every tile on the way, so it checked each next one. */
  lemma {:induction false} ChainFollowed(g0: Grid, g1: Grid, g2: Grid, path: seq<Point>, w: nat, h: nat)
    requires Revealed(g0, g1, w, h) && Revealed(g0, g2, w, h)
    requires Chain(g0, g1, path, w, h) && NewlyChecked(g0, g1, path[|path| - 1], w, h)
    requires InBounds(path[0], w, h) && At(g2, path[0]).isChecked
    ensures At(g2, path[|path| - 1]).isChecked
    decreases |path|
  {
    if |path| > 1 {
      var r, n, rest := path[0], path[1], path[1..];
      assert Opened(g0, g1, r, w, h) && Adjacent(r, n);
      assert Opened(g0, g2, r, w, h);
      assert Chain(g0, g1, rest, w, h) by {
        forall i | 0 <= i < |rest| - 1
          ensures Opened(g0, g1, rest[i], w, h) && Adjacent(rest[i], rest[i + 1])
        {
          assert rest[i] == path[i + 1] && rest[i + 1] == path[i + 2];
        }
      }
      ChainStart(g0, g1, rest, w, h);
      assert !At(g2, n).isMarked by {
        assert !At(g1, n).isMarked;
      }
      ChainFollowed(g0, g1, g2, rest, w, h);
    }
  }

  /** Two completed reveals from g0 that agree on which tiles are checked are
      the same grid. */
  lemma SameChecks(g0: Grid, g1: Grid, g2: Grid, w: nat, h: nat)
    requires Revealed(g0, g1, w, h) && Revealed(g0, g2, w, h)
    requires forall q :: NewlyChecked(g0, g1, q, w, h) ==> At(g2, q).isChecked
    requires forall q :: NewlyChecked(g0, g2, q, w, h) ==> At(g1, q).isChecked
    ensures g1 == g2
  {
    forall p | InBounds(p, w, h) ensures At(g1, p) == At(g2, p) {
      assert At(g1, p).isChecked == At(g2, p).isChecked by {
        if At(g1, p).isChecked && !At(g0, p).isChecked {
          assert NewlyChecked(g0, g1, p, w, h);
        }
        if At(g2, p).isChecked && !At(g0, p).isChecked {
          assert NewlyChecked(g0, g2, p, w, h);
        }
      }
    }
    SameTiles(g1, g2, w, h);
  }

  /** The contract of a reveal from src leaves one possible result: two
      completed reveals from g0 that both check src and reach every new tile
      from src are the same grid. */
  lemma RevealDetermined(g0: Grid, g1: Grid, g2: Grid, src: Point, w: nat, h: nat)
    requires Revealed(g0, g1, w, h) && Revealed(g0, g2, w, h) && InBounds(src, w, h)
    requires At(g1, src).isChecked && At(g2, src).isChecked
    requires RootedAt(g0, g1, src, w, h) && RootedAt(g0, g2, src, w, h)
    ensures g1 == g2
  {
    forall q | NewlyChecked(g0, g1, q, w, h) ensures At(g2, q).isChecked {
      var path :| Chain(g0, g1, path, w, h) && path[0] == src && path[|path| - 1] == q;
      ChainFollowed(g0, g1, g2, path, w, h);
    }
    forall q | NewlyChecked(g0, g2, q, w, h) ensures At(g1, q).isChecked {
      var path :| Chain(g0, g2, path, w, h) && path[0] == src && path[|path| - 1] == q;
      ChainFollowed(g0, g2, g1, path, w, h);
    }
    SameChecks(g0, g1, g2, w, h);
  }

  /** Likewise for a chord on `at`: two completed reveals from g0 that leave
      every neighbour of `at` checked or flagged and reach every new tile from
      a neighbour of `at` are the same grid. */
  lemma ChordDetermined(g0: Grid, g1: Grid, g2: Grid, at: Point, w: nat, h: nat)
    requires Revealed(g0, g1, w, h) && Revealed(g0, g2, w, h)
    requires Settled(g1, at, w, h) && Settled(g2, at, w, h)
    requires RootedAround(g0, g1, at, w, h) && RootedAround(g0, g2, at, w, h)
    ensures g1 == g2
  {
    forall q | NewlyChecked(g0, g1, q, w, h) ensures At(g2, q).isChecked {
      ChordFollowed(g0, g1, g2, at, q, w, h);
    }
    forall q | NewlyChecked(g0, g2, q, w, h) ensures At(g1, q).isChecked {
      ChordFollowed(g0, g2, g1, at, q, w, h);
    }
    SameChecks(g0, g1, g2, w, h);
  }

  lemma ChordFollowed(g0: Grid, g1: Grid, g2: Grid, at: Point, q: Point, w: nat, h: nat)
    requires Revealed(g0, g1, w, h) && Revealed(g0, g2, w, h) && Settled(g2, at, w, h)
    requires NewlyChecked(g0, g1, q, w, h) && ReachesAround(g0, g1, at, q, w, h)
    ensures At(g2, q).isChecked
  {
    var n :| Adjacent(at, n) && Reaches(g0, g1, n, q, w, h);
    var path :| Chain(g0, g1, path, w, h) && path[0] == n && path[|path| - 1] == q;
    ChainStart(g0, g1, path, w, h);
    assert !At(g2, n).isMarked by {
      assert !At(g1, n).isMarked;
    }
    ChainFollowed(g0, g1, g2, path, w, h);
  }
}
