# Minesweeper engine in Dafny

A model of the game engine of a browser Minesweeper. The model covers:

- the `Minefield` class of `src/Minefield.ts`, which owns the grid of tiles and the game's counters;
- the `classes` template tag of `src/classes.ts`, which builds CSS class names;
- the difficulty presets of `src/Difficulties.ts`.

`Minefield` is a Dafny class with the source's fields: the options, the grid, `remainingTiles`, `detonated`, a flag for whether `completionTime` is set, and the cached snapshot. The methods update those fields in place:

- `initialize` builds the columns, places the mines by rejection sampling and counts each tile's neighbouring mines;
- `markTile` toggles a flag;
- `checkTile` reveals a tile, with the chord on an already revealed tile and the flood fill from a tile that has no mine around it;
- `getSnapshot` returns the cached view, rebuilding it when a mutation has invalidated it.

The engine keeps one invariant between calls, `Engine.Consistent`:

- the mine layout is fixed;
- no corner holds a mine;
- every `surroundingMines` is the true count of adjacent mines;
- `remainingTiles` is the number of safe tiles still hidden;
- `detonated` holds exactly when a mine has been revealed;
- completion implies that no safe tile is left.

Every mutating method proves that this invariant is preserved. `checkTile` is specified by the relation `Reveal.Revealed` between the grid before and after the call:

- tiles only ever become checked, and a flagged tile is never revealed;
- every tile revealed with no mine around it has all its neighbours checked or flagged;
- every newly revealed tile is reached by the flood fill: from the clicked tile (`Reveal.RootedAt`), or from a neighbour of a chorded tile (`Reveal.RootedAround`), along a chain of adjacent tiles each of which was revealed with no mine around it.

These bounds leave one possible result. `Reveal.RevealDetermined` and `Reveal.ChordDetermined` prove that two grids meeting the contract of the same call are equal, so the contracts of `CheckTile` and its helpers fix the grid the source produces.

Randomness is an explicit stream of draws. `twMerge` is a function parameter.

Modules:

- `Board` (board.dfy): points, tiles, the column-major grid, the neighbour lookup and the specification sets.
- `Placement` (placement.dfy): mine placement by rejection sampling.
- `Reveal` (reveal.dfy): how one grid may follow another during `checkTile`.
- `Engine` (minefield.dfy): the invariant, the initialization loops and the `Minefield` class.
- `Classes` (classes.dfy): the `classes` tag.
- `Difficulties` (difficulties.dfy): the presets.

## Model

| member | source | states |
|---|---|---|
| Board.Neighbors | src/Minefield.ts:105-116 | The lookup yields exactly the positions on the grid that are Moore neighbours of the point. The point itself is never included, and there are at most eight. |
| Board.NeighborsIncreasing | src/Minefield.ts:105-116 | The neighbours come in the fixed order of the lookup table (left to right, top row first), so each occurs once. |
| Board.CellsCount | src/Minefield.ts:55-69 | A grid of `width` columns of `height` tiles has exactly width*height cells. |
| Board.CountMines | src/Minefield.ts:98 | The `reduce` adding `Number(it.isMine)` over a list of tiles is at most the length of the list. |
| Board.Update | src/Minefield.ts:144 | Writing one tile changes that tile only; every other tile and the grid's shape stay the same. |
| Board.CountMinesIsCard | src/Minefield.ts:93-100 | Over a list of tiles without repeats, the `reduce` adding `Number(it.isMine)` equals the number of mines in the list. |
| Board.SurroundingCount | src/Minefield.ts:93-100 | That `reduce` over the neighbour lookup equals the number of mines adjacent to the tile. |
| Board.ZeroMeansSafe | src/Minefield.ts:156-163 | On a grid whose counts are right, a tile counting zero has no mine among its neighbours, so the flood fill never reveals a mine. |
| Board.SameTiles | src/Minefield.ts:125-171 | Two grids of the same shape that agree on every tile are the same grid. |
| Board.RevealTransitive | src/Minefield.ts:125-171 | Two steps that only check tiles compose into one such step. |
| Board.UncheckedShrinks | src/Minefield.ts:144 | Revealing never hides a tile again: the unchecked set only shrinks. This is the recursion's termination measure. |
| Board.RevealKeepsLayout | src/Minefield.ts:125-171 | Revealing keeps the mines and the layout invariant. Hidden and unchecked tiles only shrink; revealed safe tiles and revealed mines only grow. |
| Board.HiddenCount | src/Minefield.ts:52 | The hidden safe tiles number width*height, less the mines, less the safe tiles revealed. |
| Board.NoneHidden | src/Minefield.ts:165-167 | When no safe tile is hidden, every safe tile is checked. |
| Board.Toggled | src/Minefield.ts:118-123 | Only the `isMarked` flag of the one tile is flipped; every other field and every other tile is unchanged. |
| Board.ToggleTwice | src/Minefield.ts:118-123 | Marking the same tile twice restores the grid. |
| Board.MarkKeepsLayout | src/Minefield.ts:118-123 | Flags change neither the mines nor the revealed, hidden or detonated sets, and they keep the layout invariant. |
| Placement.Place | src/Minefield.ts:71-91 | The rejection loop over a stream of draws: it only ever adds mines to the starting set. It yields nothing when the stream runs out first. |
| Placement.PlaceResult | src/Minefield.ts:71-91 | When the rejection loop finishes, the mines are the starting set plus exactly `todo` new cells, all on the grid and none in a corner. |
| Placement.PlacementNeedsRoom | src/Minefield.ts:71-91 | The loop can finish only if the mines fit into the cells that are not corners. |
| Placement.PlacementPossible | src/Minefield.ts:71-91 | Conversely, when they fit, some stream of random draws lets the loop finish. |
| Placement.NonCornerCount | src/Minefield.ts:81-87 | On a grid of at least 2x2 the corner test excludes four distinct cells, leaving width*height - 4. |
| Reveal.Revealed | src/Minefield.ts:125-171 | The effect of a completed `checkTile` on the grid: tiles only become checked and keep every other field, a flagged tile is never revealed, and every tile revealed with no mine around it has all its neighbours checked or flagged. |
| Reveal.SettledStays | src/Minefield.ts:125-171 | A tile whose neighbours are all checked or flagged stays so under further reveals. |
| Reveal.RevealedRefl | src/Minefield.ts:127-129 | Leaving the grid alone is a completed reveal that detonates nothing. |
| Reveal.RevealedTransitive | src/Minefield.ts:136-141 | Two completed reveals in a row make one completed reveal. |
| Reveal.ReachesSelf | src/Minefield.ts:138 | The flood fill reaches the tile it starts from. |
| Reveal.ReachesGrows | src/Minefield.ts:136-141 | A route of the flood fill in either of two consecutive reveals is a route of their composition. |
| Reveal.ReachesThrough | src/Minefield.ts:156-163 | The flood fill passes through a tile revealed with no mine around it to each of its neighbours. |
| Reveal.NoneDetonatedTransitive | src/Minefield.ts:156-163 | Two mine-free reveals in a row make a mine-free reveal. |
| Reveal.NeighborStep | src/Minefield.ts:136-141 | One round of the neighbour loop extends the loop's reveal. Every new tile is still reached from some neighbour of the tile, and the reveal stays mine-free when no neighbour is a mine. |
| Reveal.RevealOne | src/Minefield.ts:144 | Checking one hidden tile keeps the layout. It removes exactly that tile from the hidden sets and adds it to the revealed safe tiles or to the revealed mines, whichever it is. |
| Reveal.SingleReveal | src/Minefield.ts:144-152 | Revealing a mine, or a safe tile with a mine around it, is a completed reveal of that tile alone, rooted at it. It detonates nothing when the tile is safe. |
| Reveal.CascadeReveal | src/Minefield.ts:156-163 | Revealing a safe tile with no mine around it, then its neighbours, is a completed reveal. Every new tile is reached from the clicked tile, and no mine is revealed. |
| Reveal.ChainStart | src/Minefield.ts:156-163 | A route of the flood fill that ends at a newly revealed tile also starts at one. |
| Reveal.ChainFollowed | src/Minefield.ts:156-163 | Another completed reveal that has checked the start of a route has checked its end: it revealed each tile on the way with no mine around it, so it settled each one. |
| Reveal.SameChecks | src/Minefield.ts:125-171 | Two completed reveals from the same grid that check the same tiles are the same grid. |
| Reveal.RevealDetermined | src/Minefield.ts:144-167 | Two completed reveals from the same grid that check the clicked tile and reach every new tile from it are equal: the contract of a reveal has one result. |
| Reveal.ChordFollowed | src/Minefield.ts:134-142 | A completed reveal that settles every neighbour of the chorded tile has checked every tile that another chord on it reached. |
| Reveal.ChordDetermined | src/Minefield.ts:134-142 | Two completed reveals from the same grid that settle every neighbour of the chorded tile and reach every new tile from one of them are equal: the contract of a chord has one result. |
| Engine.RemainingTiles | src/Minefield.ts:152 | `remainingTiles` equals width*height - mines - (safe tiles revealed), and it stays between 0 and its starting value. |
| Engine.CompletedClears | src/Minefield.ts:165-167 | Once completion is recorded, every safe tile is checked. |
| Engine.FreshGame | src/Minefield.ts:52 | A fresh layout with nothing revealed satisfies the invariant, with `remainingTiles` = width*height - mines, not detonated and not complete. |
| Engine.MarkStep | src/Minefield.ts:118-123 | Toggling a flag keeps the invariant with the same counters. |
| Engine.RevealStep | src/Minefield.ts:144-152 | Checking a hidden tile keeps the invariant: a mine sets `detonated`, a safe tile lowers `remainingTiles` by one (which was positive), and the unchecked set strictly shrinks. |
| Engine.MineChecked | src/Minefield.ts:144-150 | Revealing a hidden mine checks it alone, sets `detonated` and leaves `remainingTiles` and completion as they were. |
| Engine.NumberChecked | src/Minefield.ts:144-152 | Revealing a hidden safe tile with a mine around it checks it alone, lowers `remainingTiles` by one and sets completion when that reaches 0. |
| Engine.CascadeChecked | src/Minefield.ts:144-167 | Revealing a hidden safe tile with no mine around it, then its neighbours, is a reveal rooted at the tile that detonates nothing and lowers `remainingTiles`. Completion is set exactly when it reaches 0. |
| Engine.ProgressStep | src/Minefield.ts:136-141 | After one more neighbour is handled, the loop's progress covers one more neighbour, with its reveal and counters extended. |
| Engine.ProgressStarts | src/Minefield.ts:135-136 | Before the neighbour loop has run, its progress holds trivially. |
| Engine.ProgressSettles | src/Minefield.ts:136-141 | After the loop, every neighbour of the tile is checked or flagged. |
| Engine.NewGrid | src/Minefield.ts:55-69 | Builds `width` columns of `height` tiles. Each tile knows its position and is hidden, unflagged, safe and counts zero. |
| Engine.PlaceMines | src/Minefield.ts:71-91 | The rejection loop sets `isMine` on exactly the cells the draw stream selects, skipping mines and corners. Nothing else changes. |
| Engine.CountedStep | src/Minefield.ts:94-99 | Filling in one tile's count moves the counting loops on by one tile, keeping the mines. |
| Engine.CountedColumn | src/Minefield.ts:93-94 | A finished column of counts starts the next one. |
| Engine.CountSurrounding | src/Minefield.ts:93-100 | Sets every tile's `surroundingMines` to the number of adjacent mines. Nothing else changes. |
| Engine.AtIndex | src/Minefield.ts:126 | `Array.prototype.at`: defined exactly for -len <= i < len; a non-negative index is itself and a negative one counts back from the end. |
| Engine.ResolvedAsWritten | src/Minefield.ts:126 | The tile the lookup finds, when it finds one, is on the grid. |
| Engine.ResolvedOnGrid | src/Minefield.ts:126 | On the grid the lookup finds the tile at the position. Past the far edges, and beyond minus the size, it finds nothing. |
| Engine.NegativeIndexWraps | src/Minefield.ts:126 | On a 3x3 grid, (-1, 1) finds tile (2, 1), yet the neighbour lookup at (-1, 1) yields (0, 0), which is not next to (2, 1). |
| Engine.Minefield.constructor | src/Minefield.ts:43-45 | Construction is `initialize`: the object satisfies the state of a new game. |
| Engine.Minefield.Initialize | src/Minefield.ts:47-103 | The options are stored and every tile is hidden, unflagged and positioned. The mines are those the draw stream places, off the corners. The counts are right, `remainingTiles` = width*height - mines, and the game is neither detonated nor complete. The invariant holds and the snapshot is invalidated. |
| Engine.Minefield.MarkTile | src/Minefield.ts:118-123 | Off the grid, the lookup throws before anything changes. On the grid, only that tile's flag flips, the counters stay, the invariant holds and the snapshot is invalidated. |
| Engine.Minefield.CheckTile | src/Minefield.ts:125-171 | A flagged tile or a position off the grid changes nothing, snapshot included. Otherwise the tile ends checked and the snapshot is invalidated. Then:<br>- an unchecked mine is revealed alone and sets `detonated`;<br>- an unchecked safe tile lowers `remainingTiles` and detonates nothing;<br>- a checked tile ends with every neighbour checked or flagged.<br>- a numbered safe tile is revealed alone.<br>The whole call is a completed reveal. Every new tile is reached from the clicked tile, or for the chord from one of its neighbours. Completion is set exactly when `remainingTiles` drops to 0, and the invariant holds. |
| Engine.Minefield.RevealHidden | src/Minefield.ts:144-167 | A hidden, unflagged tile is checked, and every new tile is reached from it:<br>- a mine sets `detonated` and changes no other tile;<br>- a safe tile lowers `remainingTiles` and reveals no mine;<br>- a safe tile with a mine around it changes no other tile.<br>Completion is set exactly when the count reaches 0, and the invariant holds. |
| Engine.Minefield.RevealAround | src/Minefield.ts:156-163 | After a safe tile with no mine around it is revealed, checking its neighbours completes a reveal rooted at that tile that detonates nothing, and keeps the invariant. |
| Engine.Minefield.CheckNeighbors | src/Minefield.ts:134-142 | After the loop every neighbour is checked or flagged. Every new tile is reached from some neighbour, the reveal is mine-free when no neighbour is a mine, and the counters only go down. |
| Engine.Minefield.CheckNeighbor | src/Minefield.ts:137-139 | A neighbour not yet checked is checked, and every new tile is reached from it. One already checked leaves the grid and the counters as they were. Either way it ends checked or flagged, and the step is a completed reveal. |
| Engine.Minefield.GetSnapshot | src/Minefield.ts:187-203 | A cached snapshot is returned as is. Otherwise a copy of the current state is built, cached and returned. A cache that agreed with the state still agrees. |
| Classes.Truthy | src/classes.ts:15 | JavaScript truthiness on the values the tag admits: only a non-empty string is truthy. |
| Classes.Interleave | src/classes.ts:14-19 | The name the loop builds: the first segment, then each truthy value followed by the next segment. The first segment is a prefix of it. |
| Classes.InterleaveLength | src/classes.ts:14-19 | The name built by the loop is as long as all the segments plus the truthy values. |
| Classes.FalsyVariables | src/classes.ts:14-19 | With no truthy value, the name is just the segments concatenated. |
| Classes.IsSpace | src/classes.ts:21 | The characters ECMAScript's `\s` matches: the ASCII whitespace, the Unicode space separators, the line and paragraph separators and the byte order mark. |
| Classes.SkipSpace | src/classes.ts:21 | Dropping leading whitespace keeps the non-space characters and leaves a string that does not start with whitespace. |
| Classes.Collapse | src/classes.ts:21 | `replaceAll(/\s+/g, " ")`: the result is no longer than the input and empty exactly when the input is. Its only whitespace is single spaces, never two adjacent. The non-space characters are kept in order. |
| Classes.CollapseFixes | src/classes.ts:21 | A string already collapsed is left unchanged. |
| Classes.CollapseIdempotent | src/classes.ts:21 | Collapsing twice is the same as collapsing once. |
| Classes.ClassName | src/classes.ts:3-22 | It throws `ReferenceError` exactly when the segments after the first do not match the values in number. Otherwise it returns `merge` of the collapsed interleaving of the segments with the truthy values. With no segments at all, it returns `merge("")`. |
| Difficulties.Preset | src/Difficulties.ts:3-8 | Every preset has a grid of at least 2x2 and between 1 and width*height - 4 mines. |
| Difficulties.PresetPlayable | src/Difficulties.ts:3-8 | For every preset, some stream of draws lets `initialize` place all of its mines. |
| Difficulties.PresetStart | src/Difficulties.ts:4 | A game just started from a preset has width*height - mines safe tiles to find, 71 on the easy board. No corner holds a mine. |

## Left out

- Engine.Minefield.Initialize: requires a stream of draws with which the rejection loop finishes. When the mines exceed the non-corner cells on a grid with at least one cell, the source draws forever (on a grid with no cells the first draw throws a `TypeError` at src/Minefield.ts:76 instead); the model states that condition as Placement.PlacementNeedsRoom instead of modelling the endless loop. `Math.random` is replaced by the explicit stream `draws`.
- `startTime` and `completionTime` are `Date`s read from the clock. The model keeps only whether `completionTime` is set (the field `completed`). The snapshot carries no times.
- `subscribe` (src/Minefield.ts:180-185) and the callback fan-out of `#notify` are left out because they call foreign code. `#notify` is modelled only as invalidating the cached snapshot.
- The `options` getter (src/Minefield.ts:39-41) only reads a field.
- `twMerge` belongs to the tailwind-merge library, which is not part of this model. It is the function parameter `merge` of Classes.ClassName.
- Tiles are values in the model, not shared objects. `getSnapshot`'s deep copy is therefore just the current value. Aliasing between the grid and a `neighbor` object is not modelled; in the source a neighbour's `position` always equals its place in the grid, which Board.Positioned states.
- Sizes and counts are unbounded naturals, not JavaScript numbers. Non-integer, negative or enormous options are not modelled.
- Strings are sequences of Dafny characters, that is Unicode scalar values, not UTF-16 code units. Classes.IsSpace lists the characters that ECMAScript's `\s` matches.
- Call-stack depth of the recursive `checkTile` is not modelled. A very large open area could exhaust the JavaScript stack.
- Where the code differs from what a Minesweeper player might expect:
  - `markTile` toggles the flag of a revealed tile and keeps working after the game is over;
  - `checkTile` keeps working after a detonation or completion;
  - there is no flag counter and no hint operation;
  - `initialize` does not validate the mine count;
  - an off-grid `markTile` throws a `TypeError` rather than a bounds error;
  - an off-grid `checkTile` past the far edges is silently ignored.
- Engine.Minefield.CheckTile: models the intended behaviour for negative coordinates (ignored, as off the grid), not the wrap-around of `Array.prototype.at`. See Findings.

## Findings

| source | as written | input that shows it | evidently intended | confidence | as-written member | corrected member |
|---|---|---|---|---|---|---|
| src/Minefield.ts:126 | `this.#grid.at(at.x)?.at(at.y)` wraps a negative coordinate to the far edge. `checkTile` then reveals that far tile, but the chord or cascade walks the neighbours of the negative position itself (src/Minefield.ts:105-116). | a 3x3 grid and `checkTile({x: -1, y: 1})`: tile (2, 1) is revealed, and a cascade from it reveals (0, 0), (0, 1) and (0, 2), none of which is next to (2, 1) | a position off the grid is ignored, as the optional chaining is meant to do | not executed | Engine.NegativeIndexWraps | Engine.Minefield.CheckTile |
