# Double Card: a verified model of the board, the naive heuristic and the minimax search

Double Card is a two-player game played on an 8 x 12 board (columns A-H, rows 1-12).
Each of the 24 cards has two halves, one red and one white. One half is full and the
other open. A card goes on the board in one of eight placements, numbered 1 to 8: odd
placements lie horizontally, even ones vertically. The game has two phases. While fewer
than 24 cards are on the board, a move adds a card. After that, a move recycles a card:
it lifts a card already on the board and places it again. A player wins when four
consecutive tiles in a row, column or diagonal share a colour or a fill. The game is a
draw after 60 moves. A computer player searches the move tree two plies deep with
minimax and scores the deepest positions with a heuristic.

This Dafny project models three parts of the game:

- the board object, with its legality verdicts, its updates, win detection and move
  generation (`board.py`);
- the naive heuristic (`heuristics.py`);
- the minimax walk over the move tree (`minimax.py`).

The modules follow the structure of the program:

| module | file | what it holds |
|---|---|---|
| `Tiles` | `tiles.dfy` | the constants, the tiles, the card table and the board as a value (`Grid`, indexed `[x][y]`) |
| `Moves` | `moves.dfy` | the `Move` value (`Add` / `Recycle`), its text notation, its hash, and the move `Tree` the generator returns |
| `Results` | `results.dfy` | `Result`: named conditions and their `all` / `any` aggregate |
| `Dicts` | `dicts.dfy` | Python dictionaries as insertion-ordered association lists |
| `Rules` | `rules.dfy` | every verdict as a pure function of a board value, and the state transition of `make_move` |
| `Win` | `win.dfy` | the running counters, the lines the win scans walk, and what a scan's verdict means |
| `Overlay` | `overlay.dfy` | the forecast overlay, column heights, the Add and Recycle generators, and the two-ply tree |
| `Board` | `board.dfy` | `class GameBoard`: the board as an `array2<Tile>`, plus the list of committed cards, the move counter and the last move |
| `Heuristics` | `heuristics.dfy` | `_simple_count` and `naive` as loops over the board object, with their specification and properties |
| `Search` | `minimax.dfy` | `class MiniMax`: the two counters and the depth-first search, with the search as a function and its properties |

`GameBoard` keeps a ghost copy `cells` of its array. `Coupled()` states that the two
agree. Every method is proved against a function of `cells`:

- `MakeMove` yields exactly `Rules.Step`;
- each scan yields its `Win` function;
- each generator yields its `Overlay` function.

The properties are then proved about those functions. Examples:

- the Add verdict and the Recycle verdict, each stated as an if-and-only-if;
- on a board with no overhang and no forecast, the Add generator emits exactly the
  legal Add moves;
- the win scans stop iff the board holds four in a line;
- the move notation parses back to the move;
- the naive score depends only on the column stacks, and never raises on a
  well-formed board;
- the search returns a path through a root move, scored at the leaf's condition, and
  obeys the minimax rule at every node.

Most of Python's exceptions are modelled as `None` results:

- a `KeyError` in the weight table or the card table;
- an `IndexError` in `_can_recycle_move`;
- a `ValueError` from `min`/`max` on an empty dict;
- a `TypeError` from `path + [move]` when `path` is `None`.

Two exceptions are excluded by preconditions instead, and "## Left out" says so:

- the `KeyError` that `Move.__str__` raises for a column outside A-H (`Moves.ToStr`);
- the `IndexError` of `_can_remove` reading past the board (`Board.GameBoard.MakeMove`).

The model reproduces the source's behaviour as written, including these quirks:

- `_can_remove` tests a different cell for each orientation of the old card. For a
  horizontal card, it tests the cell two rows above old cell one. For a vertical card,
  it tests the cell one row above old cell one, which is the card's own upper half,
  and the cell to the right of that.
- `_can_recycle_move` mixes its sources. For an odd placement, it looks up the overlay
  two rows above the anchor. For an even placement, it reads the real board one row
  above the anchor and one row above the anchor's right-hand neighbour. As a result, a
  vertical card whose upper half is on the board is never offered for recycling
  (`Overlay.CanRecycleMoveCases`).
- The Recycle generator considers `(moves + forecast)[:-1]`, which leaves out the last
  move of the combined list.
- "different than last" compares the anchor of the last move with old cell one.
- "space available" skips the emptiness test when the new anchor is old cell one and
  the placement changes.
- In the forecast overlay, a recycled card's old cells are blanked after its new card
  is written. Where the two overlap, the forecast shows an empty cell.
- At the deepest level, moves whose scores are equal collapse into one dict entry.
  That entry keeps the first such move's position and the last such move's path.
- The docstring of `Move.__hash__` gives 7118711710 as the largest Recycle hash. The
  code reaches 7118711711.

## Model

| member | source | states |
|---|---|---|
| `Tiles.CardShape` | board.py:14-23 | each placement writes exactly its anchor and its second half, at offset (p % 2, (p + 1) % 2); the two halves differ in colour and in fill |
| `Tiles.WithinBoundsBothCells` | board.py:75-76 | `_within_bounds` holds iff both cells of the card lie on the 8 x 12 board; odd placements are horizontal, even ones vertical |
| `Moves.Hash` | board.py:427-434 | `__hash__`: `x*1000 + y*10 + p` for an Add; for a Recycle the anchor, the placement and the two old cells in fixed decimal positions; `Moves.HashRange` and `Moves.HashInjective` characterise it |
| `Moves.HashRange` | board.py:427-434 | on board coordinates an Add hashes into 1..7118 and a Recycle into 1000000..7118711711 |
| `Moves.HashInjective` | board.py:427-443 | on board coordinates two moves hash equally iff they are the same move |
| `Moves.ParseLetter` | board.py:25-35 | a parsed column letter is a board column whose letter is the string parsed |
| `Moves.LetterRoundTrip` | board.py:25-35 | `X_LETTERS` inverts `X_LETTERS_INVERSE` on every column |
| `Moves.NatStr` | board.py:420-425 | the decimal notation of a number is a non-empty string of digits |
| `Moves.ParseNat` | board.py:398-408 | a digit string is read iff it is non-empty and all digits |
| `Moves.NatRoundTrip` | board.py:398-408 | reading the decimal notation of a natural number gives the number back |
| `Moves.IntRoundTrip` | board.py:398-408 | reading the notation of any integer, sign included, gives it back |
| `Moves.Split` | board.py:395 | `split(' ')` always yields at least one field |
| `Moves.IndexOfSpace` | board.py:395 | the first space of a string: a space with no space before it |
| `Moves.SplitJoin` | board.py:395 | splitting the space-joined fields gives the fields back when no field holds a space |
| `Moves.SplitField` | board.py:395 | a leading field without a space is split off exactly |
| `Moves.IntStrNoSpace` | board.py:420-425 | the notation of a number holds no space |
| `Moves.FieldsNoSpace` | board.py:420-425 | no field of a move's notation holds a space |
| `Moves.ToStr` | board.py:420-425 | `__str__`: the fields joined by single spaces, rows written 1-based; requires columns with letters; `Moves.FromStrToStr` is its inverse |
| `Moves.FromStr` | board.py:393-409 | every move it parses has board columns, so it can be written back out |
| `Moves.AddFromFields` | board.py:396-401 | the move built from three fields is an Add whose column is the parsed letter's column |
| `Moves.RecycleFromFields` | board.py:402-409 | the move built from seven fields is a Recycle whose old cells and new anchor take the columns of the three parsed letters, in that order |
| `Moves.AddFieldsParse` | board.py:396-401 | the fields `__str__` writes for an Add parse back to that Add |
| `Moves.RecycleFieldsParse` | board.py:402-409 | the fields `__str__` writes for a Recycle parse back to that Recycle |
| `Moves.FromStrToStr` | board.py:393-425 | `from_str(str(m)) == m` for every move whose columns have letters |
| `Results.Result.Get` | board.py:199 | the value read under a key is one stored under that key |
| `Rules.SpaceAvail` | board.py:118-122 | `_space_avail`: both cells of the card are empty; characterised within `Rules.AddVerdict` and `Rules.RecycleVerdict` |
| `Rules.HasSupport` | board.py:124-127 | `_has_support`: the card stands on row 0, or on a filled cell under its anchor and, for a horizontal card, under its second half; characterised within `Rules.VerifyMove` |
| `Rules.CanRemove` | board.py:155-162 | `_can_remove` as written, reading with Python's negative indices; its conditions appear in `Rules.RecycleVerdict` |
| `Rules.FindOldMove` | board.py:164-169 | a card is found iff it is committed and its anchor and second half are the move's two old cells; the first card found is the first such card in list order |
| `Rules.VerifyMove` | board.py:129-134 | the verdict succeeds iff the card is within bounds and has support |
| `Rules.VerifyAdd` | board.py:136-147 | `_verify_add`: the `_verify_move` verdict when it fails, else "cards left" and "space available" ahead of its conditions; `Rules.AddVerdict` states when it succeeds |
| `Rules.VerifyRecycle` | board.py:171-189 | `_verify_recycle`: the `_verify_move` verdict when it fails, else "all cards placed", "card exists", "can remove", "different than last" and "space available" ahead of its conditions; `Rules.RecycleVerdict` states when it succeeds |
| `Rules.OutOfBoundsVerdict` | board.py:129-131 | an out-of-bounds Add or Recycle is answered with the single failing condition "within bounds" |
| `Rules.AddVerdict` | board.py:136-147 | an Add is legal iff both cells are on the board, fewer than 24 cards are placed, both cells are empty, and the card stands on the floor or on filled cells |
| `Rules.RecycleVerdict` | board.py:171-189 | a Recycle is legal iff it is in bounds with support, all 24 cards are placed, a committed card occupies the old cells, `_can_remove` holds, old cell one is not the last move's anchor, and the target is free or is the same anchor with another placement |
| `Rules.PlaceCell` | board.py:111-116 | `_apply` writes the anchor tile and the second tile and leaves every other cell as it was |
| `Rules.BlankCell` | board.py:191-194 | `_remove` empties the card's two cells and leaves every other cell as it was |
| `Rules.RemoveFirst` | board.py:192 | `list.remove` drops one occurrence: the length falls by one and the multiset loses exactly that card |
| `Rules.VerifiedInBoard` | board.py:129-131 | an accepted move lies on the board |
| `Rules.LegalApplicable` | board.py:196-199 | an accepted move lies on the board and, for a Recycle, a committed card lies on its old cells to be lifted |
| `Rules.Lifted` | board.py:199 | the lifted card is the first committed card, in list order, on the old cells |
| `Rules.Commit` | board.py:196-201 | the state after an accepted move: a Recycle lifts its card first, then the card is written, appended, counted and recorded; `Rules.CommitCells`, `Rules.CommitBookkeeping` and `Rules.CommitValid` characterise it |
| `Rules.Step` | board.py:318-325 | `make_move`: the verdict, and the committed state when it succeeds or the same state when it fails (`Rules.RejectedUnchanged`) |
| `Rules.CommitCells` | board.py:318-325 | a committed move writes its two tiles; for a Recycle, the lifted card's cells become empty; no other cell changes |
| `Rules.CommitBookkeeping` | board.py:318-325 | a committed move is appended and becomes the last move, and the counter grows by one; an Add adds one card, a Recycle swaps the lifted card for the new one |
| `Rules.RejectedUnchanged` | board.py:318-325 | a rejected move leaves the state unchanged |
| `Rules.CommitValid` | board.py:318-325 | committing keeps the state valid: a well-formed board, a non-negative counter, and every committed card on the board |
| `Rules.AddKeepsContiguous` | board.py:124-127 | an accepted Add keeps the board free of tiles hanging over an empty cell |
| `Rules.VerifiedAddInBoard` | board.py:136-140 | an accepted Add lies on the board |
| `Board.PlaceAt` | board.py:111-116 | a cell after `_apply` holds the card table's entry over it if one is present, else the old tile |
| `Board.GameBoard.constructor` | board.py:93-97 | a new board is empty, with no moves, a zero counter and no last move |
| `Board.GameBoard.SpaceAvail` | board.py:118-122 | `_space_avail` is the space rule on the board's cells |
| `Board.GameBoard.HasSupport` | board.py:124-127 | `_has_support` is the support rule on the board's cells |
| `Board.GameBoard.VerifyMove` | board.py:129-134 | `_verify_move` returns the verdict of `Rules.VerifyMove` |
| `Board.GameBoard.VerifyAdd` | board.py:136-147 | `_verify_add` returns the verdict of `Rules.VerifyAdd` |
| `Board.GameBoard.PyRead` | board.py:159-162 | a read with Python's negative indices is the wrapped cell of the board |
| `Board.GameBoard.CanRemove` | board.py:155-162 | `_can_remove` is `Rules.CanRemove` on the board's cells |
| `Board.GameBoard.VerifyRecycle` | board.py:171-189 | `_verify_recycle` returns the verdict of `Rules.VerifyRecycle` |
| `Board.GameBoard.Apply` | board.py:111-116 | after `_apply` the array holds `Place` of the old cells, and nothing else changes |
| `Board.GameBoard.ApplyCard` | board.py:112-116 | the two loops write every present card entry, and only those |
| `Board.GameBoard.ApplyColumn` | board.py:113-116 | the inner loop writes the present entries of one card column |
| `Board.GameBoard.Remove` | board.py:191-194 | after `_remove` the card is out of the list once and its cells are empty |
| `Board.GameBoard.EmptyCard` | board.py:193-194 | the two writes of `_remove` empty exactly the card's cells |
| `Board.GameBoard.AddCard` | board.py:149-153 | `_add_card` returns the Add verdict and writes the card only when it succeeds |
| `Board.GameBoard.RecycleCard` | board.py:196-201 | `_recycle_card` returns the Recycle verdict; on success it lifts the first card found and writes the new one, otherwise nothing changes |
| `Board.GameBoard.MakeMove` | board.py:318-325 | `make_move` returns the verdict, and the new state is exactly `Rules.Step`; the board stays valid |
| `Board.GameBoard.Record` | board.py:321-324 | the bookkeeping appends the move, records it as last and counts it |
| `Board.GameBoard.ScanLine` | board.py:209-219 | one line's loop returns the `any` verdict at the first cell where a counter reaches 4, else nothing |
| `Board.GameBoard.ScanLines` | board.py:204-219 | a block of lines returns the verdict of the first line, in order, that stops |
| `Board.GameBoard.WinDiagonal` | board.py:203-271 | `_win_diagonal` scans the 26 diagonals in the source's order and returns the first that stops |
| `Board.GameBoard.WinHorizontal` | board.py:273-291 | `_win_horizontal` returns the first row, from the bottom, that stops |
| `Board.GameBoard.WinVertical` | board.py:293-311 | `_win_vertical` returns the first column, from the left, that stops |
| `Board.GameBoard.IsWinningBoard` | board.py:313-316 | `is_winning_board` returns `Win.Winning`: a draw at 60 moves, else the first stopping line |
| `Board.GameBoard.BoardLookup` | board.py:327-329 | `board_lookup` returns the overlay's tile if the overlay has the cell, else the board's |
| `Board.GameBoard.MaxHeightForX` | board.py:331-336 | `_max_height_for_x` returns the first empty row of the column under the overlay, or 12 |
| `Board.GameBoard.ColumnAt` | board.py:341-347 | one column of the generator loop emits the vertical batch, then the horizontal batch, under their conditions |
| `Board.GameBoard.GenerateDestinations` | board.py:340-347 | the column loop emits the destinations column by column |
| `Board.GameBoard.CanRecycleMove` | board.py:349-354 | `_can_recycle_move` as written, with the IndexError of a read past the board as None |
| `Board.GameBoard.GenerateRecycleMoves` | board.py:356-375 | `_generate_recycle_moves` filters the pool, then emits each card's destinations with its two cells blanked |
| `Board.GameBoard.GenerateMoves` | board.py:377-383 | `_generate_moves` emits Adds while fewer than 24 cards would be placed, else Recycles |
| `Board.GameBoard.PossibleMoves` | board.py:385-389 | `possible_moves` returns the tree of `Overlay.PossibleMoves` |
| `Board.GameBoard.Subtrees` | board.py:387-388 | the dict comprehension builds the children in emission order |
| `Board.GameBoard.Subtree` | board.py:387 | one comprehension entry forecasts the move and builds its subtree one ply deeper |
| `Win.CountTile` | board.py:53-72 | a tile extends its colour's and its fill's run and resets the opposite ones; an empty attribute resets both |
| `Win.CountsTrail` | board.py:53-72 | each counter is the length of the current run of its attribute |
| `Win.ScanIffRun` | board.py:209-219 | a line's scan stops iff the line holds four consecutive tiles of one colour or one fill |
| `Win.ScanPrefixStable` | board.py:209-219 | once a scan has stopped, the rest of the line does not matter |
| `Win.AllLinesInBoard` | board.py:203-311 | every line the scans walk lies on the board |
| `Win.FirstHitAppend` | board.py:316 | scanning one block of lines, then the next, is scanning their concatenation |
| `Win.FirstHitSome` | board.py:203-311 | the search finds a line iff some line's scan stops, and the counters it returns hit 4 |
| `Win.Coverage` | board.py:203-311 | every four-cell window of a row, column or diagonal lies inside one scanned line |
| `Win.FirstHitIffWin` | board.py:203-316 | the scan over all lines stops iff the board holds a winning window |
| `Win.WinResult` | board.py:212-217 | the `any` verdict succeeds iff some counter is 4 |
| `Win.Winning` | board.py:313-316 | `is_winning_board`: the draw at 60 moves, else the first stopping diagonal, row or column; `Win.WinningIff` characterises it |
| `Win.WinningIff` | board.py:313-316 | at 60 moves the verdict is a successful draw; before that there is a verdict iff some line holds four in a row, and it succeeds |
| `Overlay.MovesToPositions` | board.py:86-88 | `moves_to_positions`: every move's entries written in order into one map; `Overlay.OverlayLastMove` characterises it |
| `Overlay.Entries` | board.py:39-50 | a move writes two overlay entries, four for a Recycle |
| `Overlay.OverlayLastMove` | board.py:86-88 | in `moves_to_positions` a later move overrides earlier ones: its card shows, its old cells show empty (blanking wins), and other cells keep their value |
| `Overlay.WriteLast` | board.py:86-88 | the last entry for a cell decides its overlay value |
| `Overlay.LookupOverlaid` | board.py:327-329 | a lookup reads the board with the overlay written over it; with no forecast it reads the board |
| `Overlay.Height` | board.py:331-336 | the height is a row with every cell below it filled and itself empty, or 12 |
| `Overlay.HeightUnique` | board.py:331-336 | that row is unique |
| `Overlay.BatchMembers` | board.py:344 | a batch holds exactly its placements at one cell |
| `Overlay.BatchParity` | board.py:344-347 | the vertical batch holds exactly the even placements, the horizontal batch exactly the odd ones |
| `Overlay.ColumnMovesMembers` | board.py:340-347 | a column emits exactly the moves of the emission condition in that column |
| `Overlay.DestinationsMembers` | board.py:338-347 | the column loop emits exactly the moves of the emission condition |
| `Overlay.EmittedShape` | board.py:338-347 | an emitted move lies on the board, is of the generator's kind, and sits on an empty cell under the overlay with support below |
| `Overlay.HeightOnContiguous` | board.py:331-336 | on a board with no overhang a cell is its column's height iff it is empty and stands on the floor or on a filled cell |
| `Overlay.EmittedAddIsLegal` | board.py:338-347 | with no forecast, an emitted Add on a board with no overhang is legal |
| `Overlay.LegalAddIsEmitted` | board.py:338-347 | a legal Add on such a board is emitted |
| `Overlay.AddGenerationExact` | board.py:338-347 | on such a board, with fewer than 24 cards, the Add generator emits exactly the legal Add moves |
| `Overlay.CanRecycleMove` | board.py:349-354 | `_can_recycle_move` as written, None where a read raises; `Overlay.CanRecycleMoveCases` characterises it |
| `Overlay.CanRecycleMoveCases` | board.py:349-354 | for a vertical card the overlay plays no part, and the card is never recyclable while its own upper half is on the board; a horizontal card tests the overlay two rows above its anchor, and raises past the top row unless the overlay holds that cell |
| `Overlay.Recyclable` | board.py:358-359 | the filter succeeds iff no check raises, and keeps exactly the pool's cards whose check holds |
| `Overlay.OldCells` | board.py:361-362 | the cells freed are the card's anchor and second half, since (p - 1) % 2 equals (p + 1) % 2 |
| `Overlay.RecycleDestinationsMembers` | board.py:360-375 | a Recycle destination is emitted iff some recyclable card's blanked overlay emits it; every one lies on the board and names a card on its old cells |
| `Overlay.GenerateMoves` | board.py:377-383 | `_generate_moves`: Add destinations below 24 cards counting the forecast, else Recycle destinations, under the forecast overlay; `Overlay.GeneratePhase` characterises it |
| `Overlay.GeneratePhase` | board.py:377-383 | below 24 cards, counting the forecast, generation never raises and yields only Adds; from 24 on it yields only Recycles, each lifting a card that is not the last of the committed and forecast moves; every generated move lies on the board |
| `Overlay.LastCardNotLifted` | board.py:358-359 | a Recycle whose old cells are occupied only by the last card of the committed and forecast moves is never generated, since `[:-1]` leaves that card out |
| `Overlay.PossibleMoves` | board.py:385-389 | `possible_moves`: below level 2 a mapping from each generated move to its subtree, else the generated list; `Overlay.PossibleMovesShape` characterises it |
| `Overlay.Children` | board.py:387-388 | the dict comprehension of `possible_moves`, one generated move at a time; `Overlay.ChildrenAtRoot` characterises it |
| `Overlay.ChildrenAtRoot` | board.py:387-388 | the comprehension at level 1 succeeds iff no subtree raises; it keys each move once and maps it to the moves generated after forecasting it |
| `Overlay.PossibleMovesShape` | board.py:385-389 | from level 1 the tree maps each generated move, once, to its list of replies; it exists iff generation raises nowhere |
| `Dicts.Put` | minimax.py:39 | assigning a dict key leaves an existing key in place with the new value, or appends a new key; distinct keys stay distinct |
| `Dicts.PutKeys` | minimax.py:39 | after the assignment, a key is present iff it was present before or is the key assigned |
| `Heuristics.NaiveWeight` | heuristics.py:3-8 | the weight table has an entry exactly for the four card tiles; a weight is negative iff the tile is red; full weights lie in -2..3 and open ones in -1.5..1 |
| `Heuristics.PositionFactor` | heuristics.py:25 | the positional factor lies in 1..118 on the board |
| `Heuristics.PositionFactorInjective` | heuristics.py:25 | no two cells share a factor |
| `Heuristics.NaiveCount` | heuristics.py:24-25 | `naive_count` is defined iff the tile is a card tile; on the board a tile counts negative iff it is red, and within -236..354 |
| `Heuristics.SimpleCount` | heuristics.py:11-20 | `_simple_count` returns the score of the board under the forecast overlay, or None where `fn` raises |
| `Heuristics.CountColumn` | heuristics.py:14-19 | the row loop adds to the running total the column's contribution, the cells below its first empty cell, or raises where `fn` does |
| `Heuristics.Naive` | heuristics.py:23-27 | `naive` is `_simple_count` with `naive_count` |
| `Heuristics.Score` | heuristics.py:11-20 | `_simple_count` as a function: the sum over the columns of each column's cells below its first empty cell, under the overlay; `Heuristics.ScoreOfStacks`, `Heuristics.OverlayScore` and `Heuristics.ColumnIndependent` characterise it |
| `Heuristics.ScoreToRaises` | heuristics.py:13-19 | a raise in an early column is a raise of the whole count |
| `Heuristics.ColumnSumRaises` | heuristics.py:15-19 | a raise part-way up a column is a raise of the column |
| `Heuristics.ColumnScoreOfStack` | heuristics.py:14-19 | a column's contribution depends only on its stack |
| `Heuristics.SameColumnSameStack` | heuristics.py:14-19 | two views that agree on a column read the same stack there |
| `Heuristics.ScoreOfStacks` | heuristics.py:11-20 | the score depends only on the stacks the columns hold |
| `Heuristics.EmptyBoardScoresZero` | heuristics.py:11-20 | the empty board with no forecast scores 0 |
| `Heuristics.AboveGapIgnored` | heuristics.py:15-18 | a tile forecast above an empty cell of its column changes nothing |
| `Heuristics.OverlayScore` | heuristics.py:12-16 | counting through the overlay is counting the overlaid board |
| `Heuristics.ColumnIndependent` | heuristics.py:13-19 | views that agree on all other columns differ only by their column's contributions |
| `Heuristics.OverlayTiles` | board.py:86-88 | every tile the overlay writes is empty or a card tile |
| `Heuristics.NaiveDefined` | heuristics.py:23-27 | on a well-formed board, whatever the forecast, `naive` never raises |
| `Search.Cond` | minimax.py:16-17 | the condition is 0 or 1 |
| `Search.CondAlternates` | minimax.py:16-17 | conditions alternate level by level, and 'full' flips every level |
| `Search.MinMax` | minimax.py:27-29 | `_min_max` raises iff the dict is empty; otherwise it returns an item whose score is the minimum (condition 0) or the maximum (condition 1) |
| `Search.MinMaxUnique` | minimax.py:27-29 | with scores as keys, the winner is the only item with its score |
| `Search.LeafItems` | minimax.py:46 | the leaf comprehension keys each score once |
| `Search.PutEntries` | minimax.py:39 | an item survives an assignment unless its key was reassigned |
| `Search.LeafItemsLastWins` | minimax.py:46 | an item is in the leaf dict iff it is the path through a listed move with its score and no later move has the same score |
| `Search.LeafItemsKeys` | minimax.py:46 | every listed move's score is a key of the leaf dict |
| `Search.Best` | minimax.py:31-48 | `_evaluate` as a function: a leaf keys each listed move's path by its score, a node each child's result, and the min or max is taken; `Search.SearchReached`, `Search.NodeIsChild` and `Search.NodeBeatsChildren` characterise it |
| `Search.SubResults` | minimax.py:36-41 | the loop over children keys each score once and records one score per child visited; `Search.SubResultsLastWins` and `Search.SubResultsScores` give its contents |
| `Search.SubResultsLastWins` | minimax.py:37-39 | an item is in `sub_results` after i children iff it is the result of one of them and no later one among the i has the same score: equal scores collapse and the last child visited keeps its path |
| `Search.SubResultsScores` | minimax.py:37-41 | the j-th score the loop collects is the score of child j's own result, and that child did not raise |
| `Search.NodeIsChild` | minimax.py:37-42 | a node's result is the result of one of its children, the last child visited with that score |
| `Search.SubResultsRaises` | minimax.py:37-38 | once a child raises, the whole loop raises |
| `Search.Level2PerChild` | minimax.py:40-41 | at level 1 `_level_2_nodes` receives one score per root child, the j-th being the score of root child j's result one level down, and nothing at other levels |
| `Search.LeafReached` | minimax.py:44-48 | a leaf's result extends the path by one listed move, scored at the leaf's condition |
| `Search.SubResultsReached` | minimax.py:34-42 | every item of `sub_results` was reached through a child, one level down |
| `Search.SearchReached` | minimax.py:31-48 | in a tree of depth d the result extends the path by d moves, the first offered by the tree, and is scored by the evaluator at the deepest level's condition |
| `Search.NodeBeatsChildren` | minimax.py:34-42 | the minimax rule: a node's score is at least as good, for the side to move, as every child's |
| `Search.ChildInSubResults` | minimax.py:37-39 | every child visited left its score as a key of `sub_results` |
| `Search.LeafBeatsMoves` | minimax.py:44-48 | a leaf's score is at least as good as every listed move's |
| `Search.MiniMax.constructor` | minimax.py:8-10 | a new searcher has zeroed counters and plays for 'full' iff 'full' is among the win conditions |
| `Search.MiniMax.Reset` | minimax.py:12-14 | `_reset` zeroes both counters |
| `Search.MiniMax.ConditionForLevel` | minimax.py:16-17 | `_condition_for_level` is 0 or 1, and it is 1 (maximise) exactly at odd levels for a searcher not playing for 'full', and exactly at even levels for one that is |
| `Search.MiniMax.EvaluateRoot` | minimax.py:31-35 | at the root a leaf list raises, since `path` is None; a mapping is searched from the empty path at level 1 |
| `Search.MiniMax.Evaluate` | minimax.py:31-48 | `_evaluate` returns the search result; on success it counts every leaf evaluation and appends the level-1 child scores |
| `Search.MiniMax.EvaluateNode` | minimax.py:34-42 | the node case returns the best child item for the side to move |
| `Search.MiniMax.VisitChildren` | minimax.py:37-41 | the loop over the children builds `sub_results` and the counters child by child, or stops at the first raise |
| `Search.MiniMax.VisitChild` | minimax.py:38-41 | one child is searched one level down, its score keys its path, and at level 1 its score is appended |

## Left out

- Text output is not part of this model: `GameBoard.__str__`, `_str_tile`, `MiniMax._trace` and the `print` calls of `MiniMax.make_move`.
- `main.py` and `players.py`, the game loop and the players, are not part of this model.
- `MiniMax.make_move` is not modelled as one operation. It calls `board.possible_moves(MAX_DEPTH)`, which binds 3 to `moves`, and `moves_to_positions(3)` then raises. The model offers its parts instead: tree building with an explicit forecast (`Board.GameBoard.PossibleMoves`), the search (`Search.MiniMax.EvaluateRoot`) and the move itself (`Board.GameBoard.MakeMove`).
- `informed` is imported by `minimax.py` but is not defined in `heuristics.py`. The search takes the evaluator as a parameter, a total function from a path and a condition to a score.
- Scores are modelled as mathematical reals, not floats. Rounding, infinities and NaN are left out.
- `deepcopy` and Python generators are modelled as values. A generator that raises is modelled as a whole list that is None; no caller consumes such a generator only in part.
- `possible_moves` called directly with `moves=None` at level 2 or deeper raises in Python. The model takes the forecast as a list, where `None` and `[]` are the same.
- A `Move` with a placement outside 1..8 raises `KeyError` in its constructor. The model's placement type excludes it, and `Moves.FromStr` yields None for it.
- Moves.ToStr: requires that the columns have letters (0..7). `__str__` raises `KeyError` for any other column, and that error is not modelled. The same applies to `Moves.Fields` and `Moves.Letter`.
- Moves.FromStr: reads numbers as an optional `-` followed by ASCII digits. Python's `int` also accepts a `+`, underscores, surrounding whitespace and other Unicode digits.
- Search.MiniMax.Evaluate: states the two counters only when the search succeeds. After a raise, they are whatever the children visited before the raise left.
- Board.GameBoard.MakeMove: requires that the reads of `_can_remove` stay within Python's index range, counting negative indices from the end. The `IndexError` a read beyond it raises is not modelled.
- Board.GameBoard.VerifyRecycle: requires the same of `_can_remove`, for moves within bounds.
- Board.GameBoard.RecycleCard: requires the same of `_can_remove`, through `Rules.Checkable`.
- Board.GameBoard.CanRemove: requires that every read of `_can_remove` is within Python's index range; the `IndexError` is not modelled.
- Board.GameBoard.PyRead: requires an index within Python's range, from -8 to 7 for columns and from -12 to 11 for rows; the `IndexError` beyond it is not modelled.
- Rules.PyCell: requires an index within Python's range, as `Board.GameBoard.PyRead` does.
- Rules.CanRemove: requires that every read of `_can_remove` is within Python's index range, as `Board.GameBoard.CanRemove` does.
- Rules.VerifyRecycle: requires the same of `_can_remove`, for moves within bounds, as `Board.GameBoard.VerifyRecycle` does.
- Rules.Verify: requires the same of `_can_remove` for a Recycle on the board, through `Rules.Checkable`.
- Rules.Step: requires the same, through `Rules.Checkable`, as `Board.GameBoard.MakeMove` does.
- Rules.RecycleVerdict, Rules.VerifiedInBoard, Rules.LegalApplicable and Rules.RejectedUnchanged carry the same requires, because they state facts about `Rules.VerifyRecycle` and `Rules.Verify`.
