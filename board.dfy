/** The game board object (board.py `GameBoard`): an 8 x 12 array of tiles, the list of
    committed cards, the move counter and the last move. `make_move` is the only operation
    that changes it; every verdict, scan and generator only reads it. */
module Board {

  import opened Wrappers
  import opened Tiles
  import opened Moves
  import opened Results
  import opened Rules
  import opened Win
  import opened Overlay
  import opened Dicts

  /** The 2 x 2 entry of `card` that covers (a, b) when the card's corner is at (x, y). */
  predicate Covered(card: seq<seq<Option<Tile>>>, x: int, y: int, a: int, b: int)
    requires |card| == 2 && |card[0]| == 2 && |card[1]| == 2
  {
    x <= a < x + 2 && y <= b < y + 2 && card[a - x][b - y].Some?
  }

  /** One cell of `Place`: the present entry of the card table over it, else the old tile. */
  lemma PlaceAt(g: Grid, m: Move, a: int, b: int)
    requires m.InBoard() && 0 <= a < MaxX && 0 <= b < MaxY
    ensures Place(g, m)[a][b] ==
      if Covered(Card(m.placement), m.x, m.y, a, b) then Card(m.placement)[a - m.x][b - m.y].value else g[a][b]
  {
    Rules.PlaceCell(g, m, a, b);
    var p := m.placement;
    if m.x <= a < m.x + 2 && m.y <= b < m.y + 2 {
      var i, j := a - m.x, b - m.y;
      CardShape(p, i, j);
      if i == 0 && j == 0 {
        assert (a, b) == m.Anchor();
      } else if i == Dx(p) && j == Dy(p) {
        assert (a, b) == m.Second();
      } else {
        assert (a, b) != m.Anchor() && (a, b) != m.Second();
      }
    } else {
      assert (a, b) != m.Anchor() && (a, b) != m.Second();
    }
  }

  /** One cell of `Blank`. */
  lemma BlankAt(g: Grid, c: Move, a: int, b: int)
    requires c.InBoard() && 0 <= a < MaxX && 0 <= b < MaxY
    ensures Blank(g, c)[a][b] == if (a, b) == c.Anchor() || (a, b) == c.Second() then Empty else g[a][b]
  {
  }

  /** An array that holds the card of `m` over `g0` holds `Place(g0, m)`. */
  lemma PlacedGrid(grid: array2<Tile>, g0: Grid, m: Move)
    requires grid.Length0 == MaxX && grid.Length1 == MaxY && m.InBoard()
    requires forall a, b :: 0 <= a < MaxX && 0 <= b < MaxY ==>
      grid[a, b] == if Covered(Card(m.placement), m.x, m.y, a, b) then Card(m.placement)[a - m.x][b - m.y].value else g0[a][b]
    ensures forall a, b :: 0 <= a < MaxX && 0 <= b < MaxY ==> grid[a, b] == Place(g0, m)[a][b]
  {
    forall a, b | 0 <= a < MaxX && 0 <= b < MaxY
      ensures grid[a, b] == Place(g0, m)[a][b]
    {
      PlaceAt(g0, m, a, b);
    }
  }

  /** An array that holds `g0` with the two cells of `c` emptied holds `Blank(g0, c)`. */
  lemma BlankedGrid(grid: array2<Tile>, g0: Grid, c: Move)
    requires grid.Length0 == MaxX && grid.Length1 == MaxY && c.InBoard()
    requires forall a, b :: 0 <= a < MaxX && 0 <= b < MaxY ==>
      grid[a, b] == if (a == c.x && b == c.y) || (a == c.x + Dx(c.placement) && b == c.y + Dy(c.placement)) then Empty else g0[a][b]
    ensures forall a, b :: 0 <= a < MaxX && 0 <= b < MaxY ==> grid[a, b] == Blank(g0, c)[a][b]
  {
    forall a, b | 0 <= a < MaxX && 0 <= b < MaxY
      ensures grid[a, b] == Blank(g0, c)[a][b]
    {
      BlankAt(g0, c, a, b);
    }
  }

  class GameBoard {
    var grid: array2<Tile>
    /** The board's cells as a value, indexed [x][y]; always equal to the array. */
    ghost var cells: Grid
    var moves: seq<Move>
    var numMoves: int
    var lastMoved: Option<Move>

    /** The array has the board's dimensions and holds exactly `cells`. */
    ghost predicate Coupled()
      reads this`grid, this`cells, grid
    {
      && grid.Length0 == MaxX && grid.Length1 == MaxY
      && forall a, b :: 0 <= a < MaxX && 0 <= b < MaxY ==> grid[a, b] == cells[a][b]
    }

    ghost function State(): Rules.State
      reads this
    {
      Rules.State(cells, moves, numMoves, lastMoved)
    }

    ghost predicate Valid()
      reads this, grid
    {
      Coupled() && ValidState(State())
    }

    constructor()
      ensures Valid() && fresh(grid)
      ensures cells == EmptyGrid() && moves == [] && numMoves == 0 && lastMoved == None
    {
      grid := new Tile[MaxX, MaxY]((a, b) => Empty);
      cells := EmptyGrid();
      moves := [];
      numMoves := 0;
      lastMoved := None;
    }

    // -------------------------------------------------------------------
    // Verdicts (board.py `_space_avail` .. `_verify_recycle`)

    method SpaceAvail(x: int, y: int, p: PlacementId) returns (b: bool)
      requires Coupled() && WithinBounds(x, y, p)
      ensures b == Rules.SpaceAvail(cells, x, y, p)
    {
      var intoTile := grid[x, y];
      var intoTile2 := grid[x + p % 2, y + (p + 1) % 2];
      b := intoTile == Empty && intoTile2 == Empty;
    }

    method HasSupport(x: int, y: int, p: PlacementId) returns (b: bool)
      requires Coupled() && WithinBounds(x, y, p)
      ensures b == Rules.HasSupport(cells, x, y, p)
    {
      b := y == 0 || (grid[x, y - 1] != Empty && (p % 2 == 0 || grid[x + 1, y - 1] != Empty));
    }

    method VerifyMove(m: Move) returns (r: Result)
      requires Coupled()
      ensures r == Rules.VerifyMove(cells, m)
    {
      if !WithinBounds(m.x, m.y, m.placement) {
        return Result([("within bounds", Flag(false))], All);
      }
      var support := HasSupport(m.x, m.y, m.placement);
      r := Result([("has support", Flag(support))], All);
    }

    method VerifyAdd(m: Move) returns (r: Result)
      requires Coupled()
      ensures r == Rules.VerifyAdd(cells, numMoves, m)
    {
      var rm := VerifyMove(m);
      if !rm.Success() {
        return rm;
      }
      var space := SpaceAvail(m.x, m.y, m.placement);
      r := Result([("cards left", Flag(numMoves < MaxCards)), ("space available", Flag(space))] + rm.conditions, All);
    }

    /** `board[x][y]` with Python's negative indices. */
    function PyRead(x: int, y: int): (t: Tile)
      requires Coupled() && PyReadable(x, y)
      reads this, grid
      ensures t == PyCell(cells, x, y)
    {
      grid[if x < 0 then x + MaxX else x, if y < 0 then y + MaxY else y]
    }

    method CanRemove(m: Move) returns (b: bool)
      requires Coupled() && CanRemoveReadable(cells, m)
      ensures b == Rules.CanRemove(cells, m)
    {
      var (x1, y1) := m.OldPos1();
      if y1 - m.OldPos2().1 == 0 {
        b := PyRead(x1, y1 + 2) == Empty;
      } else {
        b := PyRead(x1, y1 + 1) == Empty && PyRead(x1 + 1, y1 + 1) == Empty;
      }
    }

    method VerifyRecycle(m: Move) returns (r: Result)
      requires Coupled() && (WithinBounds(m.x, m.y, m.placement) ==> CanRemoveReadable(cells, m))
      ensures r == Rules.VerifyRecycle(cells, moves, numMoves, lastMoved, m)
    {
      var rm := VerifyMove(m);
      if !rm.Success() {
        return rm;
      }
      var found := FindOldMove(moves, m);
      var canRemove := CanRemove(m);
      var space := SpaceAvail(m.x, m.y, m.placement);
      r := Result([("all cards placed", Flag(numMoves >= MaxCards)),
                   ("card exists", Cards(found)),
                   ("can remove", Flag(canRemove)),
                   ("different than last", Flag(lastMoved.None? || lastMoved.value.x != m.OldPos1().0 || lastMoved.value.y != m.OldPos1().1)),
                   ("space available", Flag((m.OldPos1() == (m.x, m.y) && |found| > 0 && found[0].placement != m.placement) || space))]
                  + rm.conditions, All);
    }

    // -------------------------------------------------------------------
    // Mutation (board.py `_apply`, `_remove`, `_add_card`, `_recycle_card`, `make_move`)

    /** `_apply`: writes each present entry card[i][j] at (x + i, y + j). */
    method Apply(m: Move)
      requires Coupled() && m.InBoard()
      modifies this, grid
      ensures Coupled() && cells == Place(old(cells), m)
      ensures grid == old(grid) && moves == old(moves) && numMoves == old(numMoves) && lastMoved == old(lastMoved)
    {
      ghost var g0 := cells;
      var p, x, y := m.placement, m.x, m.y;
      var card: seq<seq<Option<Tile>>> := Card(p);
      forall i, j | 0 <= i < 2 && 0 <= j < 2 && card[i][j].Some?
        ensures InBounds(x + i, y + j)
      {
        CardShape(p, i, j);
      }
      ApplyCard(card, x, y);
      PlacedGrid(grid, g0, m);
      cells := Place(g0, m);
    }

    /** The loops of `_apply`: every present entry of the card, column by column. */
    method ApplyCard(card: seq<seq<Option<Tile>>>, x: int, y: int)
      requires grid.Length0 == MaxX && grid.Length1 == MaxY
      requires |card| == 2 && |card[0]| == 2 && |card[1]| == 2
      requires forall i, j :: 0 <= i < 2 && 0 <= j < 2 && card[i][j].Some? ==> InBounds(x + i, y + j)
      modifies grid
      ensures forall a, b :: 0 <= a < MaxX && 0 <= b < MaxY ==>
        grid[a, b] == if Covered(card, x, y, a, b) then card[a - x][b - y].value else old(grid[a, b])
    {
      for i := 0 to 2
        invariant forall a, b :: 0 <= a < MaxX && 0 <= b < MaxY ==>
          grid[a, b] == if a < x + i && Covered(card, x, y, a, b) then card[a - x][b - y].value else old(grid[a, b])
      {
        ApplyColumn(card, x, y, i);
      }
    }

    /** The inner loop of `_apply`: the present entries of column `i` of the card. */
    method ApplyColumn(card: seq<seq<Option<Tile>>>, x: int, y: int, i: int)
      requires grid.Length0 == MaxX && grid.Length1 == MaxY
      requires |card| == 2 && |card[0]| == 2 && |card[1]| == 2 && 0 <= i < 2
      requires forall j :: 0 <= j < 2 && card[i][j].Some? ==> InBounds(x + i, y + j)
      modifies grid
      ensures forall a, b :: 0 <= a < MaxX && 0 <= b < MaxY ==>
        grid[a, b] == if a == x + i && Covered(card, x, y, a, b) then card[i][b - y].value else old(grid[a, b])
    {
      for j := 0 to 2
        invariant forall a, b :: 0 <= a < MaxX && 0 <= b < MaxY ==>
          grid[a, b] == if a == x + i && b < y + j && Covered(card, x, y, a, b) then card[i][b - y].value else old(grid[a, b])
      {
        if card[i][j].Some? {
          grid[x + i, y + j] := card[i][j].value;
        }
      }
    }

    /** `_remove`: drops the first equal card from the list and empties its two cells. */
    method Remove(c: Move)
      requires Coupled() && c in moves && c.InBoard()
      modifies this, grid
      ensures Coupled() && cells == Blank(old(cells), c) && moves == RemoveFirst(old(moves), c)
      ensures grid == old(grid) && numMoves == old(numMoves) && lastMoved == old(lastMoved)
    {
      ghost var g0 := cells;
      EmptyCard(c, g0);
      moves := RemoveFirst(moves, c);
      cells := Blank(g0, c);
    }

    /** The two writes of `_remove`: the array that held `g0` holds `Blank(g0, c)`. */
    method EmptyCard(c: Move, ghost g0: Grid)
      requires grid.Length0 == MaxX && grid.Length1 == MaxY && c.InBoard()
      requires forall a, b :: 0 <= a < MaxX && 0 <= b < MaxY ==> grid[a, b] == g0[a][b]
      modifies grid
      ensures forall a, b :: 0 <= a < MaxX && 0 <= b < MaxY ==> grid[a, b] == Blank(g0, c)[a][b]
    {
      grid[c.x, c.y] := Empty;
      grid[c.x + c.placement % 2, c.y + (c.placement + 1) % 2] := Empty;
      BlankedGrid(grid, g0, c);
    }

    /** `_add_card`: the Add verdict, and the card written when it is a success. */
    method AddCard(m: Move) returns (r: Result)
      requires Coupled() && m.Add?
      modifies this, grid
      ensures Coupled() && r == Rules.VerifyAdd(old(cells), numMoves, m)
      ensures cells == if r.Success() then Place(old(cells), m) else old(cells)
      ensures grid == old(grid) && moves == old(moves) && numMoves == old(numMoves) && lastMoved == old(lastMoved)
    {
      r := VerifyAdd(m);
      if r.Success() {
        VerifiedInBoard(State(), m);
        Apply(m);
      }
    }

    /** `_recycle_card`: the Recycle verdict; on success the card it names under
        "card exists" is lifted and the new card written. */
    method RecycleCard(m: Move) returns (r: Result)
      requires Valid() && m.Recycle? && Checkable(State(), m)
      modifies this, grid
      ensures Coupled() && r == Verify(old(State()), m)
      ensures r.Success() ==> Applicable(old(State()), m)
      ensures r.Success() ==>
        var c := Lifted(old(State()), m);
        cells == Place(Blank(old(cells), c), m) && moves == RemoveFirst(old(moves), c)
      ensures !r.Success() ==> cells == old(cells) && moves == old(moves)
      ensures grid == old(grid) && numMoves == old(numMoves) && lastMoved == old(lastMoved)
    {
      ghost var s := State();
      r := VerifyRecycle(m);
      if r.Success() {
        LegalApplicable(s, m);
        assert r.conditions[1] == ("card exists", Cards(FindOldMove(moves, m)));
        var c := r.Get("card exists").found[0];
        Remove(c);
        Apply(m);
      }
    }

    /** `make_move`: the verdict of `m` and, when it is a success, the committed move.
        The new state is exactly `Step`. */
    method MakeMove(m: Move) returns (r: Result)
      requires Valid() && Checkable(State(), m)
      modifies this, grid
      ensures Valid() && grid == old(grid)
      ensures (r, State()) == Step(old(State()), m)
    {
      ghost var s := State();
      if m.Recycle? {
        r := RecycleCard(m);
      } else {
        r := AddCard(m);
      }
      if r.Success() {
        LegalApplicable(s, m);
        CommitValid(s, m);
        CommitBookkeeping(s, m);
        ghost var t := Commit(s, m);
        assert t.g == cells && t.moves == moves + [m];
        Record(m, t);
      }
    }

    /** The bookkeeping of `make_move` after a legal move: the move is appended, becomes
        the last move, and is counted. */
    method Record(m: Move, ghost t: Rules.State)
      requires Coupled() && ValidState(t)
      requires t == Rules.State(cells, moves + [m], numMoves + 1, Some(m))
      modifies this
      ensures Valid() && State() == t
      ensures grid == old(grid)
    {
      moves := moves + [m];
      lastMoved := Some(m);
      numMoves := numMoves + 1;
    }

    // -------------------------------------------------------------------
    // Win detection (board.py `_win_*`, `is_winning_board`)

    /** One line of a scan: the running counters from the first cell, stopping at the
        first cell where a counter reaches 4. */
    method ScanLine(l: Line) returns (h: Option<Result>)
      requires Coupled() && LineInBoard(l)
      ensures h == MapWin(ScanTiles(LineTiles(cells, l)))
    {
      ghost var ts := LineTiles(cells, l);
      var c := Zero;
      var k := 0;
      while k < l.len
        invariant 0 <= k <= l.len
        invariant c == Counts(ts[..k]) && ScanTiles(ts[..k]).None?
      {
        var (x, y) := CellOf(l, k);
        assert ts[..k + 1][..k] == ts[..k];
        c := CountTile(grid[x, y], c);
        var result := WinResult(c);
        if result.Success() {
          ScanPrefixStable(ts, k + 1);
          return Some(result);
        }
        k := k + 1;
      }
      assert ts[..k] == ts;
      h := None;
    }

    /** The lines of one block in order; the first that stops wins. */
    method ScanLines(lines: seq<Line>) returns (r: Option<Result>)
      requires Coupled() && AllInBoard(lines)
      ensures r == MapWin(FirstHit(cells, lines))
    {
      for i := 0 to |lines|
        invariant AllInBoard(lines[..i]) && FirstHit(cells, lines[..i]).None?
      {
        FirstHitPrefix(cells, lines, i);
        r := ScanLine(lines[i]);
        if r.Some? {
          return;
        }
      }
      assert lines[..|lines|] == lines;
      r := None;
    }

    /** `_win_diagonal`: up-right diagonals from row 0, then from column 0; up-left
        diagonals from row 0, then from column 7. */
    method WinDiagonal() returns (r: Option<Result>)
      requires Coupled()
      ensures AllInBoard(DiagonalLines()) && r == MapWin(FirstHit(cells, DiagonalLines()))
    {
      AllLinesInBoard();
      var g := cells;
      var a, b, c, d := UpRightFromFloor(), UpRightFromLeft(), UpLeftFromFloor(), UpLeftFromRight();
      FirstHitAppend(g, a, b);
      FirstHitAppend(g, a + b, c);
      FirstHitAppend(g, a + b + c, d);
      r := ScanLines(a);
      if r.Some? { return; }
      r := ScanLines(b);
      if r.Some? { return; }
      r := ScanLines(c);
      if r.Some? { return; }
      r := ScanLines(d);
    }

    /** `_win_horizontal`: every row from the left. */
    method WinHorizontal() returns (r: Option<Result>)
      requires Coupled()
      ensures AllInBoard(RowLines()) && r == MapWin(FirstHit(cells, RowLines()))
    {
      AllLinesInBoard();
      r := ScanLines(RowLines());
    }

    /** `_win_vertical`: every column from the floor. */
    method WinVertical() returns (r: Option<Result>)
      requires Coupled()
      ensures AllInBoard(ColumnLines()) && r == MapWin(FirstHit(cells, ColumnLines()))
    {
      AllLinesInBoard();
      r := ScanLines(ColumnLines());
    }

    /** `is_winning_board`: a draw from 60 moves on, else the first winning line of the
        diagonal, horizontal and vertical scans; None is the source's `False`. */
    method IsWinningBoard() returns (r: Option<Result>)
      requires Coupled()
      ensures r == Winning(cells, numMoves)
    {
      if numMoves >= DrawMoves {
        return Some(DrawResult);
      }
      AllLinesInBoard();
      var g := cells;
      FirstHitAppend(g, DiagonalLines(), RowLines());
      FirstHitAppend(g, DiagonalLines() + RowLines(), ColumnLines());
      r := WinDiagonal();
      if r.None? {
        r := WinHorizontal();
        if r.None? {
          r := WinVertical();
        }
      }
    }

    // -------------------------------------------------------------------
    // Generation (board.py `board_lookup` .. `possible_moves`)

    /** `board_lookup`: the forecast value of a cell, else the board's tile. */
    function BoardLookup(cp: Changes, x: int, y: int): (t: Tile)
      requires Coupled() && InBounds(x, y)
      reads this, grid
      ensures t == Overlay.Lookup(cells, cp, x, y)
    {
      if (x, y) in cp then cp[(x, y)] else grid[x, y]
    }

    /** `_max_height_for_x`: the first row whose forecast cell is empty, or 12. */
    method MaxHeightForX(x: int, cp: Changes) returns (h: int)
      requires Coupled() && 0 <= x < MaxX
      ensures h == Height(cells, cp, x)
    {
      for y := 0 to MaxY
        invariant forall b :: 0 <= b < y ==> Lookup(cells, cp, x, b) != Empty
      {
        if BoardLookup(cp, x, y) == Empty {
          HeightUnique(cells, cp, x, y);
          return y;
        }
      }
      HeightUnique(cells, cp, x, MaxY);
      h := MaxY;
    }

    /** One column of the loop shared by `_generate_add_moves` and
        `_generate_recycle_moves`: the vertical batch when a vertical card fits, the
        horizontal batch when the next column has the same height. */
    method ColumnAt(x: int, cp: Changes, kind: Kind) returns (col: seq<Move>)
      requires Coupled() && 0 <= x < MaxX
      ensures col == ColumnMoves(cells, cp, kind, x)
    {
      var y := MaxHeightForX(x, cp);
      var vertical := if y < MaxY - 1 then Batch(kind, Verticals, x, y) else [];
      var horizontal := [];
      if x < MaxX - 1 && MaxY > y {
        var y' := MaxHeightForX(x + 1, cp);
        if y == y' {
          horizontal := Batch(kind, Horizontals, x, y);
        }
      }
      col := vertical + horizontal;
    }

    /** The column loop: every column from left to right. */
    method GenerateDestinations(cp: Changes, kind: Kind) returns (out: seq<Move>)
      requires Coupled()
      ensures out == Destinations(cells, cp, kind)
    {
      ghost var g := cells;
      out := [];
      for x := 0 to MaxX
        invariant out == DestinationsTo(g, cp, kind, x)
      {
        var col := ColumnAt(x, cp, kind);
        out := out + col;
      }
    }

    /** `_can_recycle_move`, with None for the IndexError of a read past the board. */
    method CanRecycleMove(m: Move, cp: Changes) returns (r: Option<bool>)
      requires Coupled()
      ensures r == Overlay.CanRecycleMove(cells, cp, m)
    {
      if m.placement % 2 == 1 {
        var (x, y) := (m.x, m.y + 2);
        if (x, y) in cp {
          r := Some(cp[(x, y)] == Empty);
        } else if PyReadable(x, y) {
          r := Some(PyRead(x, y) == Empty);
        } else {
          r := None;
        }
      } else {
        var (x, y) := (m.x, m.y + 1);
        if !PyReadable(x, y) {
          return None;
        }
        if PyRead(x, y) != Empty {
          return Some(false);
        }
        if !PyReadable(x + 1, y) {
          return None;
        }
        r := Some(PyRead(x + 1, y) == Empty);
      }
    }

    /** `_generate_recycle_moves`: the recyclable cards of `(moves + forecast)[:-1]`, then
        for each the destinations with its two cells blanked in a copy of the overlay. */
    method GenerateRecycleMoves(forecast: seq<Move>, cp: Changes) returns (r: Option<seq<Move>>)
      requires Coupled()
      ensures r == RecycleMoves(cells, cp, moves, forecast)
    {
      ghost var g := cells;
      var all := moves + forecast;
      var pool := if all == [] then [] else all[..|all| - 1];
      var recyclable := [];
      for i := 0 to |pool|
        invariant Recyclable(g, cp, pool[..i]) == Some(recyclable)
      {
        var ok := CanRecycleMove(pool[i], cp);
        RecyclableStep(g, cp, pool, i, recyclable, ok);
        if ok.None? {
          return None;
        }
        if ok.value {
          recyclable := recyclable + [pool[i]];
        }
      }
      assert pool[..|pool|] == pool;
      var out := [];
      for j := 0 to |recyclable|
        invariant out == RecycleDestinations(g, cp, recyclable[..j])
      {
        var c := recyclable[j];
        var (oldPos1, oldPos2) := OldCells(c);
        var cp' := cp[oldPos1 := Empty][oldPos2 := Empty];
        var dests := GenerateDestinations(cp', RecycleKind(oldPos1, oldPos2));
        RecycleDestinationsStep(g, cp, recyclable, j, out, oldPos1, oldPos2);
        out := out + dests;
      }
      assert recyclable[..|recyclable|] == recyclable;
      r := Some(out);
    }

    /** `_generate_moves`: Adds while fewer than 24 cards would be placed, else Recycles. */
    method GenerateMoves(forecast: seq<Move>) returns (r: Option<seq<Move>>)
      requires Coupled()
      ensures r == Overlay.GenerateMoves(cells, moves, numMoves, forecast)
    {
      var cp := MovesToPositions(forecast);
      if numMoves + |forecast| < MaxCards {
        var ms := GenerateDestinations(cp, AddKind);
        r := Some(ms);
      } else {
        r := GenerateRecycleMoves(forecast, cp);
      }
    }

    /** `possible_moves`: below level 2 a mapping from each generated move to the tree
        after forecasting it; at level 2 the generated list. */
    method PossibleMoves(forecast: seq<Move>, level: int) returns (r: Option<Tree>)
      requires Coupled()
      ensures r == Overlay.PossibleMoves(cells, moves, numMoves, forecast, level)
      decreases if level < MaxDepth - 1 then MaxDepth - 1 - level else 0, 2
    {
      var gen := GenerateMoves(forecast);
      if gen.None? {
        return None;
      }
      if level >= MaxDepth - 1 {
        return Some(Leaf(gen.value));
      }
      r := Subtrees(forecast, level, gen.value);
    }

    /** The dict comprehension of `possible_moves`: each move in turn is forecast and its
        subtree stored under it. */
    method Subtrees(forecast: seq<Move>, level: int, ms: seq<Move>) returns (r: Option<Tree>)
      requires Coupled() && level < MaxDepth - 1
      ensures r == Children(cells, moves, numMoves, forecast, level, ms, [])
      decreases MaxDepth - 1 - level, 1
    {
      ghost var g := cells;
      var acc := [];
      for i := 0 to |ms|
        invariant Children(g, moves, numMoves, forecast, level, ms, []) ==
                  Children(g, moves, numMoves, forecast, level, ms[i..], acc)
      {
        var sub := Subtree(forecast, level, ms, i, acc);
        if sub.None? {
          return None;
        }
        acc := Put(acc, ms[i], sub.value);
      }
      assert ms[|ms|..] == [];
      r := Some(Node(acc));
    }

    /** One entry of the comprehension: the subtree one ply deeper after forecasting `ms[i]`. */
    method Subtree(forecast: seq<Move>, level: int, ms: seq<Move>, i: int, acc: seq<(Move, Tree)>) returns (sub: Option<Tree>)
      requires Coupled() && level < MaxDepth - 1 && 0 <= i < |ms|
      ensures sub.None? ==> Children(cells, moves, numMoves, forecast, level, ms[i..], acc).None?
      ensures sub.Some? ==> Children(cells, moves, numMoves, forecast, level, ms[i..], acc) ==
                            Children(cells, moves, numMoves, forecast, level, ms[i + 1..], Put(acc, ms[i], sub.value))
      decreases MaxDepth - 1 - level, 0
    {
      sub := PossibleMoves(forecast + [ms[i]], level + 1);
      ChildrenStep(cells, moves, numMoves, forecast, level, ms, i, acc, sub);
    }
  }
}
