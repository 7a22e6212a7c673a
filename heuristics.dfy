/** The naive evaluation (heuristics.py): every column is read from the floor up, through
    the forecast overlay, until its first empty cell, and each tile read adds its weight
    times a positional factor. */
module Heuristics {

  import opened Wrappers
  import opened Tiles
  import opened Moves
  import opened Overlay
  import Board

  /** The scoring function `_simple_count` takes; None where it raises. */
  type Scorer = (Tile, int, int) -> Option<real>

  /** `_NAIVE_WEIGHTS`; None is the KeyError of a tile the table does not list. */
  function NaiveWeight(t: Tile): (w: Option<real>)
    ensures w.Some? <==> CardTile(t)
    ensures w.Some? ==> (w.value < 0.0 <==> t.color == Red)
    ensures w.Some? ==> (t.fill == Full ==> -2.0 <= w.value <= 3.0) && (t.fill == Open ==> -1.5 <= w.value <= 1.0)
  {
    if t == RF then Some(-2.0)
    else if t == RO then Some(-1.5)
    else if t == WF then Some(3.0)
    else if t == WO then Some(1.0)
    else None
  }

  /** The positional factor of `naive_count`: 1 at the bottom-left cell, 118 at the top-right. */
  function PositionFactor(x: int, y: int): (f: int)
    ensures InBounds(x, y) ==> 1 <= f <= 118
  {
    y * 10 + x + 1
  }

  /** No two cells of the board share a positional factor. */
  lemma PositionFactorInjective(x: int, y: int, x': int, y': int)
    requires InBounds(x, y) && InBounds(x', y') && PositionFactor(x, y) == PositionFactor(x', y')
    ensures x == x' && y == y'
  {
  }

  /** `naive_count`: the tile's weight times the positional factor; a red tile on the
      board lowers the score and a white one raises it. */
  function NaiveCount(t: Tile, x: int, y: int): (r: Option<real>)
    ensures r.Some? <==> CardTile(t)
    ensures r.Some? && InBounds(x, y) ==> (r.value < 0.0 <==> t.color == Red)
    ensures r.Some? && InBounds(x, y) ==> -236.0 <= r.value <= 354.0
  {
    match NaiveWeight(t)
    case None => None
    case Some(w) => Some(w * PositionFactor(x, y) as real)
  }

  // ---------------------------------------------------------------------
  // The score `_simple_count` computes

  /** Addition that keeps a raise. */
  function Plus(a: Option<real>, b: Option<real>): (r: Option<real>)
    ensures r.Some? <==> a.Some? && b.Some?
  {
    if a.Some? && b.Some? then Some(a.value + b.value) else None
  }

  /** The scores of the lowest `n` cells of column `x`. */
  function ColumnSum(g: Grid, cp: Changes, fn: Scorer, x: int, n: int): Option<real>
    requires 0 <= x < MaxX && 0 <= n <= MaxY
  {
    if n == 0 then Some(0.0)
    else Plus(ColumnSum(g, cp, fn, x, n - 1), fn(Lookup(g, cp, x, n - 1), x, n - 1))
  }

  /** Column `x` counts the cells below its first empty cell. */
  function ColumnScore(g: Grid, cp: Changes, fn: Scorer, x: int): Option<real>
    requires 0 <= x < MaxX
  {
    ColumnSum(g, cp, fn, x, Height(g, cp, x))
  }

  /** The columns left of `k`. */
  function ScoreTo(g: Grid, cp: Changes, fn: Scorer, k: int): Option<real>
    requires 0 <= k <= MaxX
  {
    if k == 0 then Some(0.0) else Plus(ScoreTo(g, cp, fn, k - 1), ColumnScore(g, cp, fn, k - 1))
  }

  /** The whole board. */
  function Score(g: Grid, cp: Changes, fn: Scorer): Option<real>
  {
    ScoreTo(g, cp, fn, MaxX)
  }

  /** A raise in the first columns is a raise of the whole count. */
  lemma {:induction false} ScoreToRaises(g: Grid, cp: Changes, fn: Scorer, k: int, k': int)
    requires 0 <= k <= k' <= MaxX && ScoreTo(g, cp, fn, k).None?
    ensures ScoreTo(g, cp, fn, k').None?
    decreases k' - k
  {
    if k < k' {
      ScoreToRaises(g, cp, fn, k, k' - 1);
      assert ScoreTo(g, cp, fn, k') == Plus(ScoreTo(g, cp, fn, k' - 1), ColumnScore(g, cp, fn, k' - 1));
    }
  }

  /** A column that raises part-way raises as a whole. */
  lemma {:induction false} ColumnSumRaises(g: Grid, cp: Changes, fn: Scorer, x: int, n: int, n': int)
    requires 0 <= x < MaxX && 0 <= n <= n' <= MaxY && ColumnSum(g, cp, fn, x, n).None?
    ensures ColumnSum(g, cp, fn, x, n').None?
    decreases n' - n
  {
    if n < n' {
      ColumnSumRaises(g, cp, fn, x, n, n' - 1);
    }
  }

  // ---------------------------------------------------------------------
  // `_simple_count` and `naive`

  /** `_simple_count`: the column loop, each column read by the row loop of `CountColumn`;
      None when `fn` raises. The board is only read. */
  method SimpleCount(board: Board.GameBoard, moves: seq<Move>, fn: Scorer) returns (e: Option<real>)
    requires board.Coupled()
    ensures e == Score(board.cells, MovesToPositions(moves), fn)
  {
    var cp := MovesToPositions(moves);
    ghost var g := board.cells;
    var sum := 0.0;
    for x := 0 to MaxX
      invariant ScoreTo(g, cp, fn, x) == Some(sum)
    {
      var col := CountColumn(board, cp, fn, x, sum);
      if col.None? {
        ScoreToRaises(g, cp, fn, x + 1, MaxX);
        return None;
      }
      sum := col.value;
    }
    e := Some(sum);
  }

  /** The row loop of `_simple_count` in column `x`, adding to the running score `e0`: it
      leaves the column at its first empty cell. */
  method CountColumn(board: Board.GameBoard, cp: Changes, fn: Scorer, x: int, e0: real) returns (e: Option<real>)
    requires board.Coupled() && 0 <= x < MaxX
    ensures e == Plus(Some(e0), ColumnScore(board.cells, cp, fn, x))
  {
    ghost var g := board.cells;
    var sum := e0;
    var y := 0;
    while y < MaxY
      invariant 0 <= y <= MaxY
      invariant forall b :: 0 <= b < y ==> Lookup(g, cp, x, b) != Empty
      invariant Plus(Some(e0), ColumnSum(g, cp, fn, x, y)) == Some(sum)
    {
      var tile := board.BoardLookup(cp, x, y);
      if tile == Empty {
        break;
      }
      var v := fn(tile, x, y);
      CountStep(g, cp, fn, x, y, e0, sum, v);
      if v.None? {
        return None;
      }
      sum := sum + v.value;
      y := y + 1;
    }
    HeightUnique(g, cp, x, y);
    e := Some(sum);
  }

  /** One cell of the row loop: a raise ends the column's count, otherwise the count grows
      by the cell's value. */
  lemma CountStep(g: Grid, cp: Changes, fn: Scorer, x: int, y: int, e0: real, sum: real, v: Option<real>)
    requires 0 <= x < MaxX && 0 <= y < MaxY
    requires forall b :: 0 <= b <= y ==> Lookup(g, cp, x, b) != Empty
    requires Plus(Some(e0), ColumnSum(g, cp, fn, x, y)) == Some(sum)
    requires v == fn(Lookup(g, cp, x, y), x, y)
    ensures v.None? ==> ColumnScore(g, cp, fn, x).None?
    ensures v.Some? ==> Plus(Some(e0), ColumnSum(g, cp, fn, x, y + 1)) == Some(sum + v.value)
  {
    if v.None? {
      assert ColumnSum(g, cp, fn, x, y + 1).None?;
      ColumnSumRaises(g, cp, fn, x, y + 1, Height(g, cp, x));
    }
  }

  /** `naive`: `_simple_count` with `naive_count`. */
  method Naive(board: Board.GameBoard, moves: seq<Move>) returns (e: Option<real>)
    requires board.Coupled()
    ensures e == Score(board.cells, MovesToPositions(moves), NaiveCount)
  {
    e := SimpleCount(board, moves, NaiveCount);
  }

  // ---------------------------------------------------------------------
  // Properties of the score

  /** Both views read the same stack in column `x`: the same height, and the same tiles
      below it. */
  predicate SameStack(g1: Grid, cp1: Changes, g2: Grid, cp2: Changes, x: int)
    requires 0 <= x < MaxX
  {
    Height(g1, cp1, x) == Height(g2, cp2, x)
    && forall b :: 0 <= b < Height(g1, cp1, x) ==> Lookup(g1, cp1, x, b) == Lookup(g2, cp2, x, b)
  }

  lemma {:induction false} ColumnSumAgree(g1: Grid, cp1: Changes, g2: Grid, cp2: Changes, fn: Scorer, x: int, n: int)
    requires 0 <= x < MaxX && 0 <= n <= MaxY
    requires forall b :: 0 <= b < n ==> Lookup(g1, cp1, x, b) == Lookup(g2, cp2, x, b)
    ensures ColumnSum(g1, cp1, fn, x, n) == ColumnSum(g2, cp2, fn, x, n)
  {
    if n > 0 {
      ColumnSumAgree(g1, cp1, g2, cp2, fn, x, n - 1);
    }
  }

  /** A column's contribution depends on its stack alone. */
  lemma ColumnScoreOfStack(g1: Grid, cp1: Changes, g2: Grid, cp2: Changes, fn: Scorer, x: int)
    requires 0 <= x < MaxX && SameStack(g1, cp1, g2, cp2, x)
    ensures ColumnScore(g1, cp1, fn, x) == ColumnScore(g2, cp2, fn, x)
  {
    ColumnSumAgree(g1, cp1, g2, cp2, fn, x, Height(g1, cp1, x));
  }

  /** Two views that agree on every cell of column `x` read the same stack there. */
  lemma SameColumnSameStack(g1: Grid, cp1: Changes, g2: Grid, cp2: Changes, x: int)
    requires 0 <= x < MaxX
    requires forall b :: 0 <= b < MaxY ==> Lookup(g1, cp1, x, b) == Lookup(g2, cp2, x, b)
    ensures SameStack(g1, cp1, g2, cp2, x)
  {
    HeightUnique(g2, cp2, x, Height(g1, cp1, x));
  }

  lemma {:induction false} ScoreToOfStacks(g1: Grid, cp1: Changes, g2: Grid, cp2: Changes, fn: Scorer, k: int)
    requires 0 <= k <= MaxX
    requires forall x :: 0 <= x < k ==> SameStack(g1, cp1, g2, cp2, x)
    ensures ScoreTo(g1, cp1, fn, k) == ScoreTo(g2, cp2, fn, k)
  {
    if k > 0 {
      ScoreToOfStacks(g1, cp1, g2, cp2, fn, k - 1);
      ColumnScoreOfStack(g1, cp1, g2, cp2, fn, k - 1);
    }
  }

  /** The score depends only on the stacks the columns hold. */
  lemma ScoreOfStacks(g1: Grid, cp1: Changes, g2: Grid, cp2: Changes, fn: Scorer)
    requires forall x :: 0 <= x < MaxX ==> SameStack(g1, cp1, g2, cp2, x)
    ensures Score(g1, cp1, fn) == Score(g2, cp2, fn)
  {
    ScoreToOfStacks(g1, cp1, g2, cp2, fn, MaxX);
  }

  /** On the empty board with no forecast every column is empty, so the score is 0. */
  lemma EmptyBoardScoresZero(fn: Scorer)
    ensures Score(EmptyGrid(), map[], fn) == Some(0.0)
  {
    forall x | 0 <= x < MaxX ensures ColumnScore(EmptyGrid(), map[], fn, x) == Some(0.0) {
      assert Lookup(EmptyGrid(), map[], x, 0) == Empty;
      HeightUnique(EmptyGrid(), map[], x, 0);
    }
    ScoreToZero(fn, MaxX);
  }

  lemma {:induction false} ScoreToZero(fn: Scorer, k: int)
    requires 0 <= k <= MaxX
    requires forall x :: 0 <= x < MaxX ==> ColumnScore(EmptyGrid(), map[], fn, x) == Some(0.0)
    ensures ScoreTo(EmptyGrid(), map[], fn, k) == Some(0.0)
  {
    if k > 0 {
      ScoreToZero(fn, k - 1);
    }
  }

  /** A tile written above an empty cell of its column changes nothing. */
  lemma AboveGapIgnored(g: Grid, cp: Changes, fn: Scorer, x: int, y: int, y': int, t: Tile)
    requires InBounds(x, y) && y < y' < MaxY && Lookup(g, cp, x, y) == Empty
    ensures Score(g, cp[(x, y') := t], fn) == Score(g, cp, fn)
  {
    var cp' := cp[(x, y') := t];
    forall c | 0 <= c < MaxX ensures SameStack(g, cp', g, cp, c) {
      if c == x {
        var h := Height(g, cp, x);
        assert h <= y;
        assert Lookup(g, cp', x, h) == Empty;
        HeightUnique(g, cp', x, h);
      } else {
        SameColumnSameStack(g, cp', g, cp, c);
      }
    }
    ScoreOfStacks(g, cp', g, cp, fn);
  }

  /** Counting through the overlay is counting the board with the overlay written over it. */
  lemma OverlayScore(g: Grid, cp: Changes, fn: Scorer)
    ensures Score(g, cp, fn) == Score(Overlaid(g, cp), map[], fn)
  {
    forall x | 0 <= x < MaxX ensures SameStack(g, cp, Overlaid(g, cp), map[], x) {
      forall b | 0 <= b < MaxY ensures Lookup(g, cp, x, b) == Lookup(Overlaid(g, cp), map[], x, b) {
        LookupOverlaid(g, cp, x, b);
        LookupOverlaid(Overlaid(g, cp), map[], x, b);
      }
      SameColumnSameStack(g, cp, Overlaid(g, cp), map[], x);
    }
    ScoreOfStacks(g, cp, Overlaid(g, cp), map[], fn);
  }

  /** Column `x` enters the score only through its own contribution: two views that agree
      on every other column differ by the difference of their column-`x` scores. */
  lemma {:induction false} ColumnIndependent(g1: Grid, cp1: Changes, g2: Grid, cp2: Changes, fn: Scorer, x: int, k: int)
    requires 0 <= x < MaxX && 0 <= k <= MaxX
    requires forall c :: 0 <= c < MaxX && c != x ==> SameStack(g1, cp1, g2, cp2, c)
    requires ScoreTo(g1, cp1, fn, k).Some? && ScoreTo(g2, cp2, fn, k).Some?
    ensures x < k ==> ColumnScore(g1, cp1, fn, x).Some? && ColumnScore(g2, cp2, fn, x).Some?
    ensures ScoreTo(g1, cp1, fn, k).value - (if x < k then ColumnScore(g1, cp1, fn, x).value else 0.0)
         == ScoreTo(g2, cp2, fn, k).value - (if x < k then ColumnScore(g2, cp2, fn, x).value else 0.0)
  {
    if k > 0 {
      var s1, c1 := ScoreTo(g1, cp1, fn, k - 1), ColumnScore(g1, cp1, fn, k - 1);
      var s2, c2 := ScoreTo(g2, cp2, fn, k - 1), ColumnScore(g2, cp2, fn, k - 1);
      assert ScoreTo(g1, cp1, fn, k) == Plus(s1, c1) && ScoreTo(g2, cp2, fn, k) == Plus(s2, c2);
      assert s1.Some? && c1.Some? && s2.Some? && c2.Some?;
      ColumnIndependent(g1, cp1, g2, cp2, fn, x, k - 1);
      if k - 1 != x {
        ColumnScoreOfStack(g1, cp1, g2, cp2, fn, k - 1);
        assert c1 == c2;
        if x < k - 1 {
          var x1, x2 := ColumnScore(g1, cp1, fn, x).value, ColumnScore(g2, cp2, fn, x).value;
          assert s1.value - x1 == s2.value - x2;
        } else {
          assert s1.value == s2.value;
        }
      } else {
        assert s1.value == s2.value;
      }
    }
  }

  // ---------------------------------------------------------------------
  // `naive` does not raise on a reachable board

  /** Every tile the overlay of a list of moves writes is empty or a card tile. */
  lemma {:induction false} OverlayTiles(ms: seq<Move>)
    ensures forall k :: k in MovesToPositions(ms) ==> MovesToPositions(ms)[k] == Empty || CardTile(MovesToPositions(ms)[k])
  {
    if ms != [] {
      OverlayTiles(ms[..|ms| - 1]);
      var m := ms[|ms| - 1];
      CardShape(m.placement, 0, 0);
      WriteTiles(MovesToPositions(ms[..|ms| - 1]), Entries(m));
    }
  }

  lemma {:induction false} WriteTiles(cp: Changes, es: seq<(Pos, Tile)>)
    requires forall k :: k in cp ==> cp[k] == Empty || CardTile(cp[k])
    requires forall i :: 0 <= i < |es| ==> es[i].1 == Empty || CardTile(es[i].1)
    ensures forall k :: k in Write(cp, es) ==> Write(cp, es)[k] == Empty || CardTile(Write(cp, es)[k])
    decreases |es|
  {
    if es != [] {
      assert forall i :: 0 <= i < |es[1..]| ==> es[1..][i] == es[i + 1];
      WriteTiles(cp[es[0].0 := es[0].1], es[1..]);
    }
  }

  lemma {:induction false} NaiveColumnDefined(g: Grid, cp: Changes, x: int, n: int)
    requires 0 <= x < MaxX && 0 <= n <= MaxY
    requires forall b :: 0 <= b < n ==> CardTile(Lookup(g, cp, x, b))
    ensures ColumnSum(g, cp, NaiveCount, x, n).Some?
  {
    if n > 0 {
      NaiveColumnDefined(g, cp, x, n - 1);
    }
  }

  lemma {:induction false} NaiveScoreToDefined(g: Grid, cp: Changes, k: int)
    requires 0 <= k <= MaxX
    requires forall x :: 0 <= x < MaxX ==> ColumnScore(g, cp, NaiveCount, x).Some?
    ensures ScoreTo(g, cp, NaiveCount, k).Some?
  {
    if k > 0 {
      NaiveScoreToDefined(g, cp, k - 1);
    }
  }

  /** On a well-formed board, whatever the forecast, `naive` reads only tiles its weight
      table lists, so it never raises. */
  lemma NaiveDefined(g: Grid, ms: seq<Move>)
    requires WellFormed(g)
    ensures Score(g, MovesToPositions(ms), NaiveCount).Some?
  {
    var cp := MovesToPositions(ms);
    OverlayTiles(ms);
    forall x | 0 <= x < MaxX ensures ColumnScore(g, cp, NaiveCount, x).Some? {
      forall b | 0 <= b < Height(g, cp, x) ensures CardTile(Lookup(g, cp, x, b)) {
        assert Lookup(g, cp, x, b) != Empty;
      }
      NaiveColumnDefined(g, cp, x, Height(g, cp, x));
    }
    NaiveScoreToDefined(g, cp, MaxX);
  }
}
