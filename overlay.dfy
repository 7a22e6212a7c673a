/** Move generation against a read-only overlay of forecast moves: `moves_to_positions`,
    `board_lookup`, the column heights, the Add and Recycle generators and the two-ply
    move tree of `possible_moves`. Everything here is a function of the board value: the
    generators never change the board. */
module Overlay {

  import opened Wrappers
  import opened Tiles
  import opened Moves
  import opened Rules
  import opened Dicts

  const MaxDepth: int := 3

  /** The forecast overlay: cell -> tile. */
  type Changes = map<Pos, Tile>

  // ---------------------------------------------------------------------
  // moves_to_positions (board.py KEY_GEN / VAL_GEN)

  /** The overlay entries of one move, in KEY_GEN order: the anchor and the second cell
      with the card's tiles, then for a Recycle its two old cells, empty. */
  function Entries(m: Move): (es: seq<(Pos, Tile)>)
    ensures |es| == if m.Recycle? then 4 else 2
  {
    var placed := [(m.Anchor(), FirstTile(m.placement)), (m.Second(), SecondTile(m.placement))];
    if m.Recycle? then placed + [(m.old1, Empty), (m.old2, Empty)] else placed
  }

  /** Writes entries left to right; a later entry for the same cell wins. */
  function Write(cp: Changes, es: seq<(Pos, Tile)>): Changes
    decreases |es|
  {
    if es == [] then cp else Write(cp[es[0].0 := es[0].1], es[1..])
  }

  /** The overlay of a list of forecast moves, built in list order. */
  function MovesToPositions(ms: seq<Move>): Changes
  {
    if ms == [] then map[] else Write(MovesToPositions(ms[..|ms| - 1]), Entries(ms[|ms| - 1]))
  }

  /** Cells no entry mentions keep their overlay value. */
  lemma {:induction false} WriteUntouched(cp: Changes, es: seq<(Pos, Tile)>, k: Pos)
    requires !HasKey(es, k)
    ensures k in Write(cp, es) <==> k in cp
    ensures k in cp ==> Write(cp, es)[k] == cp[k]
    decreases |es|
  {
    if es != [] {
      assert forall i :: 0 <= i < |es[1..]| ==> es[1..][i] == es[i + 1];
      WriteUntouched(cp[es[0].0 := es[0].1], es[1..], k);
    }
  }

  /** The last entry for a cell decides its overlay value. */
  lemma {:induction false} WriteLast(cp: Changes, es: seq<(Pos, Tile)>, i: int)
    requires 0 <= i < |es|
    requires forall j :: i < j < |es| ==> es[j].0 != es[i].0
    ensures es[i].0 in Write(cp, es) && Write(cp, es)[es[i].0] == es[i].1
    decreases |es|
  {
    var cp' := cp[es[0].0 := es[0].1];
    if i == 0 {
      assert forall j :: 0 <= j < |es[1..]| ==> es[1..][j] == es[j + 1];
      WriteUntouched(cp', es[1..], es[0].0);
    } else {
      WriteLast(cp', es[1..], i - 1);
    }
  }

  /** The keys a move writes. */
  predicate Touches(m: Move, k: Pos)
  {
    k == m.Anchor() || k == m.Second() || (m.Recycle? && (k == m.old1 || k == m.old2))
  }

  /** Later forecast moves override earlier ones: after `ms + [m]` the cells of `m` show
      its card, its old cells (for a Recycle) show empty, and blanking wins over the new
      card where the two meet; every other cell keeps the overlay of `ms`. */
  lemma OverlayLastMove(ms: seq<Move>, m: Move, k: Pos)
    ensures var before := MovesToPositions(ms);
            var after := MovesToPositions(ms + [m]);
            && (Touches(m, k) ==> k in after)
            && (m.Recycle? && (k == m.old1 || k == m.old2) ==> after[k] == Empty)
            && (k == m.Anchor() && !(m.Recycle? && (k == m.old1 || k == m.old2)) ==>
                  after[k] == FirstTile(m.placement))
            && (k == m.Second() && !(m.Recycle? && (k == m.old1 || k == m.old2)) ==>
                  after[k] == SecondTile(m.placement))
            && (!Touches(m, k) ==> (k in after <==> k in before) && (k in before ==> after[k] == before[k]))
  {
    var before := MovesToPositions(ms);
    var es := Entries(m);
    assert (ms + [m])[..|ms + [m]| - 1] == ms;
    assert MovesToPositions(ms + [m]) == Write(before, es);
    CardShape(m.placement, 0, 0);
    assert m.Anchor() != m.Second();
    if m.Recycle? {
      if k == m.old2 { WriteLast(before, es, 3); }
      else if k == m.old1 { WriteLast(before, es, 2); }
      else if k == m.Second() { WriteLast(before, es, 1); }
      else if k == m.Anchor() { WriteLast(before, es, 0); }
    } else {
      if k == m.Second() { WriteLast(before, es, 1); }
      else if k == m.Anchor() { WriteLast(before, es, 0); }
    }
    if !Touches(m, k) {
      assert !HasKey(es, k);
      WriteUntouched(before, es, k);
    }
  }

  // ---------------------------------------------------------------------
  // board_lookup

  /** A cell as the forecast sees it: the overlay value if the overlay has the cell,
      otherwise the board's tile. (Every overlay value is a non-empty tuple in the
      source, so `get(...) or board[x][y]` falls back only on a missing key.) */
  function Lookup(g: Grid, cp: Changes, x: int, y: int): Tile
    requires InBounds(x, y)
  {
    if (x, y) in cp then cp[(x, y)] else g[x][y]
  }

  /** `board_lookup` at any coordinates: None when the board read raises IndexError. */
  function PyLookup(g: Grid, cp: Changes, x: int, y: int): Option<Tile>
  {
    if (x, y) in cp then Some(cp[(x, y)])
    else if PyReadable(x, y) then Some(PyCell(g, x, y))
    else None
  }

  /** The board with the overlay written over it. */
  function Overlaid(g: Grid, cp: Changes): Grid
  {
    seq(MaxX, a requires 0 <= a < MaxX =>
      seq(MaxY, b requires 0 <= b < MaxY => if (a, b) in cp then cp[(a, b)] else g[a][b]))
  }

  /** A lookup reads the overlaid board; with no forecast it reads the board itself. */
  lemma LookupOverlaid(g: Grid, cp: Changes, x: int, y: int)
    requires InBounds(x, y)
    ensures Lookup(g, cp, x, y) == Overlaid(g, cp)[x][y]
    ensures PyLookup(g, cp, x, y) == Some(Lookup(g, cp, x, y))
    ensures Lookup(g, map[], x, y) == g[x][y]
    ensures Overlaid(g, map[]) == g
  {
    assert forall a | 0 <= a < MaxX :: Overlaid(g, map[])[a] == g[a];
  }

  // ---------------------------------------------------------------------
  // _max_height_for_x

  /** The lowest empty row at or above `y` in column `x`, or 12. */
  function HeightFrom(g: Grid, cp: Changes, x: int, y: int): (h: int)
    requires 0 <= x < MaxX && 0 <= y <= MaxY
    ensures y <= h <= MaxY
    ensures forall b :: y <= b < h ==> Lookup(g, cp, x, b) != Empty
    ensures h < MaxY ==> Lookup(g, cp, x, h) == Empty
    decreases MaxY - y
  {
    if y == MaxY then MaxY
    else if Lookup(g, cp, x, y) == Empty then y
    else HeightFrom(g, cp, x, y + 1)
  }

  /** The row of the first empty cell of column `x` under the overlay, or 12 when full. */
  function Height(g: Grid, cp: Changes, x: int): (h: int)
    requires 0 <= x < MaxX
    ensures 0 <= h <= MaxY
    ensures forall b :: 0 <= b < h ==> Lookup(g, cp, x, b) != Empty
    ensures h < MaxY ==> Lookup(g, cp, x, h) == Empty
  {
    HeightFrom(g, cp, x, 0)
  }

  /** The height is the only row with an empty cell and no empty cell below it. */
  lemma HeightUnique(g: Grid, cp: Changes, x: int, y: int)
    requires 0 <= x < MaxX && 0 <= y <= MaxY
    requires y < MaxY ==> Lookup(g, cp, x, y) == Empty
    requires forall b :: 0 <= b < y ==> Lookup(g, cp, x, b) != Empty
    ensures Height(g, cp, x) == y
  {
  }

  // ---------------------------------------------------------------------
  // Destinations (the column loop of `_generate_add_moves` / `_generate_recycle_moves`)

  /** What the generator builds: Add moves, or Recycle moves of one lifted card. */
  datatype Kind = AddKind | RecycleKind(o1: Pos, o2: Pos)

  function Mk(kind: Kind, p: PlacementId, x: int, y: int): (m: Move)
    ensures m.placement == p && m.x == x && m.y == y
    ensures m.Add? <==> kind.AddKind?
    ensures kind.RecycleKind? ==> m.old1 == kind.o1 && m.old2 == kind.o2
  {
    match kind
    case AddKind => Add(p, x, y)
    case RecycleKind(o1, o2) => Recycle(p, x, y, o1, o2)
  }

  /** One batch of a column: the given placements, in order, at one cell. */
  function Batch(kind: Kind, ps: seq<PlacementId>, x: int, y: int): seq<Move>
  {
    seq(|ps|, i requires 0 <= i < |ps| => Mk(kind, ps[i], x, y))
  }

  lemma BatchMembers(kind: Kind, ps: seq<PlacementId>, x: int, y: int, m: Move)
    ensures m in Batch(kind, ps, x, y) <==> m.placement in ps && m.x == x && m.y == y && m == Mk(kind, m.placement, x, y)
  {
    if m.placement in ps && m.x == x && m.y == y && m == Mk(kind, m.placement, x, y) {
      var i :| 0 <= i < |ps| && ps[i] == m.placement;
      assert Batch(kind, ps, x, y)[i] == m;
    }
  }

  const Verticals: seq<PlacementId> := [2, 4, 6, 8]
  const Horizontals: seq<PlacementId> := [1, 3, 5, 7]

  lemma BatchParity(p: PlacementId)
    ensures p in Verticals <==> p % 2 == 0
    ensures p in Horizontals <==> p % 2 == 1
  {
  }

  /** The moves emitted for column `x`: the vertical placements 2, 4, 6, 8 on the column's
      height when it is below 11, then the horizontal placements 1, 3, 5, 7 when the next
      column has the same height below 12. */
  function ColumnMoves(g: Grid, cp: Changes, kind: Kind, x: int): seq<Move>
    requires 0 <= x < MaxX
  {
    var h := Height(g, cp, x);
    (if h < MaxY - 1 then Batch(kind, Verticals, x, h) else [])
    + (if x < MaxX - 1 && MaxY > h && h == Height(g, cp, x + 1) then Batch(kind, Horizontals, x, h) else [])
  }

  /** The destinations of columns `0 .. x - 1`, column by column. */
  function DestinationsTo(g: Grid, cp: Changes, kind: Kind, x: int): seq<Move>
    requires 0 <= x <= MaxX
  {
    if x == 0 then [] else DestinationsTo(g, cp, kind, x - 1) + ColumnMoves(g, cp, kind, x - 1)
  }

  /** All destinations, column by column in emission order. */
  function Destinations(g: Grid, cp: Changes, kind: Kind): seq<Move>
  {
    DestinationsTo(g, cp, kind, MaxX)
  }

  /** The condition under which the column loop emits a move. */
  predicate Emitted(g: Grid, cp: Changes, kind: Kind, m: Move)
  {
    && 0 <= m.x < MaxX
    && m == Mk(kind, m.placement, m.x, m.y)
    && m.y == Height(g, cp, m.x)
    && if m.placement % 2 == 0 then m.y < MaxY - 1
       else m.x < MaxX - 1 && m.y < MaxY && m.y == Height(g, cp, m.x + 1)
  }

  lemma ColumnMovesMembers(g: Grid, cp: Changes, kind: Kind, x: int, m: Move)
    requires 0 <= x < MaxX
    ensures m in ColumnMoves(g, cp, kind, x) <==> m.x == x && Emitted(g, cp, kind, m)
  {
    var h := Height(g, cp, x);
    BatchMembers(kind, Verticals, x, h, m);
    BatchMembers(kind, Horizontals, x, h, m);
    BatchParity(m.placement);
  }

  /** The column loop emits exactly the moves of `Emitted`. */
  lemma {:induction false} DestinationsMembers(g: Grid, cp: Changes, kind: Kind, x: int, m: Move)
    requires 0 <= x <= MaxX
    ensures m in DestinationsTo(g, cp, kind, x) <==> m.x < x && Emitted(g, cp, kind, m)
  {
    if x > 0 {
      var before, col := DestinationsTo(g, cp, kind, x - 1), ColumnMoves(g, cp, kind, x - 1);
      assert DestinationsTo(g, cp, kind, x) == before + col;
      ColumnMovesMembers(g, cp, kind, x - 1, m);
      DestinationsMembers(g, cp, kind, x - 1, m);
      if m.x == x - 1 {
        assert m !in before;
      } else {
        assert m !in col;
      }
    }
  }

  /** Every emitted move lies on the board, is of the generator's kind, and sits on the
      column's first empty cell under the overlay, supported below. */
  lemma EmittedShape(g: Grid, cp: Changes, kind: Kind, m: Move)
    requires Emitted(g, cp, kind, m)
    ensures m.InBoard()
    ensures m.Add? <==> kind.AddKind?
    ensures kind.RecycleKind? ==> m.old1 == kind.o1 && m.old2 == kind.o2
    ensures Lookup(g, cp, m.x, m.y) == Empty
    ensures m.y > 0 ==> Lookup(g, cp, m.x, m.y - 1) != Empty
    ensures m.placement % 2 == 1 ==>
      Lookup(g, cp, m.x + 1, m.y) == Empty && (m.y > 0 ==> Lookup(g, cp, m.x + 1, m.y - 1) != Empty)
  {
  }

  // ---------------------------------------------------------------------
  // Adds on a contiguous board with no forecast

  lemma {:induction false} EmptyAbove(g: Grid, x: int, y: int, y': int)
    requires Contiguous(g) && 0 <= x < MaxX && 0 <= y <= y' < MaxY && g[x][y] == Empty
    ensures g[x][y'] == Empty
    decreases y' - y
  {
    if y' > y {
      EmptyAbove(g, x, y, y' - 1);
    }
  }

  lemma {:induction false} FilledBelow(g: Grid, x: int, y: int, b: int)
    requires Contiguous(g) && 0 <= x < MaxX && 0 <= b <= y < MaxY && g[x][y] != Empty
    ensures g[x][b] != Empty
    decreases y - b
  {
    if b < y {
      FilledBelow(g, x, y - 1, b);
    }
  }

  /** On a board that satisfies the support invariant a cell is the column's height iff it
      is empty and stands on the floor or on a filled cell. */
  lemma HeightOnContiguous(g: Grid, x: int, y: int)
    requires Contiguous(g) && InBounds(x, y)
    ensures Height(g, map[], x) == y <==> g[x][y] == Empty && (y == 0 || g[x][y - 1] != Empty)
  {
    LookupOverlaid(g, map[], x, y);
    if g[x][y] == Empty && (y == 0 || g[x][y - 1] != Empty) {
      forall b | 0 <= b < y ensures Lookup(g, map[], x, b) != Empty {
        FilledBelow(g, x, y - 1, b);
      }
      HeightUnique(g, map[], x, y);
    }
  }

  /** The cells an emitted Add reads, stated on the board itself. */
  lemma EmittedAddCells(g: Grid, m: Move)
    requires Contiguous(g) && Emitted(g, map[], AddKind, m)
    ensures m.Add? && InBounds(m.x, m.y) && InBounds(m.x + Dx(m.placement), m.y + Dy(m.placement))
    ensures g[m.x][m.y] == Empty && g[m.x + Dx(m.placement)][m.y + Dy(m.placement)] == Empty
    ensures m.y == 0 || (g[m.x][m.y - 1] != Empty && (Dx(m.placement) == 1 ==> g[m.x + 1][m.y - 1] != Empty))
  {
    var (x, y, p) := (m.x, m.y, m.placement as int);
    WithinBoundsBothCells(x, y, p);
    EmittedShape(g, map[], AddKind, m);
    LookupOverlaid(g, map[], x, y);
    if y > 0 { LookupOverlaid(g, map[], x, y - 1); }
    if p % 2 == 0 {
      EmptyAbove(g, x, y, y + 1);
    } else {
      LookupOverlaid(g, map[], x + 1, y);
      if y > 0 { LookupOverlaid(g, map[], x + 1, y - 1); }
    }
  }

  lemma EmittedAddIsLegal(g: Grid, numMoves: int, m: Move)
    requires Contiguous(g) && numMoves < MaxCards && Emitted(g, map[], AddKind, m)
    ensures m.Add? && VerifyAdd(g, numMoves, m).Success()
  {
    EmittedAddCells(g, m);
    AddVerdict(g, numMoves, m);
  }

  lemma LegalAddIsEmitted(g: Grid, numMoves: int, m: Move)
    requires Contiguous(g) && m.Add? && VerifyAdd(g, numMoves, m).Success()
    ensures Emitted(g, map[], AddKind, m)
  {
    AddVerdict(g, numMoves, m);
    var (x, y, p) := (m.x, m.y, m.placement as int);
    WithinBoundsBothCells(x, y, p);
    HeightOnContiguous(g, x, y);
    if p % 2 == 1 {
      HeightOnContiguous(g, x + 1, y);
    }
  }

  /** With no forecast and fewer than 24 cards placed, on a board where no tile hangs over
      an empty cell, the Add generator emits exactly the legal Add moves. */
  lemma AddGenerationExact(g: Grid, numMoves: int, m: Move)
    requires Contiguous(g) && numMoves < MaxCards
    ensures m in Destinations(g, map[], AddKind) <==> m.Add? && VerifyAdd(g, numMoves, m).Success()
  {
    DestinationsMembers(g, map[], AddKind, MaxX, m);
    if m in Destinations(g, map[], AddKind) {
      EmittedAddIsLegal(g, numMoves, m);
    }
    if m.Add? && VerifyAdd(g, numMoves, m).Success() {
      LegalAddIsEmitted(g, numMoves, m);
    }
  }

  // ---------------------------------------------------------------------
  // Recycle generation (board.py `_can_recycle_move`, `_generate_recycle_moves`)

  /** `_can_recycle_move` as written: for an odd placement it looks up the overlay two
      rows above the anchor; for an even one it reads the real board, not the overlay,
      one row above the anchor and one row above its right-hand neighbour. None stands
      for the IndexError a read past the board raises. */
  function CanRecycleMove(g: Grid, cp: Changes, m: Move): Option<bool>
  {
    if m.placement % 2 == 1 then
      match PyLookup(g, cp, m.x, m.y + 2)
      case None => None
      case Some(t) => Some(t == Empty)
    else if !PyReadable(m.x, m.y + 1) then None
    else if PyCell(g, m.x, m.y + 1) != Empty then Some(false)
    else if !PyReadable(m.x + 1, m.y + 1) then None
    else Some(PyCell(g, m.x + 1, m.y + 1) == Empty)
  }

  /** Consequences of the check as written: a vertical card whose upper half is on the
      real board is never offered for recycling, whatever the overlay says; a horizontal
      card on the board tests the overlay cell two rows above its anchor, and raises when
      that cell is past the top row and not in the overlay. */
  lemma CanRecycleMoveCases(g: Grid, cp: Changes, cp': Changes, m: Move)
    requires m.InBoard()
    ensures m.placement % 2 == 0 ==> CanRecycleMove(g, cp, m) == CanRecycleMove(g, cp', m)
    ensures m.placement % 2 == 0 && g[m.x][m.y + 1] != Empty ==> CanRecycleMove(g, cp, m) == Some(false)
    ensures m.placement % 2 == 1 && m.y + 2 < MaxY ==>
      CanRecycleMove(g, cp, m) == Some(Lookup(g, cp, m.x, m.y + 2) == Empty)
    ensures m.placement % 2 == 1 && m.y + 2 >= MaxY && (m.x, m.y + 2) !in cp ==> CanRecycleMove(g, cp, m).None?
  {
  }

  /** The committed and forecast moves without the last one, `(moves + forecast)[:-1]`. */
  function Pool(committed: seq<Move>, forecast: seq<Move>): seq<Move>
  {
    var all := committed + forecast;
    if all == [] then [] else all[..|all| - 1]
  }

  /** The recyclable cards of `pool` in order, or None if a check raises. */
  function Recyclable(g: Grid, cp: Changes, pool: seq<Move>): (r: Option<seq<Move>>)
    ensures r.Some? <==> forall i :: 0 <= i < |pool| ==> CanRecycleMove(g, cp, pool[i]).Some?
    ensures r.Some? ==> forall m :: m in r.value <==> m in pool && CanRecycleMove(g, cp, m) == Some(true)
  {
    if pool == [] then Some([])
    else
      var init := pool[..|pool| - 1];
      var last := pool[|pool| - 1];
      var rest := Recyclable(g, cp, init);
      assert forall i :: 0 <= i < |init| ==> init[i] == pool[i];
      assert pool == init + [last];
      match CanRecycleMove(g, cp, last)
      case None => None
      case Some(b) =>
        if rest.None? then None
        else Some(if b then rest.value + [last] else rest.value)
  }

  /** One step of the filter over the pool. */
  lemma RecyclableStep(g: Grid, cp: Changes, pool: seq<Move>, i: int, rs: seq<Move>, ok: Option<bool>)
    requires 0 <= i < |pool| && Recyclable(g, cp, pool[..i]) == Some(rs) && ok == CanRecycleMove(g, cp, pool[i])
    ensures ok.None? ==> Recyclable(g, cp, pool[..i + 1]).None?
    ensures ok.Some? ==> Recyclable(g, cp, pool[..i + 1]) == Some(if ok.value then rs + [pool[i]] else rs)
  {
    assert pool[..i + 1][..i] == pool[..i];
  }

  /** The old cells a recycled card frees: its anchor and `(x + p % 2, y + (p - 1) % 2)`. */
  function OldCells(c: Move): (cells: (Pos, Pos))
    ensures cells == (c.Anchor(), c.Second())
  {
    ((c.x, c.y), (c.x + c.placement % 2, c.y + (c.placement - 1) % 2))
  }

  /** For each recyclable card in order, the destinations on the overlay with its two
      cells blanked, as Recycle moves naming those cells. */
  function RecycleDestinations(g: Grid, cp: Changes, rs: seq<Move>): seq<Move>
  {
    if rs == [] then []
    else
      var (o1, o2) := OldCells(rs[|rs| - 1]);
      RecycleDestinations(g, cp, rs[..|rs| - 1]) + Destinations(g, cp[o1 := Empty][o2 := Empty], RecycleKind(o1, o2))
  }

  /** One step of the loop over the recyclable cards. */
  lemma RecycleDestinationsStep(g: Grid, cp: Changes, rs: seq<Move>, j: int, out: seq<Move>, o1: Pos, o2: Pos)
    requires 0 <= j < |rs| && out == RecycleDestinations(g, cp, rs[..j]) && (o1, o2) == OldCells(rs[j])
    ensures out + Destinations(g, cp[o1 := Empty][o2 := Empty], RecycleKind(o1, o2)) == RecycleDestinations(g, cp, rs[..j + 1])
  {
    assert rs[..j + 1][..j] == rs[..j];
  }

  /** Every Recycle destination lies on the board and lifts one of the recyclable cards;
      conversely every such card contributes the destinations of its blanked overlay. */
  lemma {:induction false} RecycleDestinationsMembers(g: Grid, cp: Changes, rs: seq<Move>, m: Move)
    ensures m in RecycleDestinations(g, cp, rs) <==>
      exists c :: c in rs && Emitted(g, cp[c.Anchor() := Empty][c.Second() := Empty], RecycleKind(c.Anchor(), c.Second()), m)
    ensures m in RecycleDestinations(g, cp, rs) ==>
      m.Recycle? && m.InBoard() && exists c :: c in rs && Occupies(c, m)
  {
    if rs != [] {
      var c := rs[|rs| - 1];
      var init := rs[..|rs| - 1];
      assert rs == init + [c];
      var kind := RecycleKind(c.Anchor(), c.Second());
      var cp' := cp[c.Anchor() := Empty][c.Second() := Empty];
      DestinationsMembers(g, cp', kind, MaxX, m);
      RecycleDestinationsMembers(g, cp, init, m);
      if m in Destinations(g, cp', kind) {
        EmittedShape(g, cp', kind, m);
        assert Occupies(c, m);
      }
      if exists d :: d in rs && Emitted(g, cp[d.Anchor() := Empty][d.Second() := Empty], RecycleKind(d.Anchor(), d.Second()), m) {
        var d :| d in rs && Emitted(g, cp[d.Anchor() := Empty][d.Second() := Empty], RecycleKind(d.Anchor(), d.Second()), m);
        if d != c { assert d in init; }
      }
    }
  }

  function RecycleMoves(g: Grid, cp: Changes, committed: seq<Move>, forecast: seq<Move>): Option<seq<Move>>
  {
    match Recyclable(g, cp, Pool(committed, forecast))
    case None => None
    case Some(rs) => Some(RecycleDestinations(g, cp, rs))
  }

  /** `_generate_moves`: Add destinations while fewer than 24 cards would be placed,
      otherwise Recycle destinations; None if the generator raises. */
  function GenerateMoves(g: Grid, committed: seq<Move>, numMoves: int, forecast: seq<Move>): Option<seq<Move>>
  {
    var cp := MovesToPositions(forecast);
    if numMoves + |forecast| < MaxCards then Some(Destinations(g, cp, AddKind))
    else RecycleMoves(g, cp, committed, forecast)
  }

  /** Only Add moves are generated iff fewer than 24 cards would be placed; Recycle moves
      lift a card of the committed and forecast list other than its last; every generated
      move lies on the board. */
  lemma GeneratePhase(g: Grid, committed: seq<Move>, numMoves: int, forecast: seq<Move>, m: Move)
    ensures numMoves + |forecast| < MaxCards ==> GenerateMoves(g, committed, numMoves, forecast).Some?
    ensures var r := GenerateMoves(g, committed, numMoves, forecast);
      r.Some? && m in r.value ==>
        && m.InBoard()
        && (m.Add? <==> numMoves + |forecast| < MaxCards)
        && (m.Recycle? ==> exists i :: 0 <= i < |committed + forecast| - 1 && Occupies((committed + forecast)[i], m))
  {
    var cp := MovesToPositions(forecast);
    var r := GenerateMoves(g, committed, numMoves, forecast);
    if r.Some? && m in r.value {
      if numMoves + |forecast| < MaxCards {
        DestinationsMembers(g, cp, AddKind, MaxX, m);
        EmittedShape(g, cp, AddKind, m);
      } else {
        var rs := Recyclable(g, cp, Pool(committed, forecast)).value;
        RecycleDestinationsMembers(g, cp, rs, m);
        var c :| c in rs && Occupies(c, m);
        var all := committed + forecast;
        assert all != [] && Pool(committed, forecast) == all[..|all| - 1];
        var i :| 0 <= i < |all| - 1 && all[..|all| - 1][i] == c;
        assert Occupies(all[i], m);
      }
    }
  }

  /** The last card of the committed and forecast list is left out of the pool: a
      Recycle whose old cells only that card occupies is never generated. */
  lemma LastCardNotLifted(g: Grid, committed: seq<Move>, numMoves: int, forecast: seq<Move>, m: Move)
    requires m.Recycle?
    requires forall i :: 0 <= i < |committed + forecast| - 1 ==> !Occupies((committed + forecast)[i], m)
    ensures var r := GenerateMoves(g, committed, numMoves, forecast); r.Some? ==> m !in r.value
  {
    var r := GenerateMoves(g, committed, numMoves, forecast);
    if r.Some? && m in r.value {
      GeneratePhase(g, committed, numMoves, forecast, m);
      assert false;
    }
  }

  // ---------------------------------------------------------------------
  // possible_moves

  /** `possible_moves(forecast, level)`: below level 2 a mapping from each generated move,
      in first-emission order, to the tree one ply deeper; at level 2 and deeper the list
      of generated moves. None if a generator raises. */
  function PossibleMoves(g: Grid, committed: seq<Move>, numMoves: int, forecast: seq<Move>, level: int): Option<Tree>
    decreases if level < MaxDepth - 1 then MaxDepth - 1 - level else 0, 1
  {
    var gen := GenerateMoves(g, committed, numMoves, forecast);
    if gen.None? then None
    else if level < MaxDepth - 1 then Children(g, committed, numMoves, forecast, level, gen.value, [])
    else Some(Leaf(gen.value))
  }

  /** The dict comprehension: each move's subtree is computed in order and stored under the
      move; a repeated move keeps its first position. */
  function Children(g: Grid, committed: seq<Move>, numMoves: int, forecast: seq<Move>, level: int,
                    ms: seq<Move>, acc: seq<(Move, Tree)>): Option<Tree>
    requires level < MaxDepth - 1
    decreases MaxDepth - 1 - level, 0, |ms|
  {
    if ms == [] then Some(Node(acc))
    else
      match PossibleMoves(g, committed, numMoves, forecast + [ms[0]], level + 1)
      case None => None
      case Some(t) => Children(g, committed, numMoves, forecast, level, ms[1..], Put(acc, ms[0], t))
  }

  /** One step of the dict comprehension over `ms[i..]`. */
  lemma ChildrenStep(g: Grid, committed: seq<Move>, numMoves: int, forecast: seq<Move>, level: int,
                     ms: seq<Move>, i: int, acc: seq<(Move, Tree)>, sub: Option<Tree>)
    requires level < MaxDepth - 1 && 0 <= i < |ms|
    requires sub == PossibleMoves(g, committed, numMoves, forecast + [ms[i]], level + 1)
    ensures sub.None? ==> Children(g, committed, numMoves, forecast, level, ms[i..], acc).None?
    ensures sub.Some? ==> Children(g, committed, numMoves, forecast, level, ms[i..], acc) ==
                          Children(g, committed, numMoves, forecast, level, ms[i + 1..], Put(acc, ms[i], sub.value))
  {
    assert ms[i..][0] == ms[i] && ms[i..][1..] == ms[i + 1..];
  }

  /** The subtree a root child holds: the moves generated after forecasting that child. */
  predicate LeafOf(g: Grid, committed: seq<Move>, numMoves: int, forecast: seq<Move>, e: (Move, Tree))
  {
    var gen := GenerateMoves(g, committed, numMoves, forecast + [e.0]);
    gen.Some? && e.1 == Leaf(gen.value)
  }

  lemma {:induction false} ChildrenAtRoot(g: Grid, committed: seq<Move>, numMoves: int, forecast: seq<Move>,
                                          ms: seq<Move>, acc: seq<(Move, Tree)>)
    requires DistinctKeys(acc)
    requires forall i :: 0 <= i < |acc| ==> LeafOf(g, committed, numMoves, forecast, acc[i])
    ensures var r := Children(g, committed, numMoves, forecast, 1, ms, acc);
      (r.Some? <==> forall m :: m in ms ==> GenerateMoves(g, committed, numMoves, forecast + [m]).Some?)
      && (r.Some? ==>
            && r.value.Node?
            && DistinctKeys(r.value.children)
            && (forall m :: HasKey(r.value.children, m) <==> HasKey(acc, m) || m in ms)
            && (forall i :: 0 <= i < |r.value.children| ==> LeafOf(g, committed, numMoves, forecast, r.value.children[i])))
    decreases |ms|
  {
    if ms != [] {
      var m := ms[0];
      var gen := GenerateMoves(g, committed, numMoves, forecast + [m]);
      assert PossibleMoves(g, committed, numMoves, forecast + [m], 2) == if gen.None? then None else Some(Leaf(gen.value));
      if gen.Some? {
        var t := Leaf(gen.value);
        var acc' := Put(acc, m, t);
        forall i | 0 <= i < |acc'| ensures LeafOf(g, committed, numMoves, forecast, acc'[i]) {
          if i < |acc| && acc[i].0 != m {
            assert acc'[i] == acc[i];
          } else {
            assert acc'[i] == (m, t);
          }
        }
        forall k ensures HasKey(acc', k) <==> HasKey(acc, k) || k == m {
          PutKeys(acc, m, t, k);
        }
        ChildrenAtRoot(g, committed, numMoves, forecast, ms[1..], acc');
        assert forall k :: k in ms <==> k == m || k in ms[1..];
      } else {
        assert m in ms;
      }
    }
  }

  /** From level 1 the tree is a mapping whose values are lists: its keys are exactly the
      generated moves, each once, and each maps to the moves generated after forecasting
      it. It exists iff generation raises neither at the root nor under any root move. */
  lemma PossibleMovesShape(g: Grid, committed: seq<Move>, numMoves: int, forecast: seq<Move>)
    ensures var gen := GenerateMoves(g, committed, numMoves, forecast);
            var r := PossibleMoves(g, committed, numMoves, forecast, 1);
      && (r.Some? <==> gen.Some? && forall m :: m in gen.value ==> GenerateMoves(g, committed, numMoves, forecast + [m]).Some?)
      && (r.Some? ==>
            && r.value.Node?
            && DistinctKeys(r.value.children)
            && (forall m :: HasKey(r.value.children, m) <==> m in gen.value)
            && (forall i :: 0 <= i < |r.value.children| ==>
                  r.value.children[i].1.Leaf? && LeafOf(g, committed, numMoves, forecast, r.value.children[i])))
  {
    var gen := GenerateMoves(g, committed, numMoves, forecast);
    if gen.Some? {
      ChildrenAtRoot(g, committed, numMoves, forecast, gen.value, []);
    }
  }
}
