/** Tiles, the card table and board geometry of the Double Card game. */
module Tiles {

  import opened Wrappers

  const MaxX: int := 8
  const MaxY: int := 12
  const MaxCards: int := 24
  /** Number of committed moves at which the game is a draw. */
  const DrawMoves: int := 60

  datatype Color = NoColor | Red | White
  datatype Fill = NoFill | Full | Open

  /** A cell's content: a colour and a fill; the empty cell has neither. */
  datatype Tile = Tile(color: Color, fill: Fill)

  const Empty: Tile := Tile(NoColor, NoFill)
  const RF: Tile := Tile(Red, Full)
  const RO: Tile := Tile(Red, Open)
  const WF: Tile := Tile(White, Full)
  const WO: Tile := Tile(White, Open)

  /** The four tiles a card half can carry. */
  predicate CardTile(t: Tile) {
    t == RF || t == RO || t == WF || t == WO
  }

  /** Placement identifiers 1..8 index the card table. */
  type PlacementId = p: int | 1 <= p <= 8 witness 1

  type Pos = (int, int)

  /** Column offset of a card's second half: odd placements are horizontal. */
  function Dx(p: PlacementId): int { p % 2 }
  /** Row offset of a card's second half: even placements are vertical. */
  function Dy(p: PlacementId): int { (p + 1) % 2 }

  /** The card table: Card(p)[i][j] is the tile written at (x + i, y + j), or None. */
  function Card(p: PlacementId): (c: seq<seq<Option<Tile>>>)
    ensures |c| == 2 && |c[0]| == 2 && |c[1]| == 2
  {
    match p
    case 1 => [[Some(RF), None], [Some(WO), None]]
    case 2 => [[Some(WO), Some(RF)], [None, None]]
    case 3 => [[Some(WO), None], [Some(RF), None]]
    case 4 => [[Some(RF), Some(WO)], [None, None]]
    case 5 => [[Some(RO), None], [Some(WF), None]]
    case 6 => [[Some(WF), Some(RO)], [None, None]]
    case 7 => [[Some(WF), None], [Some(RO), None]]
    case 8 => [[Some(RO), Some(WF)], [None, None]]
  }

  /** The tile of the anchor half, card[0][0]. */
  function FirstTile(p: PlacementId): Tile
  {
    Card(p)[0][0].value
  }

  /** The tile of the second half, card[p % 2][(p + 1) % 2]. */
  function SecondTile(p: PlacementId): Tile
  {
    Card(p)[Dx(p)][Dy(p)].value
  }

  /** Exactly the anchor entry and the second-half entry of a card are present,
      and they carry two different card tiles. */
  lemma CardShape(p: PlacementId, i: int, j: int)
    requires 0 <= i < 2 && 0 <= j < 2
    ensures Card(p)[i][j].Some? <==> (i == 0 && j == 0) || (i == Dx(p) && j == Dy(p))
    ensures Dx(p) + Dy(p) == 1
    ensures CardTile(FirstTile(p)) && CardTile(SecondTile(p))
    ensures FirstTile(p).color != SecondTile(p).color && FirstTile(p).fill != SecondTile(p).fill
  {
  }

  /** `_within_bounds`: the anchor and the second half both lie on the 8 x 12 board. */
  predicate WithinBounds(x: int, y: int, p: PlacementId)
  {
    MaxX - p % 2 > x >= 0 && MaxY - (p + 1) % 2 > y >= 0
  }

  predicate InBounds(x: int, y: int) { 0 <= x < MaxX && 0 <= y < MaxY }

  lemma WithinBoundsBothCells(x: int, y: int, p: PlacementId)
    ensures WithinBounds(x, y, p) <==> InBounds(x, y) && InBounds(x + Dx(p), y + Dy(p))
    ensures p % 2 == 1 ==> Dx(p) == 1 && Dy(p) == 0
    ensures p % 2 == 0 ==> Dx(p) == 0 && Dy(p) == 1
  {
  }

  /** A board value: column-major, Cells[x][y] with x the column and y the row. */
  type Grid = g: seq<seq<Tile>> | |g| == MaxX && forall x :: 0 <= x < |g| ==> |g[x]| == MaxY
    witness EmptyGrid()

  function EmptyGrid(): seq<seq<Tile>>
  {
    seq(MaxX, _ => seq(MaxY, _ => Empty))
  }

  /** Every cell holds either nothing or one of the four card tiles. */
  predicate WellFormed(g: Grid)
  {
    forall x, y :: 0 <= x < MaxX && 0 <= y < MaxY ==> g[x][y] == Empty || CardTile(g[x][y])
  }

  /** The support invariant: no tile hangs over an empty cell. */
  predicate Contiguous(g: Grid)
  {
    forall x, y :: 0 <= x < MaxX && 0 < y < MaxY && g[x][y] != Empty ==> g[x][y - 1] != Empty
  }
}
