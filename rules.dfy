/** The legality rules of `GameBoard` as pure functions of a board value, and the
    state transition that `make_move` performs. */
module Rules {

  import opened Wrappers
  import opened Tiles
  import opened Moves
  import opened Results

  // ---------------------------------------------------------------------
  // Cell predicates (board.py `_space_avail`, `_has_support`, `_can_remove`)

  /** Both target cells of the placement are empty. */
  predicate SpaceAvail(g: Grid, x: int, y: int, p: PlacementId)
    requires WithinBounds(x, y, p)
  {
    g[x][y] == Empty && g[x + Dx(p)][y + Dy(p)] == Empty
  }

  /** The card stands on the floor, or on the cell(s) under its lower half(s). */
  predicate HasSupport(g: Grid, x: int, y: int, p: PlacementId)
    requires WithinBounds(x, y, p)
  {
    y == 0 || (g[x][y - 1] != Empty && (p % 2 == 0 || g[x + 1][y - 1] != Empty))
  }

  /** A Python list index i is valid on a list of length n when -n <= i < n. */
  predicate PyReadable(x: int, y: int)
  {
    -MaxX <= x < MaxX && -MaxY <= y < MaxY
  }

  /** `board[x][y]` with Python's indexing, where a negative index counts from the end. */
  function PyCell(g: Grid, x: int, y: int): Tile
    requires PyReadable(x, y)
  {
    g[if x < 0 then x + MaxX else x][if y < 0 then y + MaxY else y]
  }

  /** `_can_remove` performs its reads without raising IndexError (its `and` short-circuits). */
  predicate CanRemoveReadable(g: Grid, m: Move)
  {
    var (x1, y1) := m.OldPos1();
    if y1 - m.OldPos2().1 == 0 then PyReadable(x1, y1 + 2)
    else PyReadable(x1, y1 + 1) && (PyCell(g, x1, y1 + 1) == Empty ==> PyReadable(x1 + 1, y1 + 1))
  }

  /** `_can_remove`, as written: when the two old cells share a row it looks two rows up
      from old cell one; otherwise it looks at the cells one row up from old cell one and
      from its right-hand neighbour. */
  predicate CanRemove(g: Grid, m: Move)
    requires CanRemoveReadable(g, m)
  {
    var (x1, y1) := m.OldPos1();
    if y1 - m.OldPos2().1 == 0 then PyCell(g, x1, y1 + 2) == Empty
    else PyCell(g, x1, y1 + 1) == Empty && PyCell(g, x1 + 1, y1 + 1) == Empty
  }

  /** A committed card occupies exactly the two old cells of the move. */
  predicate Occupies(c: Move, m: Move)
  {
    m.OldPos1() == c.Anchor() && c.Second() == m.OldPos2()
  }

  /** `c` is the first card of `moves` that occupies the old cells of `m`. */
  predicate FirstMatch(moves: seq<Move>, m: Move, c: Move)
  {
    exists i :: 0 <= i < |moves| && moves[i] == c && forall j :: 0 <= j < i ==> !Occupies(moves[j], m)
  }

  /** `_find_old_move`: the committed cards, in order, whose anchor is old cell one and
      whose second half is old cell two. */
  function FindOldMove(moves: seq<Move>, m: Move): (found: seq<Move>)
    ensures forall c :: c in found <==> c in moves && Occupies(c, m)
    ensures |found| > 0 ==> FirstMatch(moves, m, found[0])
  {
    if moves == [] then []
    else
      assert forall c :: c in moves <==> c == moves[0] || c in moves[1..];
      var rest := FindOldMove(moves[1..], m);
      if Occupies(moves[0], m) then [moves[0]] + rest else rest
  }

  // ---------------------------------------------------------------------
  // Verdicts (board.py `_verify_move`, `_verify_add`, `_verify_recycle`)

  function VerifyMove(g: Grid, m: Move): (r: Result)
    ensures r.Success() <==> WithinBounds(m.x, m.y, m.placement) && HasSupport(g, m.x, m.y, m.placement)
  {
    if !WithinBounds(m.x, m.y, m.placement) then
      var r := Result([("within bounds", Flag(false))], All);
      assert !Truthy(r.conditions[0].1);
      r
    else
      var r := Result([("has support", Flag(HasSupport(g, m.x, m.y, m.placement)))], All);
      assert Truthy(r.conditions[0].1) <==> HasSupport(g, m.x, m.y, m.placement);
      r
  }

  function VerifyAdd(g: Grid, numMoves: int, m: Move): Result
  {
    var rm := VerifyMove(g, m);
    if !rm.Success() then rm
    else Result([("cards left", Flag(numMoves < MaxCards)),
                 ("space available", Flag(SpaceAvail(g, m.x, m.y, m.placement)))] + rm.conditions, All)
  }

  function VerifyRecycle(g: Grid, moves: seq<Move>, numMoves: int, last: Option<Move>, m: Move): Result
    requires WithinBounds(m.x, m.y, m.placement) ==> CanRemoveReadable(g, m)
  {
    var rm := VerifyMove(g, m);
    if !rm.Success() then rm
    else
      var found := FindOldMove(moves, m);
      Result([("all cards placed", Flag(numMoves >= MaxCards)),
              ("card exists", Cards(found)),
              ("can remove", Flag(CanRemove(g, m))),
              ("different than last", Flag(last.None? || last.value.x != m.OldPos1().0 || last.value.y != m.OldPos1().1)),
              ("space available", Flag((m.OldPos1() == (m.x, m.y) && |found| > 0 && found[0].placement != m.placement)
                                       || SpaceAvail(g, m.x, m.y, m.placement)))]
             + rm.conditions, All)
  }

  /** An out-of-bounds move is answered with the single condition "within bounds" = false. */
  lemma OutOfBoundsVerdict(g: Grid, numMoves: int, moves: seq<Move>, last: Option<Move>, m: Move)
    requires !WithinBounds(m.x, m.y, m.placement)
    ensures VerifyAdd(g, numMoves, m) == Result([("within bounds", Flag(false))], All)
    ensures VerifyRecycle(g, moves, numMoves, last, m) == Result([("within bounds", Flag(false))], All)
    ensures !VerifyAdd(g, numMoves, m).Success() && !VerifyRecycle(g, moves, numMoves, last, m).Success()
  {
    assert !Truthy(Flag(false));
  }

  /** An Add is legal iff both cells are on the board, fewer than 24 cards are placed, both
      cells are empty, and the card stands on the floor or on filled cell(s) below. */
  lemma AddVerdict(g: Grid, numMoves: int, m: Move)
    ensures VerifyAdd(g, numMoves, m).Success() <==>
      var (x, y, p) := (m.x, m.y, m.placement);
      && InBounds(x, y) && InBounds(x + Dx(p), y + Dy(p))
      && numMoves < MaxCards
      && g[x][y] == Empty && g[x + Dx(p)][y + Dy(p)] == Empty
      && (y == 0 || (g[x][y - 1] != Empty && (Dx(p) == 1 ==> g[x + 1][y - 1] != Empty)))
  {
    var (x, y, p) := (m.x, m.y, m.placement);
    WithinBoundsBothCells(x, y, p);
    var rm := VerifyMove(g, m);
    if WithinBounds(x, y, p) {
      assert rm.Success() <==> HasSupport(g, x, y, p);
      if rm.Success() {
        var r := VerifyAdd(g, numMoves, m);
        assert r.conditions[0] == ("cards left", Flag(numMoves < MaxCards));
        assert r.conditions[1] == ("space available", Flag(SpaceAvail(g, x, y, p)));
        assert r.conditions[2] == rm.conditions[0];
      }
    } else {
      OutOfBoundsVerdict(g, numMoves, [], None, m);
    }
  }

  /** A Recycle is legal iff it is on the board with support, all 24 cards are placed, a
      committed card occupies the old cells, that card can be removed, old cell one is not
      the anchor of the last move, and the target is free or is the same anchor with a
      different placement. */
  lemma RecycleVerdict(g: Grid, moves: seq<Move>, numMoves: int, last: Option<Move>, m: Move)
    requires WithinBounds(m.x, m.y, m.placement) ==> CanRemoveReadable(g, m)
    ensures VerifyRecycle(g, moves, numMoves, last, m).Success() <==>
      && WithinBounds(m.x, m.y, m.placement)
      && HasSupport(g, m.x, m.y, m.placement)
      && numMoves >= MaxCards
      && (exists c :: c in moves && Occupies(c, m))
      && CanRemove(g, m)
      && (last.None? || last.value.Anchor() != m.OldPos1())
      && ((m.OldPos1() == m.Anchor() && FindOldMove(moves, m)[0].placement != m.placement)
          || SpaceAvail(g, m.x, m.y, m.placement))
  {
    var rm := VerifyMove(g, m);
    if WithinBounds(m.x, m.y, m.placement) && rm.Success() {
      var r := VerifyRecycle(g, moves, numMoves, last, m);
      var found := FindOldMove(moves, m);
      assert |r.conditions| == 6;
      assert Truthy(r.conditions[0].1) <==> numMoves >= MaxCards;
      assert Truthy(r.conditions[1].1) <==> exists c :: c in moves && Occupies(c, m) by {
        if |found| > 0 { assert found[0] in found; }
      }
      assert Truthy(r.conditions[2].1) <==> CanRemove(g, m);
      assert Truthy(r.conditions[3].1) <==> (last.None? || last.value.Anchor() != m.OldPos1());
      assert Truthy(r.conditions[4].1) <==>
        (m.OldPos1() == m.Anchor() && |found| > 0 && found[0].placement != m.placement) || SpaceAvail(g, m.x, m.y, m.placement);
      assert Truthy(r.conditions[5].1);
      assert r.Success() <==> forall i | 0 <= i < 6 :: Truthy(r.conditions[i].1);
    } else if !WithinBounds(m.x, m.y, m.placement) {
      OutOfBoundsVerdict(g, numMoves, moves, last, m);
    }
  }

  // ---------------------------------------------------------------------
  // Board updates (board.py `_apply`, `_remove`)

  /** The board after writing a card: card[0][0] at the anchor and
      card[p % 2][(p + 1) % 2] at the second cell. */
  function Place(g: Grid, m: Move): (g': Grid)
    requires m.InBoard()
  {
    seq(MaxX, a requires 0 <= a < MaxX =>
      seq(MaxY, b requires 0 <= b < MaxY =>
        if (a, b) == m.Anchor() then FirstTile(m.placement)
        else if (a, b) == m.Second() then SecondTile(m.placement)
        else g[a][b]))
  }

  /** The board after a card is lifted: its two cells become empty. */
  function Blank(g: Grid, c: Move): (g': Grid)
    requires c.InBoard()
  {
    seq(MaxX, a requires 0 <= a < MaxX =>
      seq(MaxY, b requires 0 <= b < MaxY =>
        if (a, b) == c.Anchor() || (a, b) == c.Second() then Empty else g[a][b]))
  }

  /** One cell of `Place`. */
  lemma PlaceCell(g: Grid, m: Move, a: int, b: int)
    requires m.InBoard() && InBounds(a, b)
    ensures Place(g, m)[a][b] ==
      if (a, b) == m.Anchor() then FirstTile(m.placement)
      else if (a, b) == m.Second() then SecondTile(m.placement)
      else g[a][b]
  {
  }

  /** One cell of `Blank`. */
  lemma BlankCell(g: Grid, c: Move, a: int, b: int)
    requires c.InBoard() && InBounds(a, b)
    ensures Blank(g, c)[a][b] == if (a, b) == c.Anchor() || (a, b) == c.Second() then Empty else g[a][b]
  {
  }

  /** `list.remove`: drop the first element equal to `c`. */
  function RemoveFirst(s: seq<Move>, c: Move): (r: seq<Move>)
    requires c in s
    ensures |r| == |s| - 1
    ensures multiset(r) == multiset(s) - multiset{c}
  {
    assert s == [s[0]] + s[1..];
    if s[0] == c then s[1..]
    else
      assert s == [s[0]] + s[1..];
      [s[0]] + RemoveFirst(s[1..], c)
  }

  // ---------------------------------------------------------------------
  // The state machine (board.py `make_move`)

  datatype State = State(g: Grid, moves: seq<Move>, numMoves: int, last: Option<Move>)

  /** Every committed card lies on the board, every cell holds a card tile or nothing,
      and the move counter is a count. */
  predicate ValidState(s: State)
  {
    && WellFormed(s.g)
    && s.numMoves >= 0
    && forall c :: c in s.moves ==> c.InBoard()
  }

  /** The reads of the verdict that Python would not raise on. */
  predicate Checkable(s: State, m: Move)
  {
    m.Recycle? && m.InBoard() ==> CanRemoveReadable(s.g, m)
  }

  function Verify(s: State, m: Move): Result
    requires Checkable(s, m)
  {
    if m.Recycle? then VerifyRecycle(s.g, s.moves, s.numMoves, s.last, m) else VerifyAdd(s.g, s.numMoves, m)
  }

  lemma VerifiedInBoard(s: State, m: Move)
    requires Checkable(s, m) && Verify(s, m).Success()
    ensures m.InBoard()
  {
    if !m.InBoard() {
      OutOfBoundsVerdict(s.g, s.numMoves, s.moves, s.last, m);
    }
  }

  /** What committing a move needs: its cells are on the board and, for a Recycle, some
      committed card lies on its old cells. */
  predicate Applicable(s: State, m: Move)
  {
    m.InBoard() && (m.Recycle? ==> |FindOldMove(s.moves, m)| > 0)
  }

  /** Every move the verdict accepts can be committed. */
  lemma LegalApplicable(s: State, m: Move)
    requires Checkable(s, m) && Verify(s, m).Success()
    ensures Applicable(s, m)
  {
    VerifiedInBoard(s, m);
    if m.Recycle? {
      RecycleVerdict(s.g, s.moves, s.numMoves, s.last, m);
      var c :| c in s.moves && Occupies(c, m);
      assert c in FindOldMove(s.moves, m);
    }
  }

  /** The card a Recycle lifts: the first committed card on its old cells. */
  function Lifted(s: State, m: Move): (c: Move)
    requires m.Recycle? && |FindOldMove(s.moves, m)| > 0
    ensures c in s.moves && Occupies(c, m)
    ensures FirstMatch(s.moves, m, c)
  {
    FindOldMove(s.moves, m)[0]
  }

  /** The state after a move is committed: a Recycle first lifts its card out of the list
      and off the board; then the new card is written, appended, recorded as last, and
      counted. */
  function Commit(s: State, m: Move): State
    requires ValidState(s) && Applicable(s, m)
  {
    if m.Recycle? then
      var c := Lifted(s, m);
      assert c.InBoard();
      State(Place(Blank(s.g, c), m), RemoveFirst(s.moves, c) + [m], s.numMoves + 1, Some(m))
    else
      State(Place(s.g, m), s.moves + [m], s.numMoves + 1, Some(m))
  }

  /** `make_move`: the verdict, and the new state when the verdict is a success. */
  function Step(s: State, m: Move): (Result, State)
    requires ValidState(s) && Checkable(s, m)
  {
    var r := Verify(s, m);
    (r, if r.Success() then LegalApplicable(s, m); Commit(s, m) else s)
  }

  /** A committed move writes its two tiles, and changes no other cell except the two
      cells of the card a Recycle lifts. */
  lemma CommitCells(s: State, m: Move, a: int, b: int)
    requires ValidState(s) && Applicable(s, m)
    requires InBounds(a, b)
    ensures (a, b) == m.Anchor() ==> Commit(s, m).g[a][b] == FirstTile(m.placement)
    ensures (a, b) == m.Second() ==> Commit(s, m).g[a][b] == SecondTile(m.placement)
    ensures (a, b) != m.Anchor() && (a, b) != m.Second() && m.Add? ==> Commit(s, m).g[a][b] == s.g[a][b]
    ensures (a, b) != m.Anchor() && (a, b) != m.Second() && m.Recycle? ==>
      Commit(s, m).g[a][b] == if (a, b) == m.OldPos1() || (a, b) == m.OldPos2() then Empty else s.g[a][b]
  {
    if m.Recycle? {
      var c := Lifted(s, m);
      assert Commit(s, m).g == Place(Blank(s.g, c), m);
      RecycledCell(s.g, c, m, a, b);
    } else {
      PlaceCell(s.g, m, a, b);
      assert Commit(s, m).g == Place(s.g, m);
    }
  }

  /** One cell after lifting `c` and writing `m`, for a card `c` on the old cells of `m`. */
  lemma RecycledCell(g: Grid, c: Move, m: Move, a: int, b: int)
    requires c.InBoard() && m.InBoard() && m.Recycle? && Occupies(c, m) && InBounds(a, b)
    ensures Place(Blank(g, c), m)[a][b] ==
      if (a, b) == m.Anchor() then FirstTile(m.placement)
      else if (a, b) == m.Second() then SecondTile(m.placement)
      else if (a, b) == m.OldPos1() || (a, b) == m.OldPos2() then Empty
      else g[a][b]
  {
    BlankCell(g, c, a, b);
    PlaceCell(Blank(g, c), m, a, b);
  }

  /** A committed move appends itself, becomes the last move, and adds exactly one to the
      counter; a Recycle keeps the number of cards, an Add adds one. */
  lemma CommitBookkeeping(s: State, m: Move)
    requires ValidState(s) && Applicable(s, m)
    ensures var s' := Commit(s, m);
      && s'.numMoves == s.numMoves + 1
      && s'.last == Some(m)
      && |s'.moves| > 0 && s'.moves[|s'.moves| - 1] == m
      && |s'.moves| == (if m.Recycle? then |s.moves| else |s.moves| + 1)
      && (m.Add? ==> s'.moves == s.moves + [m])
      && (m.Recycle? ==> multiset(s'.moves) == multiset(s.moves) - multiset{Lifted(s, m)} + multiset{m})
  {
  }

  /** A rejected move changes nothing. */
  lemma RejectedUnchanged(s: State, m: Move)
    requires ValidState(s) && Checkable(s, m) && !Verify(s, m).Success()
    ensures Step(s, m).1 == s && !Step(s, m).0.Success()
  {
  }

  /** Committed moves keep the state valid. */
  lemma CommitValid(s: State, m: Move)
    requires ValidState(s) && Applicable(s, m)
    ensures ValidState(Commit(s, m))
  {
    var s' := Commit(s, m);
    CardShape(m.placement, 0, 0);
    forall a, b | 0 <= a < MaxX && 0 <= b < MaxY
      ensures s'.g[a][b] == Empty || CardTile(s'.g[a][b])
    {
      CommitCells(s, m, a, b);
    }
    if m.Recycle? {
      var c := Lifted(s, m);
      var rest := RemoveFirst(s.moves, c);
      forall d | d in rest ensures d.InBoard() {
        assert d in multiset(rest);
      }
      assert s'.moves == rest + [m];
    }
  }

  /** An accepted Add keeps the support invariant: no tile hangs over an empty cell. */
  lemma AddKeepsContiguous(g: Grid, numMoves: int, m: Move)
    requires Contiguous(g) && VerifyAdd(g, numMoves, m).Success()
    ensures m.InBoard() && Contiguous(Place(g, m))
  {
    VerifiedAddInBoard(g, numMoves, m);
    var g' := Place(g, m);
    forall a, b | 0 <= a < MaxX && 0 < b < MaxY && g'[a][b] != Empty
      ensures g'[a][b - 1] != Empty
    {
      AddSupportsCell(g, numMoves, m, a, b);
    }
  }

  lemma VerifiedAddInBoard(g: Grid, numMoves: int, m: Move)
    requires VerifyAdd(g, numMoves, m).Success()
    ensures m.InBoard()
  {
    AddVerdict(g, numMoves, m);
    WithinBoundsBothCells(m.x, m.y, m.placement);
  }

  /** One cell of `AddKeepsContiguous`. */
  lemma AddSupportsCell(g: Grid, numMoves: int, m: Move, a: int, b: int)
    requires Contiguous(g) && VerifyAdd(g, numMoves, m).Success() && m.InBoard()
    requires 0 <= a < MaxX && 0 < b < MaxY && Place(g, m)[a][b] != Empty
    ensures Place(g, m)[a][b - 1] != Empty
  {
    AddVerdict(g, numMoves, m);
    CardShape(m.placement, 0, 0);
    PlaceCell(g, m, a, b);
    PlaceCell(g, m, a, b - 1);
    if (a, b) == m.Anchor() {
    } else if (a, b) == m.Second() {
      if Dx(m.placement) == 0 { assert (a, b - 1) == m.Anchor(); }
    } else {
      assert g[a][b] != Empty;
    }
  }
}
