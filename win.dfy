/** Win detection: the running counters of `_count_tile`, the lines the win scans walk,
    and what their verdict means. */
module Win {

  import opened Wrappers
  import opened Tiles
  import opened Results

  // ---------------------------------------------------------------------
  // Running counters (board.py `_count_tile`)

  datatype Counters = Counters(red: nat, white: nat, full: nat, open: nat)

  const Zero: Counters := Counters(0, 0, 0, 0)

  /** One step of the scan: a tile extends the run of its colour and of its fill and resets
      the opposite run; an empty attribute resets both. */
  function CountTile(t: Tile, c: Counters): (r: Counters)
    ensures r.red == 0 || r.white == 0
    ensures r.full == 0 || r.open == 0
    ensures t.color == Red ==> r.red == c.red + 1
    ensures t.color == White ==> r.white == c.white + 1
    ensures t.fill == Full ==> r.full == c.full + 1
    ensures t.fill == Open ==> r.open == c.open + 1
    ensures t.color == NoColor ==> r.red == 0 && r.white == 0
    ensures t.fill == NoFill ==> r.full == 0 && r.open == 0
  {
    var (red, white) :=
      if t.color == Red then (c.red + 1, 0)
      else if t.color == White then (0, c.white + 1)
      else (0, 0);
    var (full, open) :=
      if t.fill == Full then (c.full + 1, 0)
      else if t.fill == Open then (0, c.open + 1)
      else (0, 0);
    Counters(red, white, full, open)
  }

  /** Some counter is exactly 4: the moment a scan stops. */
  predicate Hit(c: Counters)
  {
    c.red == 4 || c.white == 4 || c.full == 4 || c.open == 4
  }

  /** The counters after scanning `ts` from the start of a line. */
  function Counts(ts: seq<Tile>): Counters
  {
    if ts == [] then Zero else CountTile(ts[|ts| - 1], Counts(ts[..|ts| - 1]))
  }

  /** The counters at the first step of the scan where a counter reaches 4, if any. */
  function ScanTiles(ts: seq<Tile>): Option<Counters>
  {
    if ts == [] then None
    else
      var prev := ScanTiles(ts[..|ts| - 1]);
      if prev.Some? then prev
      else if Hit(Counts(ts)) then Some(Counts(ts))
      else None
  }

  // ---------------------------------------------------------------------
  // Runs

  datatype Attr = ARed | AWhite | AFull | AOpen

  predicate HasAttr(t: Tile, a: Attr)
  {
    match a
    case ARed => t.color == Red
    case AWhite => t.color == White
    case AFull => t.fill == Full
    case AOpen => t.fill == Open
  }

  function Get(c: Counters, a: Attr): nat
  {
    match a
    case ARed => c.red
    case AWhite => c.white
    case AFull => c.full
    case AOpen => c.open
  }

  /** Length of the run of tiles with attribute `a` at the end of `ts`. */
  function Trail(ts: seq<Tile>, a: Attr): (n: nat)
    ensures n <= |ts|
  {
    if ts == [] then 0
    else if HasAttr(ts[|ts| - 1], a) then Trail(ts[..|ts| - 1], a) + 1
    else 0
  }

  predicate RunOf(w: seq<Tile>, a: Attr)
  {
    forall k :: 0 <= k < |w| ==> HasAttr(w[k], a)
  }

  /** Four tiles of one colour or of one fill. */
  predicate Run4(w: seq<Tile>)
  {
    |w| == 4 && (RunOf(w, ARed) || RunOf(w, AWhite) || RunOf(w, AFull) || RunOf(w, AOpen))
  }

  /** Each counter is the length of the current run of its attribute. */
  lemma {:induction false} CountsTrail(ts: seq<Tile>, a: Attr)
    ensures Get(Counts(ts), a) == Trail(ts, a)
  {
    if ts != [] {
      CountsTrail(ts[..|ts| - 1], a);
    }
  }

  /** The last Trail(ts, a) tiles of `ts` carry `a`. */
  lemma {:induction false} TrailTiles(ts: seq<Tile>, a: Attr)
    ensures forall j :: |ts| - Trail(ts, a) <= j < |ts| ==> HasAttr(ts[j], a)
  {
    if ts != [] && HasAttr(ts[|ts| - 1], a) {
      var p := ts[..|ts| - 1];
      TrailTiles(p, a);
      assert forall j :: 0 <= j < |p| ==> p[j] == ts[j];
    }
  }

  /** If the last k tiles carry `a`, the run is at least k long. */
  lemma {:induction false} TrailAtLeast(ts: seq<Tile>, a: Attr, k: nat)
    requires k <= |ts|
    requires forall j :: |ts| - k <= j < |ts| ==> HasAttr(ts[j], a)
    ensures Trail(ts, a) >= k
  {
    if k > 0 {
      var p := ts[..|ts| - 1];
      assert forall j :: |p| - (k - 1) <= j < |p| ==> p[j] == ts[j];
      TrailAtLeast(p, a, k - 1);
    }
  }

  /** A run that has grown to 4 or more passed through exactly 4 at some earlier step. */
  lemma {:induction false} ReachesFour(ts: seq<Tile>, a: Attr, j: nat)
    requires j <= |ts| && Trail(ts[..j], a) >= 4
    ensures exists j' :: 4 <= j' <= j && Trail(ts[..j'], a) == 4
  {
    if Trail(ts[..j], a) > 4 {
      assert ts[..j][..j - 1] == ts[..j - 1];
      ReachesFour(ts, a, j - 1);
    }
  }

  /** The scan hits iff the counters hit after some prefix of the line. */
  lemma {:induction false} ScanHitsPrefix(ts: seq<Tile>)
    ensures ScanTiles(ts).Some? <==> exists j :: 1 <= j <= |ts| && Hit(Counts(ts[..j]))
    ensures ScanTiles(ts).Some? ==> Hit(ScanTiles(ts).value)
  {
    if ts != [] {
      var p := ts[..|ts| - 1];
      ScanHitsPrefix(p);
      assert ts[..|ts|] == ts;
      forall j | 1 <= j <= |p| ensures p[..j] == ts[..j] { }
      if ScanTiles(p).Some? {
        var j :| 1 <= j <= |p| && Hit(Counts(p[..j]));
        assert p[..j] == ts[..j];
      }
    }
  }

  /** Once the scan has stopped on a prefix, the rest of the line does not matter. */
  lemma {:induction false} ScanPrefixStable(ts: seq<Tile>, j: int)
    requires 1 <= j <= |ts| && ScanTiles(ts[..j]).Some?
    ensures ScanTiles(ts) == ScanTiles(ts[..j])
    decreases |ts| - j
  {
    if j == |ts| {
      assert ts[..j] == ts;
    } else {
      var p := ts[..|ts| - 1];
      assert p[..j] == ts[..j];
      ScanPrefixStable(p, j);
    }
  }

  lemma HitAttr(c: Counters) returns (a: Attr)
    requires Hit(c)
    ensures Get(c, a) == 4
  {
    a := if c.red == 4 then ARed else if c.white == 4 then AWhite else if c.full == 4 then AFull else AOpen;
  }

  /** A run of 4 begins at index i of `ts`. */
  predicate RunAt(ts: seq<Tile>, i: int)
  {
    0 <= i && i + 4 <= |ts| && Run4(ts[i..i + 4])
  }

  lemma {:induction false} ScanStopsOnRun(ts: seq<Tile>) returns (i: int)
    requires ScanTiles(ts).Some?
    ensures RunAt(ts, i)
  {
    ScanHitsPrefix(ts);
    var j :| 1 <= j <= |ts| && Hit(Counts(ts[..j]));
    var a := HitAttr(Counts(ts[..j]));
    CountsTrail(ts[..j], a);
    TrailTiles(ts[..j], a);
    i := j - 4;
    var w := ts[i..j];
    assert forall k :: 0 <= k < 4 ==> w[k] == ts[..j][i + k];
    assert RunOf(w, a);
  }

  lemma {:induction false} RunStopsScan(ts: seq<Tile>, i: int)
    requires RunAt(ts, i)
    ensures ScanTiles(ts).Some?
  {
    var w := ts[i..i + 4];
    var a := if RunOf(w, ARed) then ARed else if RunOf(w, AWhite) then AWhite
             else if RunOf(w, AFull) then AFull else AOpen;
    assert RunOf(w, a);
    var q := ts[..i + 4];
    assert forall k :: i <= k < i + 4 ==> q[k] == w[k - i];
    assert forall k :: 0 <= k < 4 ==> HasAttr(w[k], a);
    assert forall k :: |q| - 4 <= k < |q| ==> HasAttr(q[k], a) by {
      forall k | |q| - 4 <= k < |q| ensures HasAttr(q[k], a) {
        assert q[k] == w[k - i];
      }
    }
    TrailAtLeast(q, a, 4);
    ReachesFour(ts, a, i + 4);
    var j' :| 4 <= j' <= i + 4 && Trail(ts[..j'], a) == 4;
    CountsTrail(ts[..j'], a);
    assert Hit(Counts(ts[..j']));
    ScanHitsPrefix(ts);
  }

  /** The scan of a line stops iff the line holds 4 consecutive tiles of one colour or fill. */
  lemma ScanIffRun(ts: seq<Tile>)
    ensures ScanTiles(ts).Some? <==> exists i :: RunAt(ts, i)
  {
    if ScanTiles(ts).Some? {
      var i := ScanStopsOnRun(ts);
    }
    if exists i :: RunAt(ts, i) {
      var i :| RunAt(ts, i);
      RunStopsScan(ts, i);
    }
  }

  // ---------------------------------------------------------------------
  // Lines of the board

  datatype Dir = Up | Right | UpRight | UpLeft

  function Offset(d: Dir, k: int): Pos
  {
    match d
    case Up => (0, k)
    case Right => (k, 0)
    case UpRight => (k, k)
    case UpLeft => (-k, k)
  }

  /** A straight line of `len` cells from `start` in direction `dir`. */
  datatype Line = Line(start: Pos, dir: Dir, len: nat)

  function CellOf(l: Line, k: int): Pos
  {
    (l.start.0 + Offset(l.dir, k).0, l.start.1 + Offset(l.dir, k).1)
  }

  predicate LineInBoard(l: Line)
  {
    forall k :: 0 <= k < l.len ==> InBounds(CellOf(l, k).0, CellOf(l, k).1)
  }

  function LineTiles(g: Grid, l: Line): (ts: seq<Tile>)
    requires LineInBoard(l)
    ensures |ts| == l.len
  {
    seq(l.len, k requires 0 <= k < l.len => g[CellOf(l, k).0][CellOf(l, k).1])
  }

  function Min(a: int, b: int): int { if a < b then a else b }

  /** Up-right diagonals starting on row 0: `for x in range(MAX_X - 3)`. */
  function UpRightFromFloor(): seq<Line> { seq(5, i requires 0 <= i < 5 => Line((i, 0), UpRight, MaxX - i)) }
  /** Up-right diagonals starting in column 0: `for y in range(1, MAX_Y - 3)`. */
  function UpRightFromLeft(): seq<Line> { seq(8, j requires 0 <= j < 8 => Line((0, j + 1), UpRight, Min(MaxX, MaxY - (j + 1)))) }
  /** Up-left diagonals starting on row 0: `for x in range(MAX_X - 1, 2, -1)`. */
  function UpLeftFromFloor(): seq<Line> { seq(5, i requires 0 <= i < 5 => Line((MaxX - 1 - i, 0), UpLeft, MaxX - i)) }
  /** Up-left diagonals starting in column 7: `for y in range(1, MAX_Y - 3)`. */
  function UpLeftFromRight(): seq<Line> { seq(8, j requires 0 <= j < 8 => Line((MaxX - 1, j + 1), UpLeft, Min(MaxX, MaxY - (j + 1)))) }

  function DiagonalLines(): seq<Line>
  {
    UpRightFromFloor() + UpRightFromLeft() + UpLeftFromFloor() + UpLeftFromRight()
  }

  function RowLines(): seq<Line> { seq(MaxY, y => Line((0, y), Right, MaxX)) }
  function ColumnLines(): seq<Line> { seq(MaxX, x => Line((x, 0), Up, MaxY)) }

  /** The lines in the order `is_winning_board` scans them. */
  function AllLines(): seq<Line>
  {
    DiagonalLines() + RowLines() + ColumnLines()
  }

  predicate AllInBoard(lines: seq<Line>)
  {
    forall i :: 0 <= i < |lines| ==> LineInBoard(lines[i])
  }

  lemma AllLinesInBoard()
    ensures AllInBoard(UpRightFromFloor()) && AllInBoard(UpRightFromLeft())
    ensures AllInBoard(UpLeftFromFloor()) && AllInBoard(UpLeftFromRight())
    ensures AllInBoard(DiagonalLines()) && AllInBoard(RowLines()) && AllInBoard(ColumnLines())
    ensures AllInBoard(AllLines())
  {
    UpRightInBoard();
    UpLeftInBoard();
    StraightInBoard();
    var a, b, c, d := UpRightFromFloor(), UpRightFromLeft(), UpLeftFromFloor(), UpLeftFromRight();
    AppendInBoard(a, b);
    AppendInBoard(a + b, c);
    AppendInBoard(a + b + c, d);
    AppendInBoard(DiagonalLines(), RowLines());
    AppendInBoard(DiagonalLines() + RowLines(), ColumnLines());
  }

  lemma UpRightInBoard()
    ensures AllInBoard(UpRightFromFloor()) && AllInBoard(UpRightFromLeft())
  {
  }

  lemma UpLeftInBoard()
    ensures AllInBoard(UpLeftFromFloor()) && AllInBoard(UpLeftFromRight())
  {
  }

  lemma StraightInBoard()
    ensures AllInBoard(RowLines()) && AllInBoard(ColumnLines())
  {
  }

  lemma AppendInBoard(a: seq<Line>, b: seq<Line>)
    requires AllInBoard(a) && AllInBoard(b)
    ensures AllInBoard(a + b)
  {
    forall i | 0 <= i < |a + b| ensures LineInBoard((a + b)[i]) {
      if i < |a| { assert (a + b)[i] == a[i]; } else { assert (a + b)[i] == b[i - |a|]; }
    }
  }

  /** The first line of `lines`, in order, whose scan stops, with the counters it stopped at. */
  function FirstHit(g: Grid, lines: seq<Line>): Option<Counters>
    requires AllInBoard(lines)
  {
    if lines == [] then None
    else
      var h := ScanTiles(LineTiles(g, lines[0]));
      if h.Some? then h else FirstHit(g, lines[1..])
  }

  lemma {:induction false} FirstHitAppend(g: Grid, a: seq<Line>, b: seq<Line>)
    requires AllInBoard(a) && AllInBoard(b)
    ensures AllInBoard(a + b)
    ensures FirstHit(g, a + b) == if FirstHit(g, a).Some? then FirstHit(g, a) else FirstHit(g, b)
  {
    if a != [] {
      assert (a + b)[1..] == a[1..] + b;
      FirstHitAppend(g, a[1..], b);
    } else {
      assert a + b == b;
    }
  }

  /** Some line's scan stops iff the first-hit search finds a line, and a found line's
      counters always hit. */
  lemma {:induction false} FirstHitSome(g: Grid, lines: seq<Line>)
    requires AllInBoard(lines)
    ensures FirstHit(g, lines).Some? <==> exists i :: 0 <= i < |lines| && ScanTiles(LineTiles(g, lines[i])).Some?
    ensures FirstHit(g, lines).Some? ==> Hit(FirstHit(g, lines).value)
  {
    if lines != [] {
      FirstHitSome(g, lines[1..]);
      ScanHitsPrefix(LineTiles(g, lines[0]));
      if exists i :: 0 <= i < |lines| && ScanTiles(LineTiles(g, lines[i])).Some? {
        var i :| 0 <= i < |lines| && ScanTiles(LineTiles(g, lines[i])).Some?;
        if i > 0 { assert lines[1..][i - 1] == lines[i]; }
      }
    }
  }

  /** Scanning line by line: once the lines before `i` have not hit, line `i` either
      decides the search or extends the miss by one line. */
  lemma FirstHitPrefix(g: Grid, lines: seq<Line>, i: int)
    requires AllInBoard(lines) && 0 <= i < |lines|
    ensures AllInBoard(lines[..i]) && AllInBoard(lines[..i + 1])
    ensures FirstHit(g, lines[..i]).None? && ScanTiles(LineTiles(g, lines[i])).Some? ==>
      FirstHit(g, lines) == ScanTiles(LineTiles(g, lines[i]))
    ensures FirstHit(g, lines[..i]).None? && ScanTiles(LineTiles(g, lines[i])).None? ==>
      FirstHit(g, lines[..i + 1]).None?
  {
    assert AllInBoard(lines[..i]) && AllInBoard(lines[i..]) && AllInBoard([lines[i]]);
    assert lines == lines[..i] + lines[i..];
    assert lines[..i + 1] == lines[..i] + [lines[i]];
    FirstHitAppend(g, lines[..i], lines[i..]);
    FirstHitAppend(g, lines[..i], [lines[i]]);
    assert lines[i..][0] == lines[i];
  }

  // ---------------------------------------------------------------------
  // Windows: four cells in a straight line

  predicate WindowInBoard(x: int, y: int, d: Dir)
  {
    InBounds(x, y) && InBounds(x + Offset(d, 3).0, y + Offset(d, 3).1)
  }

  function Window(g: Grid, x: int, y: int, d: Dir): seq<Tile>
    requires WindowInBoard(x, y, d)
  {
    seq(4, k requires 0 <= k < 4 => g[x + Offset(d, k).0][y + Offset(d, k).1])
  }

  /** Some row, column or diagonal holds 4 consecutive tiles of one colour or one fill. */
  predicate AnyWin(g: Grid)
  {
    exists x, y, d | 0 <= x < MaxX && 0 <= y < MaxY :: WindowInBoard(x, y, d) && Run4(Window(g, x, y, d))
  }

  lemma LineWindow(g: Grid, l: Line, o: nat)
    requires LineInBoard(l) && o + 4 <= l.len
    ensures WindowInBoard(CellOf(l, o).0, CellOf(l, o).1, l.dir)
    ensures LineTiles(g, l)[o..o + 4] == Window(g, CellOf(l, o).0, CellOf(l, o).1, l.dir)
  {
    var c := CellOf(l, o);
    CellShift(l, o, 3);
    assert InBounds(CellOf(l, o + 3).0, CellOf(l, o + 3).1);
    var ts := LineTiles(g, l);
    forall k | 0 <= k < 4
      ensures ts[o..o + 4][k] == Window(g, c.0, c.1, l.dir)[k]
    {
      CellShift(l, o, k);
      assert ts[o..o + 4][k] == ts[o + k];
    }
  }

  /** Walking `k` cells further along a line adds the direction's offset. */
  lemma CellShift(l: Line, o: int, k: int)
    ensures CellOf(l, o + k) == (CellOf(l, o).0 + Offset(l.dir, k).0, CellOf(l, o).1 + Offset(l.dir, k).1)
  {
  }

  /** The scanned line at position `i` and offset `o` covers the window at (x, y). */
  predicate Covers(i: int, o: int, x: int, y: int, d: Dir)
  {
    0 <= i < |AllLines()| && 0 <= o && o + 4 <= AllLines()[i].len
    && CellOf(AllLines()[i], o) == (x, y) && AllLines()[i].dir == d
  }

  /** Vertical and horizontal windows lie in their column and row. */
  lemma CoverStraight(x: int, y: int, d: Dir) returns (i: nat, o: nat)
    requires WindowInBoard(x, y, d) && (d == Up || d == Right)
    ensures Covers(i, o, x, y, d)
  {
    var all := AllLines();
    if d == Up {
      i, o := 38 + x, y;
      assert all[i] == ColumnLines()[x];
    } else {
      i, o := 26 + y, x;
      assert all[i] == RowLines()[y];
    }
  }

  /** The first 26 scanned lines are the diagonals. */
  lemma AllLinesDiagonal(i: int)
    requires 0 <= i < 26
    ensures |DiagonalLines()| == 26 && AllLines()[i] == DiagonalLines()[i]
  {
  }

  /** The diagonal blocks in scan order: 5, 8, 5 and 8 lines. */
  lemma DiagonalAt(i: int)
    requires 0 <= i < 26
    ensures |DiagonalLines()| == 26
    ensures DiagonalLines()[i] ==
      if i < 5 then Line((i, 0), UpRight, MaxX - i)
      else if i < 13 then Line((0, i - 4), UpRight, Min(MaxX, MaxY - (i - 4)))
      else if i < 18 then Line((MaxX - 1 - (i - 13), 0), UpLeft, MaxX - (i - 13))
      else Line((MaxX - 1, i - 17), UpLeft, Min(MaxX, MaxY - (i - 17)))
  {
    var a, b, c, d := UpRightFromFloor(), UpRightFromLeft(), UpLeftFromFloor(), UpLeftFromRight();
    assert DiagonalLines() == a + b + c + d;
    if i < 5 {
      assert DiagonalLines()[i] == a[i];
    } else if i < 13 {
      assert DiagonalLines()[i] == b[i - 5];
    } else if i < 18 {
      assert DiagonalLines()[i] == c[i - 13];
    } else {
      assert DiagonalLines()[i] == d[i - 18];
    }
  }

  /** Up-right windows lie on the diagonal through their lower-left cell. */
  lemma CoverUpRight(x: int, y: int) returns (i: nat, o: nat)
    requires WindowInBoard(x, y, UpRight)
    ensures Covers(i, o, x, y, UpRight)
  {
    if x >= y {
      i, o := x - y, y;
    } else {
      i, o := 5 + (y - x - 1), x;
    }
    AllLinesDiagonal(i);
    DiagonalAt(i);
  }

  /** Up-left windows lie on the anti-diagonal through their lower-right cell. */
  lemma CoverUpLeft(x: int, y: int) returns (i: nat, o: nat)
    requires WindowInBoard(x, y, UpLeft)
    ensures Covers(i, o, x, y, UpLeft)
  {
    if x + y <= 7 {
      i, o := 13 + (7 - x - y), y;
    } else {
      i, o := 18 + (x + y - 8), 7 - x;
    }
    AllLinesDiagonal(i);
    DiagonalAt(i);
  }

  /** Every window on the board lies inside one of the scanned lines. */
  lemma Coverage(x: int, y: int, d: Dir) returns (i: nat, o: nat)
    requires WindowInBoard(x, y, d)
    ensures i < |AllLines()| && o + 4 <= AllLines()[i].len
    ensures CellOf(AllLines()[i], o) == (x, y) && AllLines()[i].dir == d
  {
    match d
    case UpRight => i, o := CoverUpRight(x, y);
    case UpLeft => i, o := CoverUpLeft(x, y);
    case _ => i, o := CoverStraight(x, y, d);
  }

  /** The scan over all lines stops iff the board holds a winning window. */
  lemma FirstHitIffWin(g: Grid)
    ensures AllInBoard(AllLines())
    ensures FirstHit(g, AllLines()).Some? <==> AnyWin(g)
  {
    AllLinesInBoard();
    var all := AllLines();
    FirstHitSome(g, all);
    if FirstHit(g, all).Some? {
      var i :| 0 <= i < |all| && ScanTiles(LineTiles(g, all[i])).Some?;
      var ts := LineTiles(g, all[i]);
      ScanIffRun(ts);
      var o :| RunAt(ts, o);
      LineWindow(g, all[i], o);
      var c := CellOf(all[i], o);
      assert WindowInBoard(c.0, c.1, all[i].dir) && Run4(Window(g, c.0, c.1, all[i].dir));
    }
    if AnyWin(g) {
      var x, y, d :| 0 <= x < MaxX && 0 <= y < MaxY && WindowInBoard(x, y, d) && Run4(Window(g, x, y, d));
      var i, o := Coverage(x, y, d);
      LineWindow(g, all[i], o);
      var ts := LineTiles(g, all[i]);
      assert RunAt(ts, o);
      ScanIffRun(ts);
    }
  }

  // ---------------------------------------------------------------------
  // Verdicts (board.py `is_winning_board`)

  /** The `any`-aggregated Result of the four counters. */
  function WinResult(c: Counters): (r: Result)
    ensures r.Success() <==> Hit(c)
  {
    var r := Result([("red", Flag(c.red == 4)), ("white", Flag(c.white == 4)),
                     ("full", Flag(c.full == 4)), ("open", Flag(c.open == 4))], Any);
    assert Hit(c) ==> exists i :: 0 <= i < 4 && Truthy(r.conditions[i].1) by {
      if c.red == 4 { assert Truthy(r.conditions[0].1); }
      if c.white == 4 { assert Truthy(r.conditions[1].1); }
      if c.full == 4 { assert Truthy(r.conditions[2].1); }
      if c.open == 4 { assert Truthy(r.conditions[3].1); }
    }
    r
  }

  function MapWin(h: Option<Counters>): Option<Result>
  {
    if h.Some? then Some(WinResult(h.value)) else None
  }

  const DrawResult: Result := Result([("draw", Text("number of moves"))], All)

  /** `is_winning_board`: a draw at 60 committed moves; otherwise the counters of the
      first line, in scan order, that holds a run of 4; `False` is None. */
  function Winning(g: Grid, numMoves: int): Option<Result>
  {
    AllLinesInBoard();
    if numMoves >= DrawMoves then Some(DrawResult) else MapWin(FirstHit(g, AllLines()))
  }

  /** At 60 moves the verdict is a successful draw; before that there is a verdict iff a
      row, column or diagonal holds four tiles of one colour or one fill, and a verdict is
      always a success. */
  lemma WinningIff(g: Grid, numMoves: int)
    ensures numMoves >= DrawMoves ==> Winning(g, numMoves) == Some(DrawResult) && DrawResult.Success()
    ensures numMoves < DrawMoves ==> (Winning(g, numMoves).Some? <==> AnyWin(g))
    ensures Winning(g, numMoves).Some? ==> Winning(g, numMoves).value.Success()
  {
    assert Truthy(DrawResult.conditions[0].1);
    FirstHitIffWin(g);
    FirstHitSome(g, AllLines());
  }
}
