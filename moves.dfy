/** Moves: the Add / Recycle value type, its text notation, its hash, and the move tree. */
module Moves {

  import opened Wrappers
  import opened Tiles

  /** The off-board default for the old positions of an Add move. */
  const NoPos: Pos := (-1, -1)

  /** A move is a value; equality is structural (kind, placement, anchor, old cells). */
  datatype Move =
    | Add(placement: PlacementId, x: int, y: int)
    | Recycle(placement: PlacementId, x: int, y: int, old1: Pos, old2: Pos)
  {
    function OldPos1(): Pos { if Recycle? then old1 else NoPos }
    function OldPos2(): Pos { if Recycle? then old2 else NoPos }
    /** KEY_GEN[0]: the anchor cell. */
    function Anchor(): Pos { (x, y) }
    /** KEY_GEN[1]: the second cell, (x + p % 2, y + (p + 1) % 2). */
    function Second(): Pos { (x + Dx(placement), y + Dy(placement)) }
    predicate InBoard() { WithinBounds(x, y, placement) }
  }

  /** The move tree produced by the generator: a mapping from move to subtree,
      kept in insertion order, or the flat list of moves at the deepest level. */
  datatype Tree = Node(children: seq<(Move, Tree)>) | Leaf(moves: seq<Move>)

  // ---------------------------------------------------------------------
  // Hash (board.py `Move.__hash__`)

  function Hash(m: Move): int
  {
    match m
    case Add(p, x, y) => x * 1000 + y * 10 + p
    case Recycle(p, x, y, o1, o2) =>
      x * 1_000_000_000 + y * 10_000_000 + p * 1_000_000 + o1.0 * 100_000 + o1.1 * 1000 + o2.0 * 100 + o2.1
  }

  /** Every coordinate of the move is a board coordinate. */
  predicate InRange(m: Move)
  {
    InBounds(m.x, m.y) && (m.Recycle? ==> InBounds(m.old1.0, m.old1.1) && InBounds(m.old2.0, m.old2.1))
  }

  /** Add hashes lie in 1..7118 and Recycle hashes in 1000000..7118711711
      (the source's comment gives 7118711710 as the upper end). */
  lemma HashRange(m: Move)
    requires InRange(m)
    ensures m.Add? ==> 1 <= Hash(m) <= 7118
    ensures m.Recycle? ==> 1_000_000 <= Hash(m) <= 7_118_711_711
  {
  }

  /** On board coordinates the hash is injective: two moves hash equally iff they are equal. */
  lemma HashInjective(m: Move, n: Move)
    requires InRange(m) && InRange(n)
    ensures Hash(m) == Hash(n) <==> m == n
  {
    HashRange(m);
    HashRange(n);
    if Hash(m) == Hash(n) && m.Add? && n.Add? {
      assert m.x == n.x;
      assert m.y == n.y;
    } else if Hash(m) == Hash(n) && m.Recycle? && n.Recycle? {
      assert m.x == n.x;
      assert m.y == n.y;
      assert m.placement == n.placement;
      assert m.old1.0 == n.old1.0;
      assert m.old1.1 == n.old1.1;
      assert m.old2.0 == n.old2.0;
    }
  }

  // ---------------------------------------------------------------------
  // Text notation (board.py `Move.__str__` and `Move.from_str`)

  const Letters: string := "ABCDEFGH"

  /** X_LETTERS_INVERSE; a column outside 0..7 has no letter. */
  function Letter(x: int): string
    requires 0 <= x < MaxX
  {
    [Letters[x]]
  }

  /** X_LETTERS: the column of a one-letter string "A".."H". */
  function ParseLetter(s: string): (r: Option<int>)
    ensures r.Some? ==> 0 <= r.value < MaxX && Letter(r.value) == s
  {
    if |s| == 1 && 'A' <= s[0] <= 'H' then Some(s[0] as int - 'A' as int) else None
  }

  lemma {:induction false} LetterRoundTrip(x: int)
    requires 0 <= x < MaxX
    ensures ParseLetter(Letter(x)) == Some(x)
  {
    assert Letters[x] as int - 'A' as int == x by {
      assert Letters == ['A', 'B', 'C', 'D', 'E', 'F', 'G', 'H'];
    }
  }

  predicate IsDigit(c: char) { '0' <= c <= '9' }

  /** Decimal notation of a natural number, most significant digit first. */
  function NatStr(n: nat): (s: string)
    ensures |s| > 0 && forall i :: 0 <= i < |s| ==> IsDigit(s[i])
    decreases n
  {
    if n < 10 then [('0' as int + n) as char] else NatStr(n / 10) + [('0' as int + n % 10) as char]
  }

  /** `str` of an int: a minus sign before a negative number. */
  function IntStr(n: int): string
  {
    if n < 0 then "-" + NatStr(-n) else NatStr(n)
  }

  /** The value of a non-empty string of decimal digits. */
  function ParseNat(s: string): (r: Option<nat>)
    ensures r.Some? <==> |s| > 0 && forall i :: 0 <= i < |s| ==> IsDigit(s[i])
  {
    if |s| == 0 || !IsDigit(s[|s| - 1]) then None
    else if |s| == 1 then Some(s[0] as int - '0' as int)
    else match ParseNat(s[..|s| - 1])
      case None => None
      case Some(v) => Some(v * 10 + (s[|s| - 1] as int - '0' as int))
  }

  /** `int` of a string, limited to an optional minus sign and decimal digits. */
  function ParseInt(s: string): Option<int>
  {
    if |s| > 0 && s[0] == '-' then
      match ParseNat(s[1..])
      case None => None
      case Some(v) => var k: int := v; Some(-k)
    else
      match ParseNat(s)
      case None => None
      case Some(v) => Some(v)
  }

  lemma {:induction false} NatRoundTrip(n: nat)
    ensures ParseNat(NatStr(n)) == Some(n)
    decreases n
  {
    if n >= 10 {
      var s := NatStr(n);
      assert s[..|s| - 1] == NatStr(n / 10);
      NatRoundTrip(n / 10);
    }
  }

  lemma IntRoundTrip(n: int)
    ensures ParseInt(IntStr(n)) == Some(n)
  {
    if n < 0 {
      NatRoundTrip(-n);
      assert IntStr(n)[1..] == NatStr(-n);
    } else {
      NatRoundTrip(n);
    }
  }

  /** Python's `str.split(' ')`: every single space separates two fields. */
  function Split(s: string): (parts: seq<string>)
    ensures |parts| >= 1
    decreases |s|
  {
    if ' ' !in s then [s]
    else
      var i := IndexOfSpace(s);
      [s[..i]] + Split(s[i + 1..])
  }

  function IndexOfSpace(s: string): (i: nat)
    requires ' ' in s
    ensures i < |s| && s[i] == ' ' && ' ' !in s[..i]
  {
    if s[0] == ' ' then 0 else
      assert ' ' in s[1..] by { var k :| 0 <= k < |s| && s[k] == ' '; assert s[1..][k - 1] == ' '; }
      var j := IndexOfSpace(s[1..]);
      assert s[..j + 1] == [s[0]] + s[1..][..j];
      j + 1
  }

  /** `' '.join(parts)`. */
  function Join(parts: seq<string>): string
    requires |parts| >= 1
  {
    if |parts| == 1 then parts[0] else parts[0] + " " + Join(parts[1..])
  }

  predicate NoSpace(s: string) { ' ' !in s }

  lemma {:induction false} SplitJoin(parts: seq<string>)
    requires |parts| >= 1
    requires forall i :: 0 <= i < |parts| ==> NoSpace(parts[i])
    ensures Split(Join(parts)) == parts
  {
    if |parts| > 1 {
      assert NoSpace(parts[0]);
      SplitJoin(parts[1..]);
      SplitField(parts[0], Join(parts[1..]));
      assert parts == [parts[0]] + parts[1..];
    } else {
      assert NoSpace(parts[0]);
    }
  }

  /** A field without a space, a space, and the rest split into the field and the rest's fields. */
  lemma SplitField(a: string, rest: string)
    requires NoSpace(a)
    ensures Split(a + " " + rest) == [a] + Split(rest)
  {
    var s := a + " " + rest;
    assert s[|a|] == ' ';
    var i := IndexOfSpace(s);
    assert i == |a|;
    assert s[..i] == a;
    assert s[i + 1..] == rest;
  }

  lemma NatStrNoSpace(n: nat)
    ensures NoSpace(NatStr(n))
  {
  }

  lemma IntStrNoSpace(n: int)
    ensures NoSpace(IntStr(n))
  {
    if n < 0 {
      NatStrNoSpace(-n);
      assert IntStr(n) == ['-'] + NatStr(-n);
    } else {
      NatStrNoSpace(n);
    }
  }

  /** The fields of a move's notation; the columns must have letters. */
  function Fields(m: Move): seq<string>
    requires 0 <= m.x < MaxX
    requires m.Recycle? ==> 0 <= m.old1.0 < MaxX && 0 <= m.old2.0 < MaxX
  {
    match m
    case Add(p, x, y) => ["0", NatStr(p), Letter(x), IntStr(y + 1)]
    case Recycle(p, x, y, o1, o2) =>
      [Letter(o1.0), IntStr(o1.1 + 1), Letter(o2.0), IntStr(o2.1 + 1), NatStr(p), Letter(x), IntStr(y + 1)]
  }

  /** `Move.__str__`: "0 p X y" for an Add, "X1 y1 X2 y2 p X y" for a Recycle, rows 1-based. */
  function ToStr(m: Move): string
    requires 0 <= m.x < MaxX
    requires m.Recycle? ==> 0 <= m.old1.0 < MaxX && 0 <= m.old2.0 < MaxX
  {
    Join(Fields(m))
  }

  /** `Move.from_str`; None where Python raises (wrong field count, unknown letter,
      a number it cannot read, or a placement that is not in the card table). */
  function FromStr(s: string): (r: Option<Move>)
    ensures r.Some? ==> 0 <= r.value.x < MaxX
    ensures r.Some? && r.value.Recycle? ==> 0 <= r.value.old1.0 < MaxX && 0 <= r.value.old2.0 < MaxX
  {
    var args := Split(s);
    if args[0] == "0" then
      if |args| != 4 then None else AddFromFields(ParseInt(args[1]), ParseLetter(args[2]), ParseInt(args[3]))
    else if |args| != 7 then None
    else RecycleFromFields(ParseLetter(args[0]), ParseInt(args[1]), ParseLetter(args[2]), ParseInt(args[3]),
                           ParseInt(args[4]), ParseLetter(args[5]), ParseInt(args[6]))
  }

  /** The Add built from parsed fields: rows are written 1-based. */
  function AddFromFields(p: Option<int>, x: Option<int>, y: Option<int>): (r: Option<Move>)
    ensures r.Some? ==> r.value.Add? && x.Some? && r.value.x == x.value
  {
    if p.Some? && x.Some? && y.Some? && 1 <= p.value <= 8 then Some(Add(p.value, x.value, y.value - 1)) else None
  }

  /** The Recycle built from parsed fields: old cell one, old cell two, then the new card. */
  function RecycleFromFields(ox1: Option<int>, oy1: Option<int>, ox2: Option<int>, oy2: Option<int>,
                             p: Option<int>, x: Option<int>, y: Option<int>): (r: Option<Move>)
    ensures r.Some? ==> r.value.Recycle? && x.Some? && ox1.Some? && ox2.Some?
    ensures r.Some? ==> r.value.x == x.value && r.value.old1.0 == ox1.value && r.value.old2.0 == ox2.value
  {
    if ox1.Some? && oy1.Some? && ox2.Some? && oy2.Some? && p.Some? && x.Some? && y.Some? && 1 <= p.value <= 8 then
      Some(Recycle(p.value, x.value, y.value - 1, (ox1.value, oy1.value - 1), (ox2.value, oy2.value - 1)))
    else None
  }

  /** No field of a move's notation holds a space. */
  lemma FieldsNoSpace(m: Move)
    requires 0 <= m.x < MaxX
    requires m.Recycle? ==> 0 <= m.old1.0 < MaxX && 0 <= m.old2.0 < MaxX
    ensures forall i :: 0 <= i < |Fields(m)| ==> NoSpace(Fields(m)[i])
  {
    NatStrNoSpace(m.placement);
    IntStrNoSpace(m.y + 1);
    LetterNoSpace(m.x);
    match m
    case Add(p, x, y) =>
      var f := ["0", NatStr(p), Letter(x), IntStr(y + 1)];
      assert Fields(m) == f;
      assert NoSpace(f[0]);
      NoSpaceFields(f);
    case Recycle(p, x, y, o1, o2) =>
      IntStrNoSpace(o1.1 + 1);
      IntStrNoSpace(o2.1 + 1);
      LetterNoSpace(o1.0);
      LetterNoSpace(o2.0);
      var f := [Letter(o1.0), IntStr(o1.1 + 1), Letter(o2.0), IntStr(o2.1 + 1), NatStr(p), Letter(x), IntStr(y + 1)];
      assert Fields(m) == f;
      NoSpaceFields(f);
  }

  /** Lifts the field-by-field fact to the quantified form. */
  lemma NoSpaceFields(f: seq<string>)
    requires |f| == 4 || |f| == 7
    requires NoSpace(f[0]) && NoSpace(f[1]) && NoSpace(f[2]) && NoSpace(f[3])
    requires |f| == 7 ==> NoSpace(f[4]) && NoSpace(f[5]) && NoSpace(f[6])
    ensures forall i :: 0 <= i < |f| ==> NoSpace(f[i])
  {
  }

  lemma LetterNoSpace(x: int)
    requires 0 <= x < MaxX
    ensures NoSpace(Letter(x))
  {
    assert Letter(x)[0] == Letters[x] != ' ';
  }

  /** The fields of an Add parse back to the Add. */
  lemma AddFieldsParse(m: Move)
    requires m.Add? && 0 <= m.x < MaxX
    ensures AddFromFields(ParseInt(NatStr(m.placement)), ParseLetter(Letter(m.x)), ParseInt(IntStr(m.y + 1))) == Some(m)
  {
    assert NatStr(m.placement) == IntStr(m.placement);
    IntRoundTrip(m.placement);
    IntRoundTrip(m.y + 1);
    LetterRoundTrip(m.x);
  }

  /** The fields of a Recycle parse back to the Recycle. */
  lemma RecycleFieldsParse(m: Move)
    requires m.Recycle? && 0 <= m.x < MaxX && 0 <= m.old1.0 < MaxX && 0 <= m.old2.0 < MaxX
    ensures RecycleFromFields(ParseLetter(Letter(m.old1.0)), ParseInt(IntStr(m.old1.1 + 1)),
                              ParseLetter(Letter(m.old2.0)), ParseInt(IntStr(m.old2.1 + 1)),
                              ParseInt(NatStr(m.placement)), ParseLetter(Letter(m.x)), ParseInt(IntStr(m.y + 1))) == Some(m)
  {
    assert NatStr(m.placement) == IntStr(m.placement);
    IntRoundTrip(m.placement);
    IntRoundTrip(m.y + 1);
    IntRoundTrip(m.old1.1 + 1);
    IntRoundTrip(m.old2.1 + 1);
    LetterRoundTrip(m.x);
    LetterRoundTrip(m.old1.0);
    LetterRoundTrip(m.old2.0);
  }

  /** Parsing the notation of a move gives the move back, for every move whose columns have letters. */
  lemma FromStrToStr(m: Move)
    requires 0 <= m.x < MaxX
    requires m.Recycle? ==> 0 <= m.old1.0 < MaxX && 0 <= m.old2.0 < MaxX
    ensures FromStr(ToStr(m)) == Some(m)
  {
    var f := Fields(m);
    FieldsNoSpace(m);
    SplitJoin(f);
    assert Split(ToStr(m)) == f;
    if m.Add? {
      AddFieldsParse(m);
    } else {
      LetterRoundTrip(m.old1.0);
      assert f[0] != "0";
      RecycleFieldsParse(m);
    }
  }
}
