/** The search of minimax.py: a depth-first walk of the move tree that scores every deepest
    path with the evaluator and keeps, level by level, the entry with the minimum or the
    maximum score. */
module Search {

  import opened Wrappers
  import opened Moves
  import opened Dicts

  /** The evaluator `informed(board, path, condition)` on the board being searched. */
  type Evaluator = (seq<Move>, int) -> real

  /** An item of `sub_results`: a score and the path that reached it. */
  type Entry = (real, seq<Move>)

  /** `_condition_for_level`: 0 where the level minimises, 1 where it maximises; a player
      who plays for 'full' flips every level. */
  function Cond(level: int, winFull: bool): (c: int)
    ensures c == 0 || c == 1
  {
    (level + if winFull then 1 else 0) % 2
  }

  /** Consecutive levels alternate, and the two win conditions disagree on every level. */
  lemma CondAlternates(level: int, winFull: bool)
    ensures Cond(level + 1, winFull) == 1 - Cond(level, winFull)
    ensures Cond(level, !winFull) == 1 - Cond(level, winFull)
  {
    var b := if winFull then 1 else 0;
    var b' := if !winFull then 1 else 0;
    assert (level + 1 + b) % 2 == 1 - (level + b) % 2;
    assert (level + b') % 2 == 1 - (level + b) % 2 by {
      if winFull {
        assert level + b == level + 1;
      } else {
        assert level + b' == level + 1;
      }
    }
  }

  /** Score `a` is at least as good as `b` for the side that plays condition `c`. */
  predicate Beats(c: int, a: real, b: real)
  {
    if c == 0 then a <= b else a >= b
  }

  /** `_min_max`: `min` of the items under condition 0, `max` under 1; None where Python
      raises on an empty dict. */
  function MinMax(c: int, items: seq<Entry>): (r: Option<Entry>)
    requires c == 0 || c == 1
    ensures r.None? <==> |items| == 0
    ensures r.Some? ==> r.value in items
    ensures r.Some? ==> forall i :: 0 <= i < |items| ==> Beats(c, r.value.0, items[i].0)
    decreases |items|
  {
    if |items| == 0 then None
    else
      match MinMax(c, items[1..])
      case None => Some(items[0])
      case Some(b) =>
        assert forall i :: 1 <= i < |items| ==> items[i] == items[1..][i - 1];
        if (c == 0 && b.0 < items[0].0) || (c == 1 && b.0 > items[0].0) then Some(b) else Some(items[0])
  }

  /** Keyed by score, `sub_results` holds one entry per score, so the winner is the only
      entry with its score. */
  lemma MinMaxUnique(c: int, items: seq<Entry>, i: int)
    requires c == 0 || c == 1
    requires DistinctKeys(items) && 0 <= i < |items| && MinMax(c, items).Some?
    requires items[i].0 == MinMax(c, items).value.0
    ensures items[i] == MinMax(c, items).value
  {
    var r := MinMax(c, items).value;
    var j :| 0 <= j < |items| && items[j] == r;
  }

  // ---------------------------------------------------------------------
  // The scores of a leaf list

  /** The dict comprehension at the deepest level: each listed move's path, keyed by its
      score, inserted in list order. */
  function LeafItems(eval: Evaluator, path: seq<Move>, ms: seq<Move>, c: int): (d: seq<Entry>)
    ensures DistinctKeys(d)
  {
    if ms == [] then []
    else
      var m := ms[|ms| - 1];
      Put(LeafItems(eval, path, ms[..|ms| - 1], c), eval(path + [m], c), path + [m])
  }

  /** An entry survives `Put` unless its key was overwritten. */
  lemma PutEntries(d: seq<Entry>, k: real, v: seq<Move>, en: Entry)
    requires DistinctKeys(d)
    ensures en in Put(d, k, v) <==> en == (k, v) || (en.0 != k && en in d)
  {
    var r := Put(d, k, v);
    if en in r {
      var i :| 0 <= i < |r| && r[i] == en;
    }
    if en == (k, v) {
      assert HasKey(r, k);
      var i :| 0 <= i < |r| && r[i].0 == k;
      assert r[i] == (k, v);
    }
    if en.0 != k && en in d {
      var i :| 0 <= i < |d| && d[i] == en;
      assert r[i] == en;
    }
  }

  /** Entry `en` is the path through the `j`-th listed move with its score, and no later
      listed move scores the same. */
  predicate LastWith(eval: Evaluator, path: seq<Move>, ms: seq<Move>, c: int, j: int, en: Entry)
  {
    0 <= j < |ms| && en == (eval(path + [ms[j]], c), path + [ms[j]])
    && forall j' :: j < j' < |ms| ==> eval(path + [ms[j']], c) != en.0
  }

  /** Equal scores collapse and the last listed move with a score keeps it: an entry is in
      the leaf's items iff it is the path through a listed move that no later listed move
      matches in score. */
  lemma LeafItemsLastWins(eval: Evaluator, path: seq<Move>, ms: seq<Move>, c: int, en: Entry)
    ensures en in LeafItems(eval, path, ms, c) <==> exists j :: LastWith(eval, path, ms, c, j, en)
  {
    if en in LeafItems(eval, path, ms, c) {
      var j := LeafEntryIsLast(eval, path, ms, c, en);
    }
    if exists j :: LastWith(eval, path, ms, c, j, en) {
      var j :| LastWith(eval, path, ms, c, j, en);
      LastIsLeafEntry(eval, path, ms, c, j, en);
    }
  }

  lemma {:induction false} LeafEntryIsLast(eval: Evaluator, path: seq<Move>, ms: seq<Move>, c: int, en: Entry)
    returns (j: int)
    requires en in LeafItems(eval, path, ms, c)
    ensures LastWith(eval, path, ms, c, j, en)
  {
    var n := |ms| - 1;
    var ms' := ms[..n];
    var k := eval(path + [ms[n]], c);
    PutEntries(LeafItems(eval, path, ms', c), k, path + [ms[n]], en);
    if en == (k, path + [ms[n]]) {
      j := n;
    } else {
      j := LeafEntryIsLast(eval, path, ms', c, en);
      assert ms'[j] == ms[j];
      forall j' | j < j' < |ms| ensures eval(path + [ms[j']], c) != en.0 {
        if j' < n {
          assert ms'[j'] == ms[j'];
        }
      }
    }
  }

  lemma {:induction false} LastIsLeafEntry(eval: Evaluator, path: seq<Move>, ms: seq<Move>, c: int, j: int, en: Entry)
    requires LastWith(eval, path, ms, c, j, en)
    ensures en in LeafItems(eval, path, ms, c)
  {
    var n := |ms| - 1;
    var ms' := ms[..n];
    var k := eval(path + [ms[n]], c);
    PutEntries(LeafItems(eval, path, ms', c), k, path + [ms[n]], en);
    if j < n {
      assert en.0 != k;
      assert ms'[j] == ms[j];
      forall j' | j < j' < |ms'| ensures eval(path + [ms'[j']], c) != en.0 {
        assert ms'[j'] == ms[j'];
      }
      LastIsLeafEntry(eval, path, ms', c, j, en);
    }
  }

  /** Every listed move's score is a key of the leaf's items. */
  lemma {:induction false} LeafItemsKeys(eval: Evaluator, path: seq<Move>, ms: seq<Move>, c: int, j: int)
    requires 0 <= j < |ms|
    ensures HasKey(LeafItems(eval, path, ms, c), eval(path + [ms[j]], c))
  {
    var n := |ms| - 1;
    var d := LeafItems(eval, path, ms[..n], c);
    PutKeys(d, eval(path + [ms[n]], c), path + [ms[n]], eval(path + [ms[j]], c));
    if j < n {
      LeafItemsKeys(eval, path, ms[..n], c, j);
      assert ms[..n][j] == ms[j];
    }
  }

  // ---------------------------------------------------------------------
  // The search

  /** `_evaluate` on a subtree reached by `path` at `level`: the best entry, or None where
      Python raises. */
  function Best(winFull: bool, eval: Evaluator, t: Tree, path: seq<Move>, level: int): Option<Entry>
    decreases t, 1, 0
  {
    match t
    case Leaf(ms) => MinMax(Cond(level, winFull), LeafItems(eval, path, ms, Cond(level, winFull)))
    case Node(ch) =>
      match SubResults(winFull, eval, t, path, level, |ch|)
      case None => None
      case Some(r) => MinMax(Cond(level, winFull), r.0)
  }

  /** The loop over the first `i` children of a node: `sub_results` and the scores in
      visiting order, or None once a child raises. */
  function SubResults(winFull: bool, eval: Evaluator, t: Tree, path: seq<Move>, level: int, i: int)
    : (r: Option<(seq<Entry>, seq<real>)>)
    requires t.Node? && 0 <= i <= |t.children|
    ensures r.Some? ==> DistinctKeys(r.value.0) && |r.value.1| == i
    decreases t, 0, i
  {
    if i == 0 then Some(([], []))
    else
      match SubResults(winFull, eval, t, path, level, i - 1)
      case None => None
      case Some(r) =>
        var (m, sub) := t.children[i - 1];
        match Best(winFull, eval, sub, path + [m], level + 1)
        case None => None
        case Some(er) => Some((Put(r.0, er.0, er.1), r.1 + [er.0]))
  }

  /** One more child that does not raise: its score keys its path, and its evaluations add up. */
  lemma SubResultsNext(winFull: bool, eval: Evaluator, t: Tree, path: seq<Move>, level: int, i: int,
                       items: seq<Entry>, scores: seq<real>, er: Entry)
    requires t.Node? && 0 <= i < |t.children|
    requires SubResults(winFull, eval, t, path, level, i) == Some((items, scores))
    requires Best(winFull, eval, t.children[i].1, path + [t.children[i].0], level + 1) == Some(er)
    ensures SubResults(winFull, eval, t, path, level, i + 1) == Some((Put(items, er.0, er.1), scores + [er.0]))
    ensures EvalsTo(t, i + 1) == EvalsTo(t, i) + Evals(t.children[i].1)
  {
  }

  /** The loop after `i` children that did not raise: the first `i - 1` did not raise either,
      and child `i - 1`'s result was put last. */
  lemma SubResultsLast(winFull: bool, eval: Evaluator, t: Tree, path: seq<Move>, level: int, i: int)
    requires t.Node? && 0 < i <= |t.children| && SubResults(winFull, eval, t, path, level, i).Some?
    ensures SubResults(winFull, eval, t, path, level, i - 1).Some?
    ensures Best(winFull, eval, t.children[i - 1].1, path + [t.children[i - 1].0], level + 1).Some?
    ensures var er := Best(winFull, eval, t.children[i - 1].1, path + [t.children[i - 1].0], level + 1).value;
            SubResults(winFull, eval, t, path, level, i).value.0
            == Put(SubResults(winFull, eval, t, path, level, i - 1).value.0, er.0, er.1)
  {
  }

  /** The counters after one more child that does not raise: `evals` and `level2` are
      `_num_evals` and `_level_2_nodes` once the child's own search has returned. */
  lemma ChildStep(winFull: bool, eval: Evaluator, t: Tree, path: seq<Move>, level: int, i: int,
                  items: seq<Entry>, scores: seq<real>, er: Entry,
                  evals0: int, evals: int, level20: seq<real>, level2: seq<real>)
    requires t.Node? && 0 <= i < |t.children| && level >= 1
    requires SubResults(winFull, eval, t, path, level, i) == Some((items, scores))
    requires Best(winFull, eval, t.children[i].1, path + [t.children[i].0], level + 1) == Some(er)
    requires evals == evals0 + EvalsTo(t, i) + Evals(t.children[i].1)
    requires level2 == level20 + (if level == 1 then scores else [])
                      + Level2(winFull, eval, t.children[i].1, path + [t.children[i].0], level + 1)
    ensures SubResults(winFull, eval, t, path, level, i + 1) == Some((Put(items, er.0, er.1), scores + [er.0]))
    ensures evals == evals0 + EvalsTo(t, i + 1)
    ensures level2 + (if level == 1 then [er.0] else []) == level20 + (if level == 1 then scores + [er.0] else [])
  {
    SubResultsNext(winFull, eval, t, path, level, i, items, scores, er);
    if level == 1 {
      AppendOne(level20, scores, er.0);
    }
  }

  /** Entry `en` is the result of child `j`, and no later child among the first `i` scores
      the same: the node counterpart of `LastWith`. */
  predicate ChildLastWith(winFull: bool, eval: Evaluator, t: Tree, path: seq<Move>, level: int, i: int, j: int, en: Entry)
    requires t.Node? && i <= |t.children|
  {
    0 <= j < i && Best(winFull, eval, t.children[j].1, path + [t.children[j].0], level + 1) == Some(en)
    && forall j' :: j < j' < i ==>
         Best(winFull, eval, t.children[j'].1, path + [t.children[j'].0], level + 1).Some?
         && Best(winFull, eval, t.children[j'].1, path + [t.children[j'].0], level + 1).value.0 != en.0
  }

  /** Equal child scores collapse in `sub_results` and the last child visited with a score
      keeps it: an entry is in `sub_results` after `i` children iff it is the result of one
      of them that no later one matches in score. */
  lemma SubResultsLastWins(winFull: bool, eval: Evaluator, t: Tree, path: seq<Move>, level: int, i: int, en: Entry)
    requires t.Node? && 0 <= i <= |t.children| && SubResults(winFull, eval, t, path, level, i).Some?
    ensures en in SubResults(winFull, eval, t, path, level, i).value.0
            <==> exists j :: ChildLastWith(winFull, eval, t, path, level, i, j, en)
  {
    if en in SubResults(winFull, eval, t, path, level, i).value.0 {
      var j := EntryFromChild(winFull, eval, t, path, level, i, en);
    }
    if exists j :: ChildLastWith(winFull, eval, t, path, level, i, j, en) {
      var j :| ChildLastWith(winFull, eval, t, path, level, i, j, en);
      ChildEntryKept(winFull, eval, t, path, level, i, j, en);
    }
  }

  lemma {:induction false} EntryFromChild(winFull: bool, eval: Evaluator, t: Tree, path: seq<Move>, level: int, i: int, en: Entry)
    returns (j: int)
    requires t.Node? && 0 <= i <= |t.children| && SubResults(winFull, eval, t, path, level, i).Some?
    requires en in SubResults(winFull, eval, t, path, level, i).value.0
    ensures ChildLastWith(winFull, eval, t, path, level, i, j, en)
    decreases i
  {
    if i == 0 {
      assert false;
    }
    SubResultsLast(winFull, eval, t, path, level, i);
    var r := SubResults(winFull, eval, t, path, level, i - 1).value;
    var er := Best(winFull, eval, t.children[i - 1].1, path + [t.children[i - 1].0], level + 1).value;
    PutEntries(r.0, er.0, er.1, en);
    if en == er {
      j := i - 1;
    } else {
      j := EntryFromChild(winFull, eval, t, path, level, i - 1, en);
      LastWithGrows(winFull, eval, t, path, level, i - 1, i, j, er, en);
    }
  }

  lemma {:induction false} ChildEntryKept(winFull: bool, eval: Evaluator, t: Tree, path: seq<Move>, level: int, i: int, j: int, en: Entry)
    requires t.Node? && 0 <= i <= |t.children| && SubResults(winFull, eval, t, path, level, i).Some?
    requires ChildLastWith(winFull, eval, t, path, level, i, j, en)
    ensures en in SubResults(winFull, eval, t, path, level, i).value.0
    decreases i
  {
    SubResultsLast(winFull, eval, t, path, level, i);
    var r := SubResults(winFull, eval, t, path, level, i - 1).value;
    var er := Best(winFull, eval, t.children[i - 1].1, path + [t.children[i - 1].0], level + 1).value;
    PutEntries(r.0, er.0, er.1, en);
    if j < i - 1 {
      LastWithShrinks(winFull, eval, t, path, level, i - 1, i, j, er, en);
      ChildEntryKept(winFull, eval, t, path, level, i - 1, j, en);
    }
  }

  /** A later child `n` with another score keeps `en` the last with its score. */
  lemma LastWithGrows(winFull: bool, eval: Evaluator, t: Tree, path: seq<Move>, level: int, n: int, i: int, j: int,
                      er: Entry, en: Entry)
    requires t.Node? && 0 <= n < |t.children| && i == n + 1
    requires Best(winFull, eval, t.children[n].1, path + [t.children[n].0], level + 1) == Some(er) && er.0 != en.0
    requires ChildLastWith(winFull, eval, t, path, level, n, j, en)
    ensures ChildLastWith(winFull, eval, t, path, level, i, j, en)
  {
  }

  /** Dropping the last child `n`, which `en` does not come from, keeps `en` the last with its
      score, and `n` scores differently. */
  lemma LastWithShrinks(winFull: bool, eval: Evaluator, t: Tree, path: seq<Move>, level: int, n: int, i: int, j: int,
                        er: Entry, en: Entry)
    requires t.Node? && 0 <= n < |t.children| && i == n + 1 && j < n
    requires Best(winFull, eval, t.children[n].1, path + [t.children[n].0], level + 1) == Some(er)
    requires ChildLastWith(winFull, eval, t, path, level, i, j, en)
    ensures er.0 != en.0 && ChildLastWith(winFull, eval, t, path, level, n, j, en)
  {
  }

  /** A node's result is the result of one of its children, the last child visited with
      that score. */
  lemma NodeIsChild(winFull: bool, eval: Evaluator, t: Tree, path: seq<Move>, level: int)
    requires t.Node? && Best(winFull, eval, t, path, level).Some?
    ensures exists j :: ChildLastWith(winFull, eval, t, path, level, |t.children|, j, Best(winFull, eval, t, path, level).value)
  {
    SubResultsLastWins(winFull, eval, t, path, level, |t.children|, Best(winFull, eval, t, path, level).value);
  }

  /** The scores the loop collects are the children's scores, in visiting order. */
  lemma {:induction false} SubResultsScores(winFull: bool, eval: Evaluator, t: Tree, path: seq<Move>, level: int, i: int, j: int)
    requires t.Node? && 0 <= j < i <= |t.children| && SubResults(winFull, eval, t, path, level, i).Some?
    ensures Best(winFull, eval, t.children[j].1, path + [t.children[j].0], level + 1).Some?
    ensures SubResults(winFull, eval, t, path, level, i).value.1[j]
            == Best(winFull, eval, t.children[j].1, path + [t.children[j].0], level + 1).value.0
    decreases i
  {
    if j < i - 1 {
      SubResultsScores(winFull, eval, t, path, level, i - 1, j);
    }
  }

  /** Once a child raises, the whole loop raises. */
  lemma {:induction false} SubResultsRaises(winFull: bool, eval: Evaluator, t: Tree, path: seq<Move>, level: int, i: int, i': int)
    requires t.Node? && 0 <= i <= i' <= |t.children| && SubResults(winFull, eval, t, path, level, i).None?
    ensures SubResults(winFull, eval, t, path, level, i').None?
    decreases i' - i
  {
    if i < i' {
      SubResultsRaises(winFull, eval, t, path, level, i, i' - 1);
    }
  }

  lemma AppendOne(a: seq<real>, b: seq<real>, x: real)
    ensures (a + b) + [x] == a + (b + [x])
  {
  }

  /** The evaluations the walk makes: one per move in every leaf list. */
  function Evals(t: Tree): nat
    decreases t, 1, 0
  {
    match t
    case Leaf(ms) => |ms|
    case Node(ch) => EvalsTo(t, |ch|)
  }

  function EvalsTo(t: Tree, i: int): nat
    requires t.Node? && 0 <= i <= |t.children|
    decreases t, 0, i
  {
    if i == 0 then 0 else EvalsTo(t, i - 1) + Evals(t.children[i - 1].1)
  }

  /** What `_level_2_nodes` receives from one call: the score of every child, in order, at
      level 1, and nothing below it. */
  function Level2(winFull: bool, eval: Evaluator, t: Tree, path: seq<Move>, level: int): seq<real>
  {
    if level == 1 && t.Node? && SubResults(winFull, eval, t, path, level, |t.children|).Some? then
      SubResults(winFull, eval, t, path, level, |t.children|).value.1
    else []
  }

  /** At level 1 there is one score per root child, the child's own result score, in order. */
  lemma Level2PerChild(winFull: bool, eval: Evaluator, t: Tree, path: seq<Move>)
    requires t.Node? && Best(winFull, eval, t, path, 1).Some?
    ensures |Level2(winFull, eval, t, path, 1)| == |t.children|
    ensures forall j :: 0 <= j < |t.children| ==>
      Best(winFull, eval, t.children[j].1, path + [t.children[j].0], 2).Some? &&
      Level2(winFull, eval, t, path, 1)[j] == Best(winFull, eval, t.children[j].1, path + [t.children[j].0], 2).value.0
    ensures forall level :: level != 1 ==> Level2(winFull, eval, t, path, level) == []
  {
    forall j | 0 <= j < |t.children|
      ensures Best(winFull, eval, t.children[j].1, path + [t.children[j].0], 2).Some?
      ensures Level2(winFull, eval, t, path, 1)[j] == Best(winFull, eval, t.children[j].1, path + [t.children[j].0], 2).value.0
    {
      SubResultsScores(winFull, eval, t, path, 1, |t.children|, j);
    }
  }

  // ---------------------------------------------------------------------
  // What the search returns

  /** Every path from the root of `t` to a leaf move has `d` moves. */
  predicate Uniform(t: Tree, d: int)
    decreases t
  {
    match t
    case Leaf(_) => d == 1
    case Node(ch) => d > 1 && forall i :: 0 <= i < |ch| ==> Uniform(ch[i].1, d - 1)
  }

  /** Move `m` is one the tree offers first: a listed leaf move or a child key. */
  predicate Offers(t: Tree, m: Move)
  {
    match t
    case Leaf(ms) => m in ms
    case Node(ch) => exists i :: 0 <= i < |ch| && ch[i].0 == m
  }

  /** A search entry reached from `path` at `level` in a tree of depth `d`: its path extends
      `path` by `d` moves, the first of them offered by the tree, and its score is the
      evaluation of that path under the condition of the leaf's level. */
  predicate Reached(winFull: bool, eval: Evaluator, t: Tree, path: seq<Move>, level: int, d: int, en: Entry)
  {
    |en.1| == |path| + d && d >= 1 && en.1[..|path|] == path && Offers(t, en.1[|path|])
    && en.0 == eval(en.1, Cond(level + d - 1, winFull))
  }

  lemma LeafReached(winFull: bool, eval: Evaluator, ms: seq<Move>, path: seq<Move>, level: int)
    requires Best(winFull, eval, Leaf(ms), path, level).Some?
    ensures Reached(winFull, eval, Leaf(ms), path, level, 1, Best(winFull, eval, Leaf(ms), path, level).value)
  {
    var c := Cond(level, winFull);
    var en := Best(winFull, eval, Leaf(ms), path, level).value;
    var j := LeafEntryIsLast(eval, path, ms, c, en);
    assert en.1[..|path|] == path && en.1[|path|] == ms[j];
  }

  /** An entry of `sub_results` came through a child, one level down. */
  lemma {:induction false} SubResultsReached(winFull: bool, eval: Evaluator, t: Tree, path: seq<Move>, level: int, d: int, i: int, en: Entry)
    requires t.Node? && Uniform(t, d) && 0 <= i <= |t.children|
    requires SubResults(winFull, eval, t, path, level, i).Some? && en in SubResults(winFull, eval, t, path, level, i).value.0
    ensures Reached(winFull, eval, t, path, level, d, en)
    decreases t, 0, i
  {
    var j := EntryFromChild(winFull, eval, t, path, level, i, en);
    var (m, sub) := t.children[j];
    SearchReached(winFull, eval, sub, path + [m], level + 1, d - 1);
    ChildReached(winFull, eval, t, path, level, d, j, en);
  }

  /** An entry reached through child `i`, one level down, is reached from the node. */
  lemma ChildReached(winFull: bool, eval: Evaluator, t: Tree, path: seq<Move>, level: int, d: int, i: int, en: Entry)
    requires t.Node? && 0 <= i < |t.children|
    requires Reached(winFull, eval, t.children[i].1, path + [t.children[i].0], level + 1, d - 1, en)
    ensures Reached(winFull, eval, t, path, level, d, en)
  {
    var m := t.children[i].0;
    assert en.1[..|path| + 1] == path + [m];
    assert en.1[..|path|] == en.1[..|path| + 1][..|path|];
    assert en.1[|path|] == m;
  }

  /** In a tree whose leaves all lie `d` moves down, the search returns a path of `d` more
      moves through a move the tree offers, scored by the evaluator at the leaf's
      condition; from the root this makes the path's first move a root move. */
  lemma {:induction false} SearchReached(winFull: bool, eval: Evaluator, t: Tree, path: seq<Move>, level: int, d: int)
    requires Uniform(t, d)
    ensures Best(winFull, eval, t, path, level).Some? ==>
      Reached(winFull, eval, t, path, level, d, Best(winFull, eval, t, path, level).value)
    decreases t, 1, 0
  {
    if Best(winFull, eval, t, path, level).Some? {
      match t
      case Leaf(ms) =>
        LeafReached(winFull, eval, ms, path, level);
      case Node(ch) =>
        var r := SubResults(winFull, eval, t, path, level, |ch|).value;
        SubResultsReached(winFull, eval, t, path, level, d, |ch|, Best(winFull, eval, t, path, level).value);
    }
  }

  /** The minimax rule at a node: the node's score is at least as good, for the side to
      move, as the score of every child. */
  lemma NodeBeatsChildren(winFull: bool, eval: Evaluator, t: Tree, path: seq<Move>, level: int, i: int)
    requires t.Node? && 0 <= i < |t.children| && Best(winFull, eval, t, path, level).Some?
    ensures Best(winFull, eval, t.children[i].1, path + [t.children[i].0], level + 1).Some?
    ensures Beats(Cond(level, winFull), Best(winFull, eval, t, path, level).value.0,
                  Best(winFull, eval, t.children[i].1, path + [t.children[i].0], level + 1).value.0)
  {
    var n := |t.children|;
    var items := SubResults(winFull, eval, t, path, level, n).value.0;
    ChildInSubResults(winFull, eval, t, path, level, n, i);
    var e := Best(winFull, eval, t.children[i].1, path + [t.children[i].0], level + 1).value.0;
    var k :| 0 <= k < |items| && items[k].0 == e;
  }

  /** A child before `i` that did not raise left its score as a key of `sub_results`. */
  lemma {:induction false} ChildInSubResults(winFull: bool, eval: Evaluator, t: Tree, path: seq<Move>, level: int, i: int, j: int)
    requires t.Node? && 0 <= j < i <= |t.children| && SubResults(winFull, eval, t, path, level, i).Some?
    ensures Best(winFull, eval, t.children[j].1, path + [t.children[j].0], level + 1).Some?
    ensures HasKey(SubResults(winFull, eval, t, path, level, i).value.0,
                   Best(winFull, eval, t.children[j].1, path + [t.children[j].0], level + 1).value.0)
    decreases i
  {
    var r := SubResults(winFull, eval, t, path, level, i - 1).value;
    var (m, sub) := t.children[i - 1];
    var er := Best(winFull, eval, sub, path + [m], level + 1).value;
    var e := Best(winFull, eval, t.children[j].1, path + [t.children[j].0], level + 1);
    if j < i - 1 {
      ChildInSubResults(winFull, eval, t, path, level, i - 1, j);
    }
    PutKeys(r.0, er.0, er.1, e.value.0);
  }

  /** The minimax rule at a leaf list: the score is at least as good as every listed move's. */
  lemma LeafBeatsMoves(winFull: bool, eval: Evaluator, ms: seq<Move>, path: seq<Move>, level: int, j: int)
    requires 0 <= j < |ms| && Best(winFull, eval, Leaf(ms), path, level).Some?
    ensures Beats(Cond(level, winFull), Best(winFull, eval, Leaf(ms), path, level).value.0,
                  eval(path + [ms[j]], Cond(level, winFull)))
  {
    var c := Cond(level, winFull);
    var items := LeafItems(eval, path, ms, c);
    LeafItemsKeys(eval, path, ms, c, j);
    var k :| 0 <= k < |items| && items[k].0 == eval(path + [ms[j]], c);
  }

  // ---------------------------------------------------------------------
  // The searcher object

  /** `MiniMax`: the win condition it plays for and the two counters `_trace` reports. */
  class MiniMax {
    var numEvals: int
    var level2Nodes: seq<real>
    const winFull: bool

    /** `MiniMax(win_condition)`: counters reset; 'full' among the conditions flips the levels. */
    constructor (winCondition: seq<string>)
      ensures numEvals == 0 && level2Nodes == [] && winFull == ("full" in winCondition)
    {
      winFull := "full" in winCondition;
      numEvals := 0;
      level2Nodes := [];
    }

    /** `_reset`. */
    method Reset()
      modifies this
      ensures numEvals == 0 && level2Nodes == []
    {
      numEvals := 0;
      level2Nodes := [];
    }

    /** `_condition_for_level`. */
    function ConditionForLevel(level: int): (c: int)
      ensures c == 0 || c == 1
      ensures c == 1 <==> (level % 2 == 1) != winFull
    {
      Cond(level, winFull)
    }

    /** `_evaluate` on the tree given at the root: `path` defaults to None, which a node
        replaces by the empty path and a leaf list cannot extend (Python raises). */
    method EvaluateRoot(eval: Evaluator, t: Tree) returns (r: Option<Entry>)
      modifies this
      ensures t.Leaf? ==> r.None? && numEvals == old(numEvals) && level2Nodes == old(level2Nodes)
      ensures t.Node? ==> r == Best(winFull, eval, t, [], 1)
      ensures t.Node? && r.Some? ==> numEvals == old(numEvals) + Evals(t)
      ensures t.Node? && r.Some? ==> level2Nodes == old(level2Nodes) + Level2(winFull, eval, t, [], 1)
    {
      if t.Leaf? {
        return None;
      }
      r := Evaluate(eval, t, [], 1);
    }

    /** `_evaluate` on the subtree reached by `path` at `level`. */
    method Evaluate(eval: Evaluator, t: Tree, path: seq<Move>, level: int) returns (r: Option<Entry>)
      requires level >= 1
      modifies this
      ensures r == Best(winFull, eval, t, path, level)
      ensures r.Some? ==> numEvals == old(numEvals) + Evals(t)
      ensures r.Some? ==> level2Nodes == old(level2Nodes) + Level2(winFull, eval, t, path, level)
      decreases t, 3
    {
      if t.Leaf? {
        var condition := ConditionForLevel(level);
        var subResults := LeafItems(eval, path, t.moves, condition);
        numEvals := numEvals + |t.moves|;
        r := MinMax(ConditionForLevel(level), subResults);
      } else {
        r := EvaluateNode(eval, t, path, level);
      }
    }

    /** The node case of `_evaluate`: the best of `sub_results` for the side to move. */
    method EvaluateNode(eval: Evaluator, t: Tree, path: seq<Move>, level: int) returns (r: Option<Entry>)
      requires t.Node? && level >= 1
      modifies this
      ensures r == Best(winFull, eval, t, path, level)
      ensures r.Some? ==> numEvals == old(numEvals) + Evals(t)
      ensures r.Some? ==> level2Nodes == old(level2Nodes) + Level2(winFull, eval, t, path, level)
      decreases t, 2
    {
      var ok, subResults, scores := VisitChildren(eval, t, path, level);
      if !ok {
        return None;
      }
      r := MinMax(ConditionForLevel(level), subResults);
    }

    /** The loop over the children in dict order: `sub_results` and the scores it appends,
        or false once a child raises. */
    method VisitChildren(eval: Evaluator, t: Tree, path: seq<Move>, level: int)
      returns (ok: bool, subResults: seq<Entry>, ghost scores: seq<real>)
      requires t.Node? && level >= 1
      modifies this
      ensures !ok ==> SubResults(winFull, eval, t, path, level, |t.children|).None?
      ensures ok ==> SubResults(winFull, eval, t, path, level, |t.children|) == Some((subResults, scores))
      ensures ok ==> numEvals == old(numEvals) + EvalsTo(t, |t.children|)
      ensures ok ==> level2Nodes == old(level2Nodes) + (if level == 1 then scores else [])
      decreases t, 1
    {
      ok, subResults, scores := true, [], [];
      var i := 0;
      while ok && i < |t.children|
        invariant 0 <= i <= |t.children|
        invariant ok ==> SubResults(winFull, eval, t, path, level, i) == Some((subResults, scores))
        invariant ok ==> numEvals == old(numEvals) + EvalsTo(t, i)
        invariant ok ==> level2Nodes == old(level2Nodes) + (if level == 1 then scores else [])
        invariant !ok ==> SubResults(winFull, eval, t, path, level, i).None?
      {
        ok, subResults, scores := VisitChild(eval, t, path, level, i, subResults, scores,
                                             old(numEvals), old(level2Nodes));
        i := i + 1;
      }
      if !ok {
        SubResultsRaises(winFull, eval, t, path, level, i, |t.children|);
      }
    }

    /** One pass of that loop: child `i` searched one level down, its score keying its path
        in `sub_results` and, at level 1, appended to `_level_2_nodes`; false where the
        child raises. `evals0` and `level20` are the counters before the loop. */
    method VisitChild(eval: Evaluator, t: Tree, path: seq<Move>, level: int, i: int,
                      items: seq<Entry>, ghost scores: seq<real>, ghost evals0: int, ghost level20: seq<real>)
      returns (ok: bool, items': seq<Entry>, ghost scores': seq<real>)
      requires t.Node? && 0 <= i < |t.children| && level >= 1
      requires SubResults(winFull, eval, t, path, level, i) == Some((items, scores))
      requires numEvals == evals0 + EvalsTo(t, i)
      requires level2Nodes == level20 + (if level == 1 then scores else [])
      modifies this
      ensures !ok ==> SubResults(winFull, eval, t, path, level, i + 1).None?
      ensures ok ==> SubResults(winFull, eval, t, path, level, i + 1) == Some((items', scores'))
      ensures ok ==> numEvals == evals0 + EvalsTo(t, i + 1)
      ensures ok ==> level2Nodes == level20 + (if level == 1 then scores' else [])
      decreases t, 0
    {
      var move := t.children[i].0;
      var sub := Evaluate(eval, t.children[i].1, path + [move], level + 1);
      if sub.None? {
        return false, items, scores;
      }
      ChildStep(winFull, eval, t, path, level, i, items, scores, sub.value,
                evals0, numEvals, level20, level2Nodes);
      ok, items', scores' := true, Put(items, sub.value.0, sub.value.1), scores + [sub.value.0];
      if level == 1 {
        level2Nodes := level2Nodes + [sub.value.0];
      }
    }
  }
}
