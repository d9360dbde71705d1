/**
 * Meeples: board_collect_meeple, board_meeple_matches and board_meeple_valid.
 *
 * The collecting callback runs over the trace of board_bfs. The walk only looks at types
 * and ids (Walk.BfsSameShape), so clearing meeples while walking, as the source does, and
 * folding over the trace of a walk on the original board give the same result.
 */
module Meeples {
  import opened Wrappers
  import opened Tiles
  import opened Board
  import opened Walk

  /**
   * What board_collect_meeple hands back: the board after the optional removal, the count
   * per colour (index 0, MeepleNone, is never incremented) and the last cell each colour was
   * found on. A colour that was never found has no entry in `last` (the source leaves it 0).
   */
  datatype Collected = Collected(board: Board, counts: seq<nat>, last: map<Color, Cell>)

  const NO_COUNTS: seq<nat> := [0, 0, 0, 0, 0, 0]

  /** The mark of the segment the meeple of a cell stands on. */
  function MeepleTriple(b: Board, c: Cell): Triple
    requires c in b.grid
  {
    (c.0, c.1, b.grid[c].ids[b.grid[c].meeple.pos])
  }

  /** Cells whose meeple has colour col and stands on a segment with one of the given marks. */
  ghost function ClaimedBy(b: Board, vis: set<Triple>, col: Color): set<Cell>
  {
    set c | c in b.grid && b.grid[c].meeple.color == col && MeepleTriple(b, c) in vis
  }

  /** Cells holding a meeple of any colour on a segment with one of the given marks. */
  ghost function Claimed(b: Board, vis: set<Triple>): set<Cell>
  {
    set c | c in b.grid && b.grid[c].meeple.color != NO_COLOR && MeepleTriple(b, c) in vis
  }

  /** t->meeple.color = MeepleNone: the meeple's position is kept. */
  function Cleared(t: Tile): Tile
  {
    t.(meeple := t.meeple.(color := NO_COLOR))
  }

  function ClearMeeple(b: Board, c: Cell): (r: Board)
    requires c in b.grid
    ensures SameShape(b, r) && r.tileCount == b.tileCount
    ensures r.grid[c].meeple.color == NO_COLOR && r.grid[c].meeple.pos == b.grid[c].meeple.pos
  {
    Board(b.grid[c := Cleared(b.grid[c])], b.tileCount)
  }

  /** board_collect_meeple_cb for one callback. */
  function CollectVisit(acc: Collected, v: Visit, remove: bool): (r: Collected)
    requires (v.x, v.y) in acc.board.grid && |acc.counts| == 6
    ensures |r.counts| == 6 && SameShape(acc.board, r.board) && r.board.tileCount == acc.board.tileCount
  {
    var t := acc.board.grid[(v.x, v.y)];
    var col := t.meeple.color;
    if col == NO_COLOR || t.ids[t.meeple.pos] != t.ids[v.pos] then acc
    else
      Collected(if remove then ClearMeeple(acc.board, (v.x, v.y)) else acc.board,
                acc.counts[col := acc.counts[col] + 1],
                acc.last[col := (v.x, v.y)])
  }

  /** The callback applied to each invocation of a trace in order. */
  function CollectTrace(acc: Collected, trace: seq<Visit>, remove: bool): (r: Collected)
    requires |acc.counts| == 6 && TraceOnBoard(acc.board, trace)
    ensures |r.counts| == 6 && SameShape(acc.board, r.board) && r.board.tileCount == acc.board.tileCount
    decreases |trace|
  {
    if |trace| == 0 then acc
    else
      var acc' := CollectVisit(acc, trace[0], remove);
      CollectTrace(acc', trace[1..], remove)
  }

  /** Exactly the claimed meeples are gone; nothing else on the board differs. */
  ghost predicate ClearedExactly(b: Board, board: Board, vis: set<Triple>)
  {
    && SameShape(b, board) && board.tileCount == b.tileCount
    && forall c | c in b.grid :: board.grid[c] == if c in Claimed(b, vis) then Cleared(b.grid[c]) else b.grid[c]
  }

  /** Each colour's count is the number of its claimed meeples. */
  ghost predicate CountsClaimed(b: Board, counts: seq<nat>, vis: set<Triple>)
  {
    && |counts| == 6 && counts[0] == 0
    && forall col: Color | col != NO_COLOR :: counts[col] == |ClaimedBy(b, vis, col)|
  }

  /** A colour has a recorded cell exactly when one of its meeples is claimed, and that cell holds one. */
  ghost predicate LastClaimed(b: Board, last: map<Color, Cell>, vis: set<Triple>)
  {
    && NO_COLOR !in last
    && (forall col: Color | col != NO_COLOR :: col in last <==> ClaimedBy(b, vis, col) != {})
    && (forall col | col in last :: last[col] in ClaimedBy(b, vis, col))
  }

  /** What collecting with removal leaves behind. */
  ghost predicate RemovedAll(b: Board, acc: Collected, vis: set<Triple>)
  {
    ClearedExactly(b, acc.board, vis) && CountsClaimed(b, acc.counts, vis) && LastClaimed(b, acc.last, vis)
  }

  /** What collecting without removal leaves behind: the board is untouched and a colour is counted exactly when one of its meeples is claimed. */
  ghost predicate CountedAll(b: Board, acc: Collected, vis: set<Triple>)
  {
    && |acc.counts| == 6
    && acc.board == b
    && acc.counts[0] == 0
    && (forall col: Color | col != NO_COLOR :: acc.counts[col] > 0 <==> ClaimedBy(b, vis, col) != {})
    && LastClaimed(b, acc.last, vis)
  }

  lemma ClaimedByAdd(b: Board, vis: set<Triple>, tr: Triple, col: Color)
    requires (tr.0, tr.1) in b.grid
    ensures var c := (tr.0, tr.1);
      ClaimedBy(b, vis + {tr}, col) ==
        ClaimedBy(b, vis, col) + (if b.grid[c].meeple.color == col && MeepleTriple(b, c) == tr then {c} else {})
  {
  }

  lemma ClaimedAdd(b: Board, vis: set<Triple>, tr: Triple)
    requires (tr.0, tr.1) in b.grid
    ensures var c := (tr.0, tr.1);
      Claimed(b, vis + {tr}) ==
        Claimed(b, vis) + (if b.grid[c].meeple.color != NO_COLOR && MeepleTriple(b, c) == tr then {c} else {})
  {
  }

  /** A mark whose cell is already claimed, or whose cell's meeple stands elsewhere, claims nothing new. */
  lemma ClaimsUnchanged(b: Board, vis: set<Triple>, tr: Triple)
    requires (tr.0, tr.1) in b.grid
    requires var c := (tr.0, tr.1);
      c in Claimed(b, vis) || b.grid[c].meeple.color == NO_COLOR || MeepleTriple(b, c) != tr
    ensures Claimed(b, vis + {tr}) == Claimed(b, vis)
    ensures forall col: Color | col != NO_COLOR :: ClaimedBy(b, vis + {tr}, col) == ClaimedBy(b, vis, col)
  {
    var c := (tr.0, tr.1);
    ClaimedAdd(b, vis, tr);
    forall col: Color | col != NO_COLOR ensures ClaimedBy(b, vis + {tr}, col) == ClaimedBy(b, vis, col) {
      ClaimedByAdd(b, vis, tr, col);
      if b.grid[c].meeple.color == col && MeepleTriple(b, c) == tr {
        assert c in ClaimedBy(b, vis, col);
      }
    }
  }

  lemma RemovedAllSameClaims(b: Board, acc: Collected, vis: set<Triple>, vis': set<Triple>)
    requires RemovedAll(b, acc, vis)
    requires Claimed(b, vis') == Claimed(b, vis)
    requires forall col: Color | col != NO_COLOR :: ClaimedBy(b, vis', col) == ClaimedBy(b, vis, col)
    ensures RemovedAll(b, acc, vis')
  {
  }

  /** The condition under which the callback takes the meeple of the visited cell. */
  ghost predicate Takes(b: Board, vis: set<Triple>, v: Visit)
  {
    var c := (v.x, v.y);
    c in b.grid && c !in Claimed(b, vis) && b.grid[c].meeple.color != NO_COLOR && MeepleTriple(b, c) == VisitTriple(b, v)
  }

  lemma TakeClaims(b: Board, vis: set<Triple>, v: Visit)
    requires Takes(b, vis, v)
    ensures var c := (v.x, v.y);
      && Claimed(b, vis + {VisitTriple(b, v)}) == Claimed(b, vis) + {c}
      && c !in ClaimedBy(b, vis, b.grid[c].meeple.color)
      && forall col: Color :: ClaimedBy(b, vis + {VisitTriple(b, v)}, col) ==
           ClaimedBy(b, vis, col) + (if col == b.grid[c].meeple.color then {c} else {})
  {
    var tr := VisitTriple(b, v);
    ClaimedAdd(b, vis, tr);
    forall col: Color ensures ClaimedBy(b, vis + {tr}, col) ==
        ClaimedBy(b, vis, col) + (if col == b.grid[(v.x, v.y)].meeple.color then {(v.x, v.y)} else {}) {
      ClaimedByAdd(b, vis, tr, col);
    }
  }

  lemma TakeCounts(b: Board, counts: seq<nat>, vis: set<Triple>, v: Visit)
    requires CountsClaimed(b, counts, vis) && Takes(b, vis, v)
    ensures var col := b.grid[(v.x, v.y)].meeple.color;
      CountsClaimed(b, counts[col := counts[col] + 1], vis + {VisitTriple(b, v)})
  {
    TakeClaims(b, vis, v);
  }

  lemma TakeLast(b: Board, last: map<Color, Cell>, vis: set<Triple>, v: Visit)
    requires LastClaimed(b, last, vis) && Takes(b, vis, v)
    ensures var col := b.grid[(v.x, v.y)].meeple.color;
      LastClaimed(b, last[col := (v.x, v.y)], vis + {VisitTriple(b, v)})
  {
    TakeClaims(b, vis, v);
  }

  lemma TakeBoard(b: Board, board: Board, vis: set<Triple>, v: Visit)
    requires ClearedExactly(b, board, vis) && Takes(b, vis, v)
    ensures (v.x, v.y) in board.grid
    ensures ClearedExactly(b, ClearMeeple(board, (v.x, v.y)), vis + {VisitTriple(b, v)})
  {
    TakeClaims(b, vis, v);
  }

  lemma TakeStep(b: Board, acc: Collected, vis: set<Triple>, v: Visit)
    requires RemovedAll(b, acc, vis) && Takes(b, vis, v)
    ensures RemovedAll(b, CollectVisit(acc, v, true), vis + {VisitTriple(b, v)})
  {
    var c := (v.x, v.y);
    var col := b.grid[c].meeple.color;
    assert acc.board.grid[c] == b.grid[c];
    assert CollectVisit(acc, v, true) == Collected(ClearMeeple(acc.board, c), acc.counts[col := acc.counts[col] + 1], acc.last[col := c]);
    TakeBoard(b, acc.board, vis, v);
    TakeCounts(b, acc.counts, vis, v);
    TakeLast(b, acc.last, vis, v);
  }

  lemma RemoveStep(b: Board, acc: Collected, vis: set<Triple>, v: Visit)
    requires RemovedAll(b, acc, vis) && (v.x, v.y) in b.grid
    ensures (v.x, v.y) in acc.board.grid
    ensures RemovedAll(b, CollectVisit(acc, v, true), vis + {VisitTriple(b, v)})
  {
    var c := (v.x, v.y);
    var tr := VisitTriple(b, v);
    var t := b.grid[c];
    if c in Claimed(b, vis) || t.meeple.color == NO_COLOR || MeepleTriple(b, c) != tr {
      assert acc.board.grid[c].meeple.color == NO_COLOR || acc.board.grid[c] == t;
      assert CollectVisit(acc, v, true) == acc;
      ClaimsUnchanged(b, vis, tr);
      RemovedAllSameClaims(b, acc, vis, vis + {tr});
    } else {
      assert Takes(b, vis, v);
      TakeStep(b, acc, vis, v);
    }
  }

  lemma KeepStep(b: Board, acc: Collected, vis: set<Triple>, v: Visit)
    requires CountedAll(b, acc, vis) && (v.x, v.y) in b.grid
    ensures CountedAll(b, CollectVisit(acc, v, false), vis + {VisitTriple(b, v)})
  {
    var c := (v.x, v.y);
    var tr := VisitTriple(b, v);
    var t := b.grid[c];
    forall col: Color ensures ClaimedBy(b, vis + {tr}, col) ==
        ClaimedBy(b, vis, col) + (if t.meeple.color == col && MeepleTriple(b, c) == tr then {c} else {})
    {
      ClaimedByAdd(b, vis, tr, col);
    }
  }

  lemma {:induction false} RemoveTrace(b: Board, acc: Collected, vis: set<Triple>, trace: seq<Visit>)
    requires RemovedAll(b, acc, vis) && TraceOnBoard(b, trace)
    ensures TraceOnBoard(acc.board, trace)
    ensures RemovedAll(b, CollectTrace(acc, trace, true), vis + TraceTriples(b, trace))
    decreases |trace|
  {
    if |trace| == 0 {
      assert TraceTriples(b, trace) == {};
      RemovedAllSame(b, acc, CollectTrace(acc, trace, true), vis, vis + TraceTriples(b, trace));
    } else {
      RemoveStep(b, acc, vis, trace[0]);
      TraceTriplesCons(b, trace);
      var acc' := CollectVisit(acc, trace[0], true);
      var vis' := vis + {VisitTriple(b, trace[0])};
      RemoveTrace(b, acc', vis', trace[1..]);
      UnionShift(vis, VisitTriple(b, trace[0]), TraceTriples(b, trace[1..]), TraceTriples(b, trace));
      RemovedAllSame(b, CollectTrace(acc', trace[1..], true), CollectTrace(acc, trace, true),
                     vis' + TraceTriples(b, trace[1..]), vis + TraceTriples(b, trace));
    }
  }

  lemma UnionShift<T>(s: set<T>, x: T, rest: set<T>, all: set<T>)
    requires all == {x} + rest
    ensures s + {x} + rest == s + all
  {
  }

  lemma RemovedAllSame(b: Board, acc1: Collected, acc2: Collected, vis1: set<Triple>, vis2: set<Triple>)
    requires acc1 == acc2 && vis1 == vis2 && RemovedAll(b, acc1, vis1)
    ensures RemovedAll(b, acc2, vis2)
  {
  }

  lemma {:induction false} KeepTrace(b: Board, acc: Collected, vis: set<Triple>, trace: seq<Visit>)
    requires CountedAll(b, acc, vis) && TraceOnBoard(b, trace)
    ensures CountedAll(b, CollectTrace(acc, trace, false), vis + TraceTriples(b, trace))
    decreases |trace|
  {
    if |trace| == 0 {
      assert TraceTriples(b, trace) == {};
    } else {
      KeepStep(b, acc, vis, trace[0]);
      TraceTriplesCons(b, trace);
      var acc' := CollectVisit(acc, trace[0], false);
      KeepTrace(b, acc', vis + {VisitTriple(b, trace[0])}, trace[1..]);
      assert vis + {VisitTriple(b, trace[0])} + TraceTriples(b, trace[1..]) == vis + TraceTriples(b, trace);
    }
  }

  /** board_collect_meeple(x, y, pos, remove): nothing is written for an empty cell. */
  function CollectMeeple(b: Board, x: int, y: int, pos: Pos, remove: bool): (r: Option<Collected>)
    ensures (x, y) !in b.grid <==> r.None?
  {
    if (x, y) !in b.grid then None
    else
      var w := Bfs(b, x, y, pos);
      BfsTrace(b, x, y, pos);
      Some(CollectTrace(Collected(b, NO_COUNTS, map[]), w.trace, remove))
  }

  lemma NothingClaimed(b: Board)
    ensures Claimed(b, {}) == {}
    ensures forall col: Color :: ClaimedBy(b, {}, col) == {}
  {
  }

  /**
   * With removal, over the segments the walk from (x, y, pos) marks: every meeple standing
   * on one of them is taken off the board, nothing else changes, each colour is counted
   * once per meeple taken, and the recorded cell of a colour is one it was taken from.
   */
  lemma CollectRemoves(b: Board, x: int, y: int, pos: Pos)
    requires (x, y) in b.grid
    ensures RemovedAll(b, CollectMeeple(b, x, y, pos, true).value, Bfs(b, x, y, pos).visited)
  {
    var w := Bfs(b, x, y, pos);
    BfsTrace(b, x, y, pos);
    NothingClaimed(b);
    var acc := Collected(b, NO_COUNTS, map[]);
    assert RemovedAll(b, acc, {});
    RemoveTrace(b, acc, {}, w.trace);
    assert {} + TraceTriples(b, w.trace) == w.visited;
  }

  /**
   * Without removal the board is untouched and a colour is counted (possibly more than once,
   * when a segment is dequeued twice) exactly when one of its meeples stands on the feature.
   */
  lemma CollectCounts(b: Board, x: int, y: int, pos: Pos)
    requires (x, y) in b.grid
    ensures CountedAll(b, CollectMeeple(b, x, y, pos, false).value, Bfs(b, x, y, pos).visited)
  {
    var w := Bfs(b, x, y, pos);
    BfsTrace(b, x, y, pos);
    NothingClaimed(b);
    var acc := Collected(b, NO_COUNTS, map[]);
    KeepTrace(b, acc, {}, w.trace);
    assert {} + TraceTriples(b, w.trace) == w.visited;
  }

  /**
   * board_meeple_matches: a meeple may stand on segment m.pos of the tile at (x, y) exactly
   * when there is a tile there and no meeple stands anywhere on the feature of that segment.
   */
  function MeepleMatches(b: Board, m: Meeple, x: int, y: int): (r: bool)
    ensures r <==> (x, y) in b.grid && Claimed(b, Bfs(b, x, y, m.pos).visited) == {}
  {
    if (x, y) !in b.grid then false
    else
      var counts := CollectMeeple(b, x, y, m.pos, false).value.counts;
      var vis := Bfs(b, x, y, m.pos).visited;
      CollectCounts(b, x, y, m.pos);
      assert Claimed(b, vis) == {} <==> forall col: Color | col != NO_COLOR :: ClaimedBy(b, vis, col) == {} by {
        if Claimed(b, vis) != {} {
          var c :| c in Claimed(b, vis);
          assert c in ClaimedBy(b, vis, b.grid[c].meeple.color);
        }
      }
      forall j | 0 <= j <= MEEPLE_COLOR_COUNT :: counts[j] == 0
  }

  /** Placing a meeple on segment i is allowed: there is a tile, the segment is part of a feature and the feature is free. */
  ghost predicate ValidAt(b: Board, x: int, y: int, i: Pos)
  {
    (x, y) in b.grid && b.grid[(x, y)].ids[i] != 0 && Claimed(b, Bfs(b, x, y, i).visited) == {}
  }

  /**
   * board_meeple_valid: for every segment, whether the meeple may be placed there. The
   * memo table of the source is never marked as filled, so every segment is decided by its
   * own walk; the meeple's colour plays no part.
   */
  method MeepleValid(b: Board, m: Meeple, x: int, y: int) returns (valid: seq<bool>)
    ensures |valid| == 13
    ensures forall i: Pos :: valid[i] <==> ValidAt(b, x, y, i)
  {
    valid := [];
    var i := 0;
    while i < 13
      invariant 0 <= i <= 13 && |valid| == i
      invariant forall j: Pos | j < i :: valid[j] <==> ValidAt(b, x, y, j)
    {
      var ok := false;
      if (x, y) in b.grid && b.grid[(x, y)].ids[i] != 0 {
        ok := MeepleMatches(b, m.(pos := i), x, y);
      }
      valid := valid + [ok];
      i := i + 1;
    }
  }

  /** Two segments of the same feature on a tile are either both free or both taken. */
  lemma ValidAtSameId(b: Board, x: int, y: int, i: Pos, j: Pos)
    requires (x, y) in b.grid && b.grid[(x, y)].ids[i] == b.grid[(x, y)].ids[j]
    ensures ValidAt(b, x, y, i) <==> ValidAt(b, x, y, j)
  {
    BfsSameMark(b, x, y, i, j);
  }

  /** Collecting with removal a second time from the same segment finds nothing and changes nothing. */
  lemma CollectTwice(b: Board, x: int, y: int, pos: Pos)
    requires (x, y) in b.grid
    ensures var r1 := CollectMeeple(b, x, y, pos, true).value;
      var r2 := CollectMeeple(r1.board, x, y, pos, true);
      r2.Some? && r2.value.board == r1.board && forall col: Color :: r2.value.counts[col] == 0
  {
    var r1 := CollectMeeple(b, x, y, pos, true).value;
    var b1 := r1.board;
    var vis := Bfs(b, x, y, pos).visited;
    CollectRemoves(b, x, y, pos);
    BfsSameShape(b, b1, x, y, pos);
    assert Claimed(b1, vis) == {} by {
      forall c | c in b1.grid && b1.grid[c].meeple.color != NO_COLOR
        ensures MeepleTriple(b1, c) !in vis
      {
        assert c !in Claimed(b, vis);
        assert b1.grid[c] == b.grid[c];
      }
    }
    forall col: Color | col != NO_COLOR ensures ClaimedBy(b1, vis, col) == {} {
      assert ClaimedBy(b1, vis, col) <= Claimed(b1, vis);
    }
    var r2 := CollectMeeple(b1, x, y, pos, true).value;
    CollectRemoves(b1, x, y, pos);
    assert r2.board.grid == b1.grid;
  }
}
