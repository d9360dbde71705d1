/**
 * Collection passes of points.c: collect_points_feature, collect_points (after a tile is
 * placed) and collect_all_points (at the end of the game).
 *
 * The callback the source hands its awards to is replaced by the list of awards a pass
 * produces, in order; game.c turns them into player scores.
 */
module PointsPass {
  import opened Wrappers
  import opened Tiles
  import opened Board
  import opened Walk
  import opened Meeples
  import opened Points

  /** One callback invocation: the points, the meeples taken per colour, where each colour was found. */
  datatype Award = Award(points: nat, counts: seq<nat>, last: map<Color, Cell>)

  /** The state of a pass: the board (meeples get taken off it), the tile_vis marks, the awards so far. */
  datatype Pass = Pass(board: Board, marks: set<Triple>, awards: seq<Award>)

  /** COLLECT_MAP: the scoring routine chosen by the segment's type. */
  function FeaturePoints(b: Board, marks: set<Triple>, x: int, y: int, pos: Pos, finish: bool): Tally
    requires (x, y) in b.grid
  {
    match b.grid[(x, y)].types[pos]
    case Field => CollectField(b, marks, x, y, pos, finish)
    case Road => CollectRoad(b, marks, x, y, pos, finish)
    case City => CollectCity(b, marks, x, y, pos, finish)
    case Monastery => Tally(MonasteryPoints(b, x, y, finish), marks)
    case NoType => Tally(0, marks)
  }

  /**
   * collect_points_feature: nothing for an empty cell or a segment without a feature;
   * otherwise the feature is scored, and when it is worth something its meeples are taken
   * off the board and one award is handed out.
   */
  function CollectFeature(p: Pass, x: int, y: int, pos: Pos, finish: bool): Pass
  {
    if (x, y) !in p.board.grid || p.board.grid[(x, y)].ids[pos] == 0 || p.board.grid[(x, y)].types[pos] == NoType then p
    else
      var f := FeaturePoints(p.board, p.marks, x, y, pos, finish);
      if f.points == 0 then p.(marks := f.marks)
      else
        var c := CollectMeeple(p.board, x, y, pos, true).value;
        Pass(c.board, f.marks, p.awards + [Award(f.points, c.counts, c.last)])
  }

  /** The features collect_points looks at: the 13 segments of the tile, then the centres of the 3x3 block. */
  function PointsJobs(x: int, y: int): (jobs: seq<Entry>)
    ensures |jobs| == 22
  {
    seq(13, i requires 0 <= i < 13 => Entry(x, y, i))
      + seq(9, k requires 0 <= k < 9 => Entry(BlockCell(x, y, k).0, BlockCell(x, y, k).1, CENTRE))
  }

  /** collect_points_feature over a list of (x, y, pos), in order, sharing the marks. */
  function RunJobs(p: Pass, jobs: seq<Entry>, finish: bool): Pass
    decreases |jobs|
  {
    if |jobs| == 0 then p
    else RunJobs(CollectFeature(p, jobs[0].x, jobs[0].y, jobs[0].pos, finish), jobs[1..], finish)
  }

  /** collect_points: nothing for an empty cell; the marks start empty. */
  function CollectPoints(b: Board, x: int, y: int, finish: bool): Pass
  {
    if (x, y) !in b.grid then Pass(b, {}, [])
    else RunJobs(Pass(b, {}, []), PointsJobs(x, y), finish)
  }

  /** Number of cells collect_all_points looks at: 147 * 147. */
  const CELL_END: nat := 21609

  /** The n-th cell of the row-major scan. */
  function ScanCell(n: nat): Cell
  {
    (n % 147, n / 147)
  }

  /**
   * collect_all_points from cell n on: each cell that (still) holds a meeple has the feature
   * under its meeple collected. The meeple is read from the board as it is now, since an
   * earlier collection of the pass may have taken it.
   */
  function AllFrom(p: Pass, n: nat, finish: bool): Pass
    decreases CELL_END - n
  {
    if n >= CELL_END then p
    else
      var c := ScanCell(n);
      var p' := if c in p.board.grid && p.board.grid[c].meeple.color != NO_COLOR
        then CollectFeature(p, c.0, c.1, p.board.grid[c].meeple.pos, finish)
        else p;
      AllFrom(p', n + 1, finish)
  }

  function CollectAllPoints(b: Board, finish: bool): Pass
  {
    AllFrom(Pass(b, {}, []), 0, finish)
  }

  // ---- meeples are conserved ----------------------------------------------------------------

  /** Cells holding a meeple of colour col. */
  ghost function MeepleCells(b: Board, col: Color): set<Cell>
  {
    set c | c in b.grid && b.grid[c].meeple.color == col
  }

  /** The meeples of colour col handed back by a list of awards. */
  function Returned(awards: seq<Award>, col: Color): nat
    decreases |awards|
  {
    if |awards| == 0 then 0
    else
      var a := awards[|awards| - 1];
      Returned(awards[..|awards| - 1], col) + if col < |a.counts| then a.counts[col] else 0
  }

  /**
   * What a pass keeps true from its starting board b0: only meeples differ, every award is
   * for a positive score and counts all six colour slots, and for every colour the meeples
   * handed back plus those left on the board are the meeples there were.
   */
  ghost predicate Conserves(b0: Board, p: Pass)
  {
    && SameShape(b0, p.board) && p.board.tileCount == b0.tileCount
    && (forall k | 0 <= k < |p.awards| :: p.awards[k].points > 0 && |p.awards[k].counts| == 6)
    && forall col: Color | col != NO_COLOR :: Returned(p.awards, col) + |MeepleCells(p.board, col)| == |MeepleCells(b0, col)|
  }

  /** Taking the claimed meeples off leaves exactly the unclaimed ones of each colour. */
  lemma TakenCells(b: Board, board: Board, vis: set<Triple>, col: Color)
    requires ClearedExactly(b, board, vis) && col != NO_COLOR
    ensures ClaimedBy(b, vis, col) <= MeepleCells(b, col)
    ensures MeepleCells(board, col) == MeepleCells(b, col) - ClaimedBy(b, vis, col)
    ensures |MeepleCells(board, col)| == |MeepleCells(b, col)| - |ClaimedBy(b, vis, col)|
  {
    forall c | c in MeepleCells(board, col) ensures c in MeepleCells(b, col) - ClaimedBy(b, vis, col) {
      assert c in b.grid;
    }
    forall c | c in MeepleCells(b, col) - ClaimedBy(b, vis, col) ensures c in MeepleCells(board, col) {
      assert c !in Claimed(b, vis);
    }
  }

  lemma ReturnedSnoc(awards: seq<Award>, a: Award, col: Color)
    ensures Returned(awards + [a], col) == Returned(awards, col) + if col < |a.counts| then a.counts[col] else 0
  {
    assert (awards + [a])[..|awards|] == awards;
  }

  /** One feature collection keeps the pass invariant. */
  lemma FeatureConserves(b0: Board, p: Pass, x: int, y: int, pos: Pos, finish: bool)
    requires Conserves(b0, p)
    ensures Conserves(b0, CollectFeature(p, x, y, pos, finish))
  {
    var b := p.board;
    if (x, y) in b.grid && b.grid[(x, y)].ids[pos] != 0 && b.grid[(x, y)].types[pos] != NoType {
      var f := FeaturePoints(b, p.marks, x, y, pos, finish);
      if f.points != 0 {
        var c := CollectMeeple(b, x, y, pos, true).value;
        var vis := Bfs(b, x, y, pos).visited;
        var a := Award(f.points, c.counts, c.last);
        CollectRemoves(b, x, y, pos);
        forall col: Color | col != NO_COLOR
          ensures Returned(p.awards + [a], col) + |MeepleCells(c.board, col)| == |MeepleCells(b0, col)|
        {
          TakenCells(b, c.board, vis, col);
          ReturnedSnoc(p.awards, a, col);
        }
      }
    }
  }

  lemma {:induction false} JobsConserve(b0: Board, p: Pass, jobs: seq<Entry>, finish: bool)
    requires Conserves(b0, p)
    ensures Conserves(b0, RunJobs(p, jobs, finish))
    decreases |jobs|
  {
    if |jobs| > 0 {
      FeatureConserves(b0, p, jobs[0].x, jobs[0].y, jobs[0].pos, finish);
      JobsConserve(b0, CollectFeature(p, jobs[0].x, jobs[0].y, jobs[0].pos, finish), jobs[1..], finish);
    }
  }

  lemma {:induction false} AllConserve(b0: Board, p: Pass, n: nat, finish: bool)
    requires Conserves(b0, p)
    ensures Conserves(b0, AllFrom(p, n, finish))
    decreases CELL_END - n
  {
    if n < CELL_END {
      var c := ScanCell(n);
      var p' := if c in p.board.grid && p.board.grid[c].meeple.color != NO_COLOR
        then CollectFeature(p, c.0, c.1, p.board.grid[c].meeple.pos, finish)
        else p;
      assert AllFrom(p, n, finish) == AllFrom(p', n + 1, finish);
      if c in p.board.grid && p.board.grid[c].meeple.color != NO_COLOR {
        FeatureConserves(b0, p, c.0, c.1, p.board.grid[c].meeple.pos, finish);
      }
      AllConserve(b0, p', n + 1, finish);
    } else {
      assert AllFrom(p, n, finish) == p;
    }
  }

  lemma StartConserves(b: Board)
    ensures Conserves(b, Pass(b, {}, []))
  {
  }

  /**
   * collect_points changes nothing but meeples, every award it hands out is for a positive
   * score, and no meeple is lost or duplicated: for every colour, the meeples handed back
   * plus those left on the board are the meeples there were.
   */
  lemma PointsConserve(b: Board, x: int, y: int, finish: bool)
    ensures Conserves(b, CollectPoints(b, x, y, finish))
    ensures (x, y) !in b.grid ==> CollectPoints(b, x, y, finish) == Pass(b, {}, [])
  {
    StartConserves(b);
    if (x, y) in b.grid {
      JobsConserve(b, Pass(b, {}, []), PointsJobs(x, y), finish);
    }
  }

  /** The same for collect_all_points. */
  lemma AllPointsConserve(b: Board, finish: bool)
    ensures Conserves(b, CollectAllPoints(b, finish))
  {
    StartConserves(b);
    AllConserve(b, Pass(b, {}, []), 0, finish);
  }

  // ---- a feature pays its meeples back once -------------------------------------------------

  /** b2 is b1 with some meeples taken off. */
  ghost predicate Fewer(b1: Board, b2: Board)
  {
    && b1.grid.Keys == b2.grid.Keys && b2.tileCount == b1.tileCount
    && forall c | c in b1.grid :: b2.grid[c] == b1.grid[c] || b2.grid[c] == Cleared(b1.grid[c])
  }

  lemma FewerTrans(b1: Board, b2: Board, b3: Board)
    requires Fewer(b1, b2) && Fewer(b2, b3)
    ensures Fewer(b1, b3)
  {
  }

  lemma FewerScoring(b1: Board, b2: Board)
    requires Fewer(b1, b2)
    ensures SameScoring(b1, b2)
  {
  }

  /** Taking meeples off never puts one on a feature. */
  lemma FewerClaimed(b1: Board, b2: Board, vis: set<Triple>)
    requires Fewer(b1, b2)
    ensures Claimed(b2, vis) <= Claimed(b1, vis)
  {
    forall c | c in Claimed(b2, vis) ensures c in Claimed(b1, vis) {
      assert b2.grid[c] == b1.grid[c];
    }
  }

  lemma FeaturePointsSame(b1: Board, b2: Board, marks: set<Triple>, x: int, y: int, pos: Pos, finish: bool)
    requires SameScoring(b1, b2) && (x, y) in b1.grid
    ensures FeaturePoints(b1, marks, x, y, pos, finish) == FeaturePoints(b2, marks, x, y, pos, finish)
  {
    var kind := b1.grid[(x, y)].types[pos];
    assert b2.grid[(x, y)].types[pos] == kind;
    ScoringSame(b1, b2, marks, x, y, pos, finish);
    match kind
    case Field =>
    case Road =>
    case City =>
    case Monastery =>
    case NoType =>
  }

  /** The feature at (x, y, pos) is scored and worth something. */
  ghost predicate Pays(p: Pass, j: Entry, finish: bool)
  {
    && (j.x, j.y) in p.board.grid && p.board.grid[(j.x, j.y)].ids[j.pos] != 0 && p.board.grid[(j.x, j.y)].types[j.pos] != NoType
    && FeaturePoints(p.board, p.marks, j.x, j.y, j.pos, finish).points != 0
  }

  /** The walks of the features that pay during a run of jobs. */
  ghost function PaidWalks(p: Pass, jobs: seq<Entry>, finish: bool): set<set<Triple>>
    decreases |jobs|
  {
    if |jobs| == 0 then {}
    else
      var j := jobs[0];
      (if Pays(p, j, finish) then {Bfs(p.board, j.x, j.y, j.pos).visited} else {})
        + PaidWalks(CollectFeature(p, j.x, j.y, j.pos, finish), jobs[1..], finish)
  }

  /** A collection only takes meeples off; when it pays, none is left on the feature. */
  lemma FeatureTakes(p: Pass, j: Entry, finish: bool)
    ensures var p' := CollectFeature(p, j.x, j.y, j.pos, finish);
      && Fewer(p.board, p'.board)
      && (Pays(p, j, finish) ==> Claimed(p'.board, Bfs(p.board, j.x, j.y, j.pos).visited) == {})
  {
    var b := p.board;
    if Pays(p, j, finish) {
      var c := CollectMeeple(b, j.x, j.y, j.pos, true).value;
      var vis := Bfs(b, j.x, j.y, j.pos).visited;
      CollectRemoves(b, j.x, j.y, j.pos);
      forall m | m in c.board.grid && c.board.grid[m].meeple.color != NO_COLOR ensures MeepleTriple(c.board, m) !in vis {
        assert m !in Claimed(b, vis);
      }
    }
  }

  lemma {:induction false} RunTakes(p: Pass, jobs: seq<Entry>, finish: bool)
    ensures var r := RunJobs(p, jobs, finish);
      && Fewer(p.board, r.board)
      && forall w | w in PaidWalks(p, jobs, finish) :: Claimed(r.board, w) == {}
    decreases |jobs|
  {
    if |jobs| > 0 {
      var j := jobs[0];
      var p' := CollectFeature(p, j.x, j.y, j.pos, finish);
      var r := RunJobs(p', jobs[1..], finish);
      FeatureTakes(p, j, finish);
      RunTakes(p', jobs[1..], finish);
      FewerTrans(p.board, p'.board, r.board);
      if Pays(p, j, finish) {
        FewerClaimed(p'.board, r.board, Bfs(p.board, j.x, j.y, j.pos).visited);
      }
    }
  }

  /** No award of the list hands back a meeple. */
  ghost predicate NobodyPaid(awards: seq<Award>)
  {
    forall k, col | 0 <= k < |awards| && 0 <= col < |awards[k].counts| :: awards[k].counts[col] == 0
  }

  /** A collection from a board with no meeple on a paying feature hands back nothing. */
  lemma FeatureNothingLeft(p1: Pass, p2: Pass, j: Entry, finish: bool)
    requires p1.marks == p2.marks && SameScoring(p1.board, p2.board) && NobodyPaid(p2.awards)
    requires Pays(p1, j, finish) ==> Claimed(p2.board, Bfs(p1.board, j.x, j.y, j.pos).visited) == {}
    ensures var p1', p2' := CollectFeature(p1, j.x, j.y, j.pos, finish), CollectFeature(p2, j.x, j.y, j.pos, finish);
      && p1'.marks == p2'.marks && p2'.board == p2.board && NobodyPaid(p2'.awards)
  {
    var b1, b2 := p1.board, p2.board;
    if (j.x, j.y) in b1.grid {
      FeaturePointsSame(b1, b2, p1.marks, j.x, j.y, j.pos, finish);
      if Pays(p1, j, finish) {
        BfsSameShape(b1, b2, j.x, j.y, j.pos);
        CollectFromEmpty(b2, j.x, j.y, j.pos);
        var p2' := CollectFeature(p2, j.x, j.y, j.pos, finish);
        assert p2'.awards == p2.awards + [p2'.awards[|p2.awards|]];
      }
    }
  }

  /** Removing the meeples of a feature nobody holds leaves the board alone and counts nothing. */
  lemma CollectFromEmpty(b: Board, x: int, y: int, pos: Pos)
    requires (x, y) in b.grid && Claimed(b, Bfs(b, x, y, pos).visited) == {}
    ensures var c := CollectMeeple(b, x, y, pos, true).value;
      c.board == b && |c.counts| == 6 && forall col | 0 <= col < 6 :: c.counts[col] == 0
  {
    var vis := Bfs(b, x, y, pos).visited;
    var c := CollectMeeple(b, x, y, pos, true).value;
    CollectRemoves(b, x, y, pos);
    assert c.board.grid == b.grid;
    forall col: Color | col != NO_COLOR ensures c.counts[col] == 0 {
      assert ClaimedBy(b, vis, col) <= Claimed(b, vis);
    }
  }

  lemma {:induction false} RunNothingLeft(p1: Pass, p2: Pass, jobs: seq<Entry>, finish: bool)
    requires p1.marks == p2.marks && SameScoring(p1.board, p2.board) && NobodyPaid(p2.awards)
    requires forall w | w in PaidWalks(p1, jobs, finish) :: Claimed(p2.board, w) == {}
    ensures RunJobs(p2, jobs, finish).board == p2.board && NobodyPaid(RunJobs(p2, jobs, finish).awards)
    decreases |jobs|
  {
    if |jobs| > 0 {
      var j := jobs[0];
      var p1', p2' := CollectFeature(p1, j.x, j.y, j.pos, finish), CollectFeature(p2, j.x, j.y, j.pos, finish);
      FeatureNothingLeft(p1, p2, j, finish);
      FeatureTakes(p1, j, finish);
      FewerScoring(p1.board, p1'.board);
      assert SameScoring(p1'.board, p2'.board);
      RunNothingLeft(p1', p2', jobs[1..], finish);
    }
  }

  /**
   * Running collect_points a second time at the same cell takes no meeple and pays nobody:
   * every feature that pays had its meeples handed back the first time.
   */
  lemma CollectPointsTwice(b: Board, x: int, y: int, finish: bool)
    ensures var p1 := CollectPoints(b, x, y, finish);
      var p2 := CollectPoints(p1.board, x, y, finish);
      p2.board == p1.board && NobodyPaid(p2.awards)
  {
    if (x, y) in b.grid {
      var start := Pass(b, {}, []);
      var jobs := PointsJobs(x, y);
      var p1 := RunJobs(start, jobs, finish);
      RunTakes(start, jobs, finish);
      FewerScoring(b, p1.board);
      RunNothingLeft(start, Pass(p1.board, {}, []), jobs, finish);
    }
  }
}
