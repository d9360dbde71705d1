/**
 * Points: scoring of roads, cities, monasteries and fields (points.c).
 *
 * One collection pass (collect_points or collect_all_points) shares the tile_vis marks: a
 * road, city or field segment whose mark is set has already been paid in this pass. The
 * award callback of the source is replaced by the list of awards the pass produces.
 */
module Points {
  import opened Wrappers
  import opened Tiles
  import opened Board
  import opened Walk
  import opened Meeples

  // ---- roads and cities ---------------------------------------------------------------------

  /** What a newly reached tile is worth: a pennant doubles a city tile. */
  function TileValue(t: Tile, city: bool): nat
  {
    if city && t.flags.pennant then 2 else 1
  }

  /** Points so far and the tile_vis marks. */
  datatype Tally = Tally(points: nat, marks: set<Triple>)

  /**
   * collect_points_road_cb / collect_points_city_cb: a segment whose mark is set is skipped;
   * otherwise it is marked, and it scores when its tile is reached for the first time.
   */
  function TallyVisit(b: Board, acc: Tally, v: Visit, city: bool): Tally
    requires (v.x, v.y) in b.grid
  {
    var tr := VisitTriple(b, v);
    if tr in acc.marks then acc
    else if v.revisit then Tally(acc.points, acc.marks + {tr})
    else Tally(acc.points + TileValue(b.grid[(v.x, v.y)], city), acc.marks + {tr})
  }

  /** The callback over a whole trace, in order. */
  function TallyTrace(b: Board, marks: set<Triple>, trace: seq<Visit>, city: bool): Tally
    requires TraceOnBoard(b, trace)
    decreases |trace|
  {
    if |trace| == 0 then Tally(0, marks)
    else
      var n := |trace| - 1;
      assert TraceOnBoard(b, trace[..n]);
      TallyVisit(b, TallyTrace(b, marks, trace[..n], city), trace[n], city)
  }

  /** Cells reached for the first time through a segment not marked beforehand. */
  ghost function FreshCells(b: Board, marks: set<Triple>, trace: seq<Visit>): set<Cell>
    requires TraceOnBoard(b, trace)
  {
    set k | 0 <= k < |trace| && !trace[k].revisit && VisitTriple(b, trace[k]) !in marks :: (trace[k].x, trace[k].y)
  }

  ghost function PennantCells(b: Board, cells: set<Cell>): set<Cell>
  {
    set c | c in cells && c in b.grid && b.grid[c].flags.pennant
  }

  lemma FreshCellsSnoc(b: Board, marks: set<Triple>, trace: seq<Visit>, v: Visit)
    requires TraceOnBoard(b, trace) && (v.x, v.y) in b.grid
    requires RevisitFlags(trace + [v])
    ensures TraceOnBoard(b, trace + [v])
    ensures !v.revisit ==> VisitTriple(b, v) !in TraceTriples(b, trace) && (v.x, v.y) !in FreshCells(b, marks, trace)
    ensures FreshCells(b, marks, trace + [v]) ==
      FreshCells(b, marks, trace) + (if !v.revisit && VisitTriple(b, v) !in marks then {(v.x, v.y)} else {})
  {
    var t' := trace + [v];
    var n := |trace|;
    assert t'[n] == v;
    forall k | 0 <= k < n ensures t'[k] == trace[k] {
    }
    assert TraceOnBoard(b, t');
    if !v.revisit {
      forall k | 0 <= k < n ensures (trace[k].x, trace[k].y) != (v.x, v.y) {
        assert t'[k] == trace[k];
      }
    }
  }

  /** The marks the tally leaves are the old ones plus every segment of the trace. */
  lemma {:induction false} TallyMarks(b: Board, marks: set<Triple>, trace: seq<Visit>, city: bool)
    requires TraceOnBoard(b, trace)
    ensures TallyTrace(b, marks, trace, city).marks == marks + TraceTriples(b, trace)
    decreases |trace|
  {
    if |trace| == 0 {
      assert TraceTriples(b, trace) == {};
    } else {
      var n := |trace| - 1;
      assert trace == trace[..n] + [trace[n]];
      assert TraceOnBoard(b, trace[..n]);
      TallyMarks(b, marks, trace[..n], city);
      TraceTriplesSnoc(b, trace[..n], trace[n]);
    }
  }

  /** The value of a set of fresh cells: one per tile, plus one per pennant tile of a city. */
  ghost function CellsValue(b: Board, cells: set<Cell>, city: bool): nat
  {
    |cells| + if city then |PennantCells(b, cells)| else 0
  }

  lemma CellsValueAdd(b: Board, cells: set<Cell>, c: Cell, city: bool)
    requires c !in cells && c in b.grid
    ensures CellsValue(b, cells + {c}, city) == CellsValue(b, cells, city) + TileValue(b.grid[c], city)
  {
    assert PennantCells(b, cells + {c}) == PennantCells(b, cells) + (if b.grid[c].flags.pennant then {c} else {});
  }

  lemma TallyStep(b: Board, marks: set<Triple>, p: seq<Visit>, v: Visit, city: bool, acc: Tally)
    requires TraceOnBoard(b, p) && (v.x, v.y) in b.grid && RevisitFlags(p + [v])
    requires acc.marks == marks + TraceTriples(b, p) && acc.points == CellsValue(b, FreshCells(b, marks, p), city)
    ensures TraceOnBoard(b, p + [v])
    ensures TallyVisit(b, acc, v, city).points == CellsValue(b, FreshCells(b, marks, p + [v]), city)
  {
    FreshCellsSnoc(b, marks, p, v);
    if !v.revisit && VisitTriple(b, v) !in marks {
      CellsValueAdd(b, FreshCells(b, marks, p), (v.x, v.y), city);
    }
  }

  /**
   * The tally scores every tile first reached through a segment not marked beforehand,
   * once (twice for a pennant city tile).
   */
  lemma {:induction false} TallyCounts(b: Board, marks: set<Triple>, trace: seq<Visit>, city: bool)
    requires TraceOnBoard(b, trace) && RevisitFlags(trace)
    ensures TallyTrace(b, marks, trace, city).points == CellsValue(b, FreshCells(b, marks, trace), city)
    decreases |trace|
  {
    if |trace| == 0 {
      assert FreshCells(b, marks, trace) == {};
    } else {
      var n := |trace| - 1;
      var p, v := trace[..n], trace[n];
      assert trace == p + [v];
      assert TraceOnBoard(b, p);
      RevisitFlagsPrefix(trace, n);
      TallyCounts(b, marks, p, city);
      TallyMarks(b, marks, p, city);
      TallyStep(b, marks, p, v, city, TallyTrace(b, marks, p, city));
    }
  }

  /** With no segment of the trace marked beforehand, every tile of the trace is fresh. */
  lemma AllFresh(b: Board, marks: set<Triple>, trace: seq<Visit>)
    requires TraceOnBoard(b, trace) && RevisitFlags(trace)
    requires TraceTriples(b, trace) !! marks
    ensures FreshCells(b, marks, trace) == TraceCells(trace)
  {
    forall c | c in TraceCells(trace) ensures c in FreshCells(b, marks, trace) {
      var k :| 0 <= k < |trace| && c == (trace[k].x, trace[k].y);
      var k0 := FirstOccurrence(trace, k);
      assert VisitTriple(b, trace[k0]) in TraceTriples(b, trace);
    }
  }

  /** With every segment of the trace marked beforehand, nothing is fresh. */
  lemma NoneFresh(b: Board, marks: set<Triple>, trace: seq<Visit>)
    requires TraceOnBoard(b, trace) && TraceTriples(b, trace) <= marks
    ensures FreshCells(b, marks, trace) == {}
  {
    forall k | 0 <= k < |trace| ensures VisitTriple(b, trace[k]) in marks {
      assert VisitTriple(b, trace[k]) in TraceTriples(b, trace);
    }
  }

  /** collect_points_road: an open road scores nothing before the end of the game. */
  function CollectRoad(b: Board, marks: set<Triple>, x: int, y: int, pos: Pos, finish: bool): Tally
  {
    var w := Bfs(b, x, y, pos);
    BfsTrace(b, x, y, pos);
    var t := TallyTrace(b, marks, w.trace, false);
    Tally(if !w.closed && !finish then 0 else t.points, t.marks)
  }

  /** collect_points_city: an open city scores nothing before the end; a closed one scores double during play. */
  function CollectCity(b: Board, marks: set<Triple>, x: int, y: int, pos: Pos, finish: bool): Tally
  {
    var w := Bfs(b, x, y, pos);
    BfsTrace(b, x, y, pos);
    var t := TallyTrace(b, marks, w.trace, true);
    Tally(if !w.closed && !finish then 0 else if finish then t.points else 2 * t.points, t.marks)
  }

  /**
   * A road not yet paid in this pass scores one point per tile it runs over, when it is
   * closed or the game is over; all its segments become marked.
   */
  lemma RoadScore(b: Board, marks: set<Triple>, x: int, y: int, pos: Pos, finish: bool)
    ensures var w := Bfs(b, x, y, pos);
      var r := CollectRoad(b, marks, x, y, pos, finish);
      && r.marks == marks + w.visited
      && (w.visited !! marks ==> r.points == if w.closed || finish then |MarkCells(w.visited)| else 0)
      && (w.visited <= marks ==> r.points == 0)
  {
    var w := Bfs(b, x, y, pos);
    BfsTrace(b, x, y, pos);
    TallyCounts(b, marks, w.trace, false);
    TallyMarks(b, marks, w.trace, false);
    TraceCellsAreMarkCells(b, w.trace);
    if w.visited !! marks {
      AllFresh(b, marks, w.trace);
    }
    if w.visited <= marks {
      NoneFresh(b, marks, w.trace);
    }
  }

  /**
   * A city not yet paid in this pass scores one point per tile plus one per pennant tile,
   * doubled when it is closed during play; an open city scores only at the end of the game.
   */
  lemma CityScore(b: Board, marks: set<Triple>, x: int, y: int, pos: Pos, finish: bool)
    ensures var w := Bfs(b, x, y, pos);
      var r := CollectCity(b, marks, x, y, pos, finish);
      var n := |MarkCells(w.visited)| + |PennantCells(b, MarkCells(w.visited))|;
      && r.marks == marks + w.visited
      && (w.visited !! marks ==> r.points == if finish then n else if w.closed then 2 * n else 0)
      && (w.visited <= marks ==> r.points == 0)
  {
    var w := Bfs(b, x, y, pos);
    BfsTrace(b, x, y, pos);
    TallyCounts(b, marks, w.trace, true);
    TallyMarks(b, marks, w.trace, true);
    TraceCellsAreMarkCells(b, w.trace);
    if w.visited !! marks {
      AllFresh(b, marks, w.trace);
    }
    if w.visited <= marks {
      NoneFresh(b, marks, w.trace);
    }
  }

  /** A road or city paid in this pass pays nothing when reached again from any of its segments. */
  lemma PaidOnce(b: Board, marks: set<Triple>, x: int, y: int, pos: Pos, finish: bool, x': int, y': int, pos': Pos)
    requires (x, y) in b.grid && (x', y') in b.grid
    requires StartTriple(b, x', y', pos') in Bfs(b, x, y, pos).visited
    ensures CollectRoad(b, CollectRoad(b, marks, x, y, pos, finish).marks, x', y', pos', finish).points == 0
    ensures CollectCity(b, CollectCity(b, marks, x, y, pos, finish).marks, x', y', pos', finish).points == 0
  {
    BfsSubsumes(b, x, y, pos, x', y', pos');
    RoadScore(b, marks, x, y, pos, finish);
    CityScore(b, marks, x, y, pos, finish);
    RoadScore(b, CollectRoad(b, marks, x, y, pos, finish).marks, x', y', pos', finish);
    CityScore(b, CollectCity(b, marks, x, y, pos, finish).marks, x', y', pos', finish);
  }

  // ---- monasteries --------------------------------------------------------------------------

  /** The k-th cell of the 3x3 block around (x, y) in loop order: dy outer, dx inner. */
  function BlockCell(x: int, y: int, k: nat): Cell
    requires k < 9
  {
    (x + k % 3 - 1, y + k / 3 - 1)
  }

  /** Occupied cells among the block cells k .. 8. */
  function CountBlockFrom(b: Board, x: int, y: int, k: nat): nat
    requires k <= 9
    decreases 9 - k
  {
    if k == 9 then 0 else (if BlockCell(x, y, k) in b.grid then 1 else 0) + CountBlockFrom(b, x, y, k + 1)
  }

  /** The occupied cells of the 3x3 block around (x, y). */
  ghost function Block(b: Board, x: int, y: int): set<Cell>
  {
    set c | c in b.grid && x - 1 <= c.0 <= x + 1 && y - 1 <= c.1 <= y + 1
  }

  ghost function BlockFrom(b: Board, x: int, y: int, k: nat): set<Cell>
  {
    set j | k <= j < 9 && BlockCell(x, y, j) in b.grid :: BlockCell(x, y, j)
  }

  lemma BlockCellInjective(x: int, y: int, j: nat, k: nat)
    requires j < 9 && k < 9 && j != k
    ensures BlockCell(x, y, j) != BlockCell(x, y, k)
  {
  }

  lemma {:induction false} CountBlockIsSize(b: Board, x: int, y: int, k: nat)
    requires k <= 9
    ensures CountBlockFrom(b, x, y, k) == |BlockFrom(b, x, y, k)|
    decreases 9 - k
  {
    if k == 9 {
      assert BlockFrom(b, x, y, k) == {};
    } else {
      CountBlockIsSize(b, x, y, k + 1);
      var c := BlockCell(x, y, k);
      forall j | k + 1 <= j < 9 ensures BlockCell(x, y, j) != c {
        BlockCellInjective(x, y, j, k);
      }
      assert BlockFrom(b, x, y, k) == BlockFrom(b, x, y, k + 1) + (if c in b.grid then {c} else {});
    }
  }

  lemma BlockFromZero(b: Board, x: int, y: int)
    ensures BlockFrom(b, x, y, 0) == Block(b, x, y)
  {
    forall c | c in Block(b, x, y) ensures c in BlockFrom(b, x, y, 0) {
      var j := 3 * (c.1 - y + 1) + (c.0 - x + 1);
      assert 0 <= j < 9;
      assert BlockCell(x, y, j) == c;
    }
  }

  /**
   * collect_points_monastery: the monastery and the tiles around it, one point each; during
   * play it pays only when all nine cells are occupied.
   */
  function MonasteryPoints(b: Board, x: int, y: int, finish: bool): (p: nat)
    ensures p <= 9
    ensures p == if finish || |Block(b, x, y)| == 9 then |Block(b, x, y)| else 0
  {
    CountBlockIsSize(b, x, y, 0);
    BlockFromZero(b, x, y);
    var n := CountBlockFrom(b, x, y, 0);
    if finish || n == 9 then n else 0
  }

  // ---- fields: phase 1 ----------------------------------------------------------------------

  /** Ring slot i is a city slot with a ring neighbour carrying the field id. */
  predicate BordersField(t: Tile, i: nat, id: nat)
    requires i < 12
  {
    t.types[i] == City && (t.ids[(i + 1) % 12] == id || t.ids[(i + 11) % 12] == id)
  }

  /** The city_vis marks one visited field segment sets: the ids of the city slots bordering it. */
  function CityMarks(b: Board, v: Visit): set<Triple>
    requires (v.x, v.y) in b.grid
  {
    var t := b.grid[(v.x, v.y)];
    set i | 0 <= i < 12 && BordersField(t, i, t.ids[v.pos]) :: (v.x, v.y, t.ids[i])
  }

  /** Every tile id is a valid segment index (true of every tile the deck makes). */
  predicate IdsBelow13(b: Board)
  {
    forall c, i | c in b.grid && 0 <= i < 13 :: b.grid[c].ids[i] < 13
  }

  /**
   * The marks as written: CITY_VISIT expects a segment position and looks the id up again,
   * so the city slot's id is used as a position and the id found there is marked.
   */
  function CityMarksAsWritten(b: Board, v: Visit): set<Triple>
    requires (v.x, v.y) in b.grid && IdsBelow13(b)
  {
    var t := b.grid[(v.x, v.y)];
    set i | 0 <= i < 12 && BordersField(t, i, t.ids[v.pos]) :: (v.x, v.y, t.ids[t.ids[i]])
  }

  /** tile_vis marks and city_vis marks while the field is walked. */
  datatype FieldWalk = FieldWalk(marks: set<Triple>, cities: set<Triple>)

  /** collect_points_field_cb over a trace: unmarked segments are marked and mark their bordering cities. */
  function FieldPhase1(b: Board, acc: FieldWalk, trace: seq<Visit>, asWritten: bool): FieldWalk
    requires TraceOnBoard(b, trace) && (asWritten ==> IdsBelow13(b))
    decreases |trace|
  {
    if |trace| == 0 then acc
    else
      var v := trace[0];
      var tr := VisitTriple(b, v);
      var acc' := if tr in acc.marks then acc
        else FieldWalk(acc.marks + {tr}, acc.cities + if asWritten then CityMarksAsWritten(b, v) else CityMarks(b, v));
      FieldPhase1(b, acc', trace[1..], asWritten)
  }

  /** A city mark names a segment of type City on an occupied cell. */
  ghost predicate IsCityMark(b: Board, m: Triple)
  {
    (m.0, m.1) in b.grid && exists i :: 0 <= i < 12 && b.grid[(m.0, m.1)].types[i] == City && b.grid[(m.0, m.1)].ids[i] == m.2
  }

  lemma CityMarksAreCities(b: Board, v: Visit)
    requires (v.x, v.y) in b.grid
    ensures forall m | m in CityMarks(b, v) :: IsCityMark(b, m)
  {
    forall m | m in CityMarks(b, v) ensures IsCityMark(b, m) {
      var t := b.grid[(v.x, v.y)];
      var i :| 0 <= i < 12 && BordersField(t, i, t.ids[v.pos]) && m == (v.x, v.y, t.ids[i]);
    }
  }

  lemma CityMarksByTriple(b: Board, v: Visit, v': Visit)
    requires (v.x, v.y) in b.grid && (v'.x, v'.y) in b.grid && VisitTriple(b, v) == VisitTriple(b, v')
    ensures CityMarks(b, v) == CityMarks(b, v')
  {
  }

  /**
   * Phase 1 sets the marks of every segment of the trace; every city mark it sets names a
   * city slot bordering a visited field segment, and every visited segment not marked
   * beforehand has all its bordering city slots marked.
   */
  lemma {:induction false} Phase1Facts(b: Board, acc: FieldWalk, trace: seq<Visit>)
    requires TraceOnBoard(b, trace)
    ensures var r := FieldPhase1(b, acc, trace, false);
      && r.marks == acc.marks + TraceTriples(b, trace)
      && acc.cities <= r.cities
      && (forall m | m in r.cities - acc.cities ::
            exists k :: 0 <= k < |trace| && VisitTriple(b, trace[k]) !in acc.marks && m in CityMarks(b, trace[k]))
      && (forall k | 0 <= k < |trace| && VisitTriple(b, trace[k]) !in acc.marks :: CityMarks(b, trace[k]) <= r.cities)
    decreases |trace|
  {
    if |trace| == 0 {
      assert TraceTriples(b, trace) == {};
    } else {
      var v := trace[0];
      var tr := VisitTriple(b, v);
      var acc' := if tr in acc.marks then acc else FieldWalk(acc.marks + {tr}, acc.cities + CityMarks(b, v));
      TraceTriplesCons(b, trace);
      Phase1Facts(b, acc', trace[1..]);
      var r := FieldPhase1(b, acc', trace[1..], false);
      assert r == FieldPhase1(b, acc, trace, false);
      forall m | m in r.cities - acc.cities
        ensures exists k :: 0 <= k < |trace| && VisitTriple(b, trace[k]) !in acc.marks && m in CityMarks(b, trace[k])
      {
        if m in acc'.cities {
          assert m in CityMarks(b, trace[0]);
        } else {
          assert m in r.cities - acc'.cities;
          var k :| 0 <= k < |trace[1..]| && VisitTriple(b, trace[1..][k]) !in acc'.marks && m in CityMarks(b, trace[1..][k]);
          assert trace[1..][k] == trace[k + 1];
        }
      }
      forall k | 0 <= k < |trace| && VisitTriple(b, trace[k]) !in acc.marks ensures CityMarks(b, trace[k]) <= r.cities {
        if k == 0 {
        } else if VisitTriple(b, trace[k]) == tr {
          CityMarksByTriple(b, trace[k], v);
        } else {
          assert trace[k] == trace[1..][k - 1];
        }
      }
    }
  }

  // ---- fields: phase 2 ----------------------------------------------------------------------

  /** Number of (x, y, pos) triples the row-major scan of phase 2 goes through: 147 * 147 * 13. */
  const SCAN_END: nat := 280917

  /** The n-th position of the scan: y outer, then x (147 cells a row), then pos. */
  function ScanEntry(n: nat): Entry
    requires n < SCAN_END
  {
    Entry((n / 13) % 147, n / 1911, n % 13)
  }

  /** Every on-board position is scanned, at index (y * 147 + x) * 13 + pos. */
  lemma ScanIndex(x: int, y: int, pos: Pos) returns (n: nat)
    requires 0 <= x < BOARD_SIZE && 0 <= y < BOARD_SIZE
    ensures n < SCAN_END && ScanEntry(n) == Entry(x, y, pos)
  {
    assert BOARD_SIZE == 147;
    var a := y * 147 + x;
    n := a * 13 + pos;
    assert a < 147 * 147;
    assert n / 13 == a;
    assert a % BOARD_SIZE == x && a / BOARD_SIZE == y;
  }

  /** The marks a walk from a queued scan position sets. */
  ghost function Visited(b: Board, e: Entry): set<Triple>
  {
    Bfs(b, e.x, e.y, e.pos).visited
  }

  ghost function UnionVisited(b: Board, starts: seq<Entry>): set<Triple>
    decreases |starts|
  {
    if |starts| == 0 then {} else UnionVisited(b, starts[..|starts| - 1]) + Visited(b, starts[|starts| - 1])
  }

  /** How many of the walks from the given positions are closed. */
  ghost function ClosedCount(b: Board, starts: seq<Entry>): nat
    decreases |starts|
  {
    if |starts| == 0 then 0
    else
      var e := starts[|starts| - 1];
      ClosedCount(b, starts[..|starts| - 1]) + if Bfs(b, e.x, e.y, e.pos).closed then 1 else 0
  }

  /** Points so far, the city_vis marks left, and the positions a city walk was started from. */
  datatype CityScan = CityScan(points: nat, cities: set<Triple>, starts: seq<Entry>)

  /**
   * Scan position n of phase 2: when its mark is still set it starts a walk that clears the
   * marks of all the city's segments and pays 3 if the city is closed.
   */
  function ScanStep(b: Board, acc: CityScan, n: nat): CityScan
    requires n < SCAN_END
  {
    var e := ScanEntry(n);
    if (e.x, e.y) in b.grid && TripleOf(b, e) in acc.cities then
      var w := Bfs(b, e.x, e.y, e.pos);
      CityScan(acc.points + (if w.closed then 3 else 0), acc.cities - w.visited, acc.starts + [e])
    else acc
  }

  /** Phase 2 from scan position n on. */
  function ScanFrom(b: Board, acc: CityScan, n: nat): CityScan
    decreases SCAN_END - n
  {
    if n >= SCAN_END then acc else ScanFrom(b, ScanStep(b, acc, n), n + 1)
  }

  /** The k-th walk started from a mark that was set and that no earlier walk reached. */
  ghost predicate FreshAt(b: Board, cv0: set<Triple>, starts: seq<Entry>, k: nat)
    requires AllOnBoard(b, starts) && k < |starts|
  {
    TripleOf(b, starts[k]) in cv0 - UnionVisited(b, starts[..k])
  }

  /** Each walk started on the board, from a fresh mark. */
  ghost predicate StartsFresh(b: Board, cv0: set<Triple>, starts: seq<Entry>)
  {
    && AllOnBoard(b, starts)
    && forall k: nat | k < |starts| :: FreshAt(b, cv0, starts, k)
  }

  /** No position before n on the board still has its mark set. */
  ghost predicate CoveredBelow(b: Board, cities: set<Triple>, n: nat)
  {
    forall m | 0 <= m < n && m < SCAN_END && OnBoard(b, ScanEntry(m)) :: TripleOf(b, ScanEntry(m)) !in cities
  }

  /**
   * What the scan keeps true: the marks left are the initial ones minus everything walked;
   * the walks started from fresh marks; three points per closed walk; and no scanned position
   * still has its mark set.
   */
  ghost predicate ScanInv(b: Board, cv0: set<Triple>, acc: CityScan, n: nat)
  {
    && acc.cities == cv0 - UnionVisited(b, acc.starts)
    && StartsFresh(b, cv0, acc.starts)
    && acc.points == 3 * ClosedCount(b, acc.starts)
    && CoveredBelow(b, acc.cities, n)
  }

  lemma StartsFreshStep(b: Board, cv0: set<Triple>, starts: seq<Entry>, e: Entry)
    requires StartsFresh(b, cv0, starts)
    requires OnBoard(b, e) && TripleOf(b, e) in cv0 - UnionVisited(b, starts)
    ensures StartsFresh(b, cv0, starts + [e])
  {
    var s' := starts + [e];
    forall k: nat | k < |s'| ensures FreshAt(b, cv0, s', k) {
      if k < |starts| {
        assert s'[..k] == starts[..k];
        assert FreshAt(b, cv0, starts, k);
      } else {
        assert s'[..k] == starts;
      }
    }
  }

  lemma CoveredStep(b: Board, cities: set<Triple>, n: nat, gone: set<Triple>)
    requires CoveredBelow(b, cities, n) && n < SCAN_END
    requires OnBoard(b, ScanEntry(n)) ==> TripleOf(b, ScanEntry(n)) !in cities - gone
    ensures CoveredBelow(b, cities - gone, n + 1)
  {
  }

  lemma ScanStartStep(b: Board, cv0: set<Triple>, acc: CityScan, n: nat)
    requires ScanInv(b, cv0, acc, n) && n < SCAN_END
    requires OnBoard(b, ScanEntry(n)) && TripleOf(b, ScanEntry(n)) in acc.cities
    ensures var e := ScanEntry(n);
      var w := Bfs(b, e.x, e.y, e.pos);
      ScanInv(b, cv0, CityScan(acc.points + (if w.closed then 3 else 0), acc.cities - w.visited, acc.starts + [e]), n + 1)
  {
    var e := ScanEntry(n);
    var w := Bfs(b, e.x, e.y, e.pos);
    StartsSnoc(b, acc.starts, e);
    StartsFreshStep(b, cv0, acc.starts, e);
    BfsMarksStart(b, e.x, e.y, e.pos);
    CoveredStep(b, acc.cities, n, w.visited);
  }

  /** One more walk adds its segments to the union and, if it is closed, one to the count. */
  lemma StartsSnoc(b: Board, starts: seq<Entry>, e: Entry)
    ensures var w := Bfs(b, e.x, e.y, e.pos);
      && UnionVisited(b, starts + [e]) == UnionVisited(b, starts) + w.visited
      && ClosedCount(b, starts + [e]) == ClosedCount(b, starts) + if w.closed then 1 else 0
  {
    assert (starts + [e])[..|starts|] == starts;
  }

  lemma {:induction false} ScanFacts(b: Board, cv0: set<Triple>, acc: CityScan, n: nat)
    requires ScanInv(b, cv0, acc, n)
    ensures ScanInv(b, cv0, ScanFrom(b, acc, n), SCAN_END)
    decreases SCAN_END - n
  {
    if n < SCAN_END {
      var e := ScanEntry(n);
      if OnBoard(b, e) && TripleOf(b, e) in acc.cities {
        ScanStartStep(b, cv0, acc, n);
      } else {
        CoveredStep(b, acc.cities, n, {});
        assert acc.cities - {} == acc.cities;
      }
      ScanFacts(b, cv0, ScanStep(b, acc, n), n + 1);
    } else {
      assert ScanFrom(b, acc, n) == acc;
      assert CoveredBelow(b, acc.cities, SCAN_END) by {
        forall m | 0 <= m < SCAN_END && OnBoard(b, ScanEntry(m)) ensures TripleOf(b, ScanEntry(m)) !in acc.cities {
          assert m < n;
        }
      }
    }
  }

  /** Phase 2 from the start, on the marks phase 1 left. */
  function CityScanAll(b: Board, cities: set<Triple>): CityScan
  {
    ScanFrom(b, CityScan(0, cities, []), 0)
  }

  /** A mark on a scanned cell that some segment of its tile carries. */
  ghost predicate Scanned(b: Board, m: Triple)
  {
    && 0 <= m.0 < BOARD_SIZE && 0 <= m.1 < BOARD_SIZE && (m.0, m.1) in b.grid
    && exists p: Pos :: b.grid[(m.0, m.1)].ids[p] == m.2
  }

  /**
   * Phase 2 pays three points for every closed walk it starts; each walk starts from one of
   * the given marks that no earlier walk reached, and every scanned mark ends up reached by
   * some walk.
   */
  lemma CityScanFacts(b: Board, cities: set<Triple>)
    ensures var r := CityScanAll(b, cities);
      && r.points == 3 * ClosedCount(b, r.starts)
      && StartsFresh(b, cities, r.starts)
      && (forall m | m in cities && Scanned(b, m) :: m in UnionVisited(b, r.starts))
  {
    assert UnionVisited(b, []) == {};
    ScanFacts(b, cities, CityScan(0, cities, []), 0);
    var r := CityScanAll(b, cities);
    forall m | m in cities && Scanned(b, m) ensures m in UnionVisited(b, r.starts) {
      var p: Pos :| b.grid[(m.0, m.1)].ids[p] == m.2;
      var n := ScanIndex(m.0, m.1, p);
      assert TripleOf(b, ScanEntry(n)) == m;
    }
  }

  // ---- fields: the whole collection ---------------------------------------------------------

  /** The city slots bordering the segments of a field walk that were not paid before. */
  ghost function BorderingCities(b: Board, marks: set<Triple>, trace: seq<Visit>): set<Triple>
  {
    set k, m | 0 <= k < |trace| && (trace[k].x, trace[k].y) in b.grid && VisitTriple(b, trace[k]) !in marks
      && m in CityMarks(b, trace[k]) :: m
  }

  /** Phase 1 from empty city marks sets exactly the bordering city marks. */
  lemma Phase1Cities(b: Board, marks: set<Triple>, trace: seq<Visit>)
    requires TraceOnBoard(b, trace)
    ensures var r := FieldPhase1(b, FieldWalk(marks, {}), trace, false);
      r.marks == marks + TraceTriples(b, trace) && r.cities == BorderingCities(b, marks, trace)
  {
    var r := FieldPhase1(b, FieldWalk(marks, {}), trace, false);
    Phase1Facts(b, FieldWalk(marks, {}), trace);
    forall m | m in r.cities ensures m in BorderingCities(b, marks, trace) {
      assert m in r.cities - FieldWalk(marks, {}).cities;
      var k :| 0 <= k < |trace| && VisitTriple(b, trace[k]) !in marks && m in CityMarks(b, trace[k]);
    }
  }

  /** Shared body of the field collection; asWritten selects the city marks of the source as written. */
  function FieldCollect(b: Board, marks: set<Triple>, x: int, y: int, pos: Pos, finish: bool, asWritten: bool): Tally
    requires (x, y) in b.grid && (asWritten ==> IdsBelow13(b))
  {
    if !finish || StartTriple(b, x, y, pos) in marks then Tally(0, marks)
    else
      var w := Bfs(b, x, y, pos);
      BfsTrace(b, x, y, pos);
      var p1 := FieldPhase1(b, FieldWalk(marks, {}), w.trace, asWritten);
      Tally(CityScanAll(b, p1.cities).points, p1.marks)
  }

  /**
   * collect_points_field: only at the end of the game, and only for a field not paid in this
   * pass; three points for every closed city bordering the field.
   */
  function CollectField(b: Board, marks: set<Triple>, x: int, y: int, pos: Pos, finish: bool): Tally
    requires (x, y) in b.grid
  {
    FieldCollect(b, marks, x, y, pos, finish, false)
  }

  /** collect_points_field as written, with CITY_VISIT applied to an id instead of a position. */
  function CollectFieldAsWritten(b: Board, marks: set<Triple>, x: int, y: int, pos: Pos, finish: bool): Tally
    requires (x, y) in b.grid && IdsBelow13(b)
  {
    FieldCollect(b, marks, x, y, pos, finish, true)
  }

  /** Every occupied cell lies inside the arrays the scan goes over. */
  predicate WithinArrays(b: Board)
  {
    forall c | c in b.grid :: 0 <= c.0 < BOARD_SIZE && 0 <= c.1 < BOARD_SIZE
  }

  /**
   * A field scores nothing during play or when it was already paid in this pass. Otherwise all
   * its segments become marked, and it earns three points per closed walk started from a
   * bordering city mark that no earlier walk reached; every bordering city is reached.
   */
  lemma FieldScore(b: Board, marks: set<Triple>, x: int, y: int, pos: Pos, finish: bool)
    requires (x, y) in b.grid
    ensures var r := CollectField(b, marks, x, y, pos, finish);
      !finish || StartTriple(b, x, y, pos) in marks ==> r == Tally(0, marks)
    ensures var w := Bfs(b, x, y, pos);
      var r := CollectField(b, marks, x, y, pos, finish);
      finish && StartTriple(b, x, y, pos) !in marks ==>
        var cities := BorderingCities(b, marks, w.trace);
        var s := CityScanAll(b, cities);
        && r.marks == marks + w.visited
        && r.points == 3 * ClosedCount(b, s.starts)
        && StartsFresh(b, cities, s.starts)
        && (WithinArrays(b) ==> cities <= UnionVisited(b, s.starts))
  {
    var w := Bfs(b, x, y, pos);
    BfsTrace(b, x, y, pos);
    if finish && StartTriple(b, x, y, pos) !in marks {
      Phase1Cities(b, marks, w.trace);
      var cities := BorderingCities(b, marks, w.trace);
      CityScanFacts(b, cities);
      if WithinArrays(b) {
        forall m | m in cities ensures Scanned(b, m) {
          var k :| 0 <= k < |w.trace| && VisitTriple(b, w.trace[k]) !in marks && m in CityMarks(b, w.trace[k]);
          CityMarksAreCities(b, w.trace[k]);
        }
      }
    }
  }

  /**
   * Phase 2 on a single mark starts exactly one walk, and pays 3 exactly when the walk from
   * any segment carrying that mark is closed.
   */
  lemma SingleMarkScan(b: Board, e: Entry)
    requires WithinArrays(b) && OnBoard(b, e)
    ensures var r := CityScanAll(b, {TripleOf(b, e)});
      r.points == if Bfs(b, e.x, e.y, e.pos).closed then 3 else 0
  {
    var m := TripleOf(b, e);
    var r := CityScanAll(b, {m});
    CityScanFacts(b, {m});
    assert Scanned(b, m);
    assert |r.starts| >= 1 by {
      assert UnionVisited(b, []) == {};
    }
    assert FreshAt(b, {m}, r.starts, 0);
    var s0 := r.starts[0];
    assert TripleOf(b, s0) == m;
    if |r.starts| >= 2 {
      assert FreshAt(b, {m}, r.starts, 1);
      assert r.starts[..1] == [s0];
      assert r.starts[..1][..0] == [];
      BfsMarksStart(b, s0.x, s0.y, s0.pos);
      assert false;
    }
    assert r.starts == [s0];
    assert r.starts[..0] == [];
    BfsSameMark(b, e.x, e.y, s0.pos, e.pos);
  }

  // ---- scoring ignores meeples --------------------------------------------------------------

  /** Same tiles as far as scoring can tell: same shape and the same pennant flags. */
  predicate SameScoring(b1: Board, b2: Board)
  {
    SameShape(b1, b2) && forall c | c in b1.grid :: b1.grid[c].flags.pennant == b2.grid[c].flags.pennant
  }

  lemma {:induction false} TallySame(b1: Board, b2: Board, marks: set<Triple>, trace: seq<Visit>, city: bool)
    requires SameScoring(b1, b2) && TraceOnBoard(b1, trace)
    ensures TraceOnBoard(b2, trace) && TallyTrace(b1, marks, trace, city) == TallyTrace(b2, marks, trace, city)
    decreases |trace|
  {
    if |trace| > 0 {
      var n := |trace| - 1;
      assert TraceOnBoard(b1, trace[..n]);
      TallySame(b1, b2, marks, trace[..n], city);
    }
  }

  lemma {:induction false} Phase1Same(b1: Board, b2: Board, acc: FieldWalk, trace: seq<Visit>)
    requires SameShape(b1, b2) && TraceOnBoard(b1, trace)
    ensures TraceOnBoard(b2, trace) && FieldPhase1(b1, acc, trace, false) == FieldPhase1(b2, acc, trace, false)
    decreases |trace|
  {
    if |trace| > 0 {
      var v := trace[0];
      assert CityMarks(b1, v) == CityMarks(b2, v);
      var acc' := if VisitTriple(b1, v) in acc.marks then acc
        else FieldWalk(acc.marks + {VisitTriple(b1, v)}, acc.cities + CityMarks(b1, v));
      Phase1Same(b1, b2, acc', trace[1..]);
    }
  }

  lemma {:induction false} ScanSame(b1: Board, b2: Board, acc: CityScan, n: nat)
    requires SameShape(b1, b2)
    ensures ScanFrom(b1, acc, n) == ScanFrom(b2, acc, n)
    decreases SCAN_END - n
  {
    if n < SCAN_END {
      var e := ScanEntry(n);
      BfsSameShape(b1, b2, e.x, e.y, e.pos);
      assert ScanStep(b1, acc, n) == ScanStep(b2, acc, n);
      ScanSame(b1, b2, ScanStep(b1, acc, n), n + 1);
    } else {
      assert ScanFrom(b1, acc, n) == acc;
      assert ScanFrom(b2, acc, n) == acc;
    }
  }

  /** Roads, cities, fields and monasteries score the same on boards that differ only in meeples. */
  lemma ScoringSame(b1: Board, b2: Board, marks: set<Triple>, x: int, y: int, pos: Pos, finish: bool)
    requires SameScoring(b1, b2)
    ensures CollectRoad(b1, marks, x, y, pos, finish) == CollectRoad(b2, marks, x, y, pos, finish)
    ensures CollectCity(b1, marks, x, y, pos, finish) == CollectCity(b2, marks, x, y, pos, finish)
    ensures (x, y) in b1.grid ==> CollectField(b1, marks, x, y, pos, finish) == CollectField(b2, marks, x, y, pos, finish)
    ensures MonasteryPoints(b1, x, y, finish) == MonasteryPoints(b2, x, y, finish)
  {
    BfsSameShape(b1, b2, x, y, pos);
    var w := Bfs(b1, x, y, pos);
    BfsTrace(b1, x, y, pos);
    TallySame(b1, b2, marks, w.trace, false);
    TallySame(b1, b2, marks, w.trace, true);
    Phase1Same(b1, b2, FieldWalk(marks, {}), w.trace);
    ScanSame(b1, b2, CityScan(0, FieldPhase1(b1, FieldWalk(marks, {}), w.trace, false).cities, []), 0);
    assert Block(b1, x, y) == Block(b2, x, y);
  }
}
