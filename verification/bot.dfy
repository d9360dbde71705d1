/**
 * Bot: the move search of the computer player (bot.c).
 *
 * The float arithmetic of the source is modelled on reals, the probability table and the
 * point counts on integers. Every call of rand() is a draw taken from a caller-supplied
 * function of the draw number.
 */
module Bot {
  import opened Wrappers
  import opened Tiles
  import opened Board
  import opened Walk
  import opened Meeples
  import Points

  // ---- tile_probability ---------------------------------------------------------------------

  /**
   * TILE_COUNTS[c][r]: how many of the 72 tiles fit a cell with c city sides and r road
   * sides around it.
   */
  const TILE_COUNTS: seq<seq<nat>> := [
    [4, 2, 17, 4, 1],
    [5, 0, 10, 3, 0],
    [13, 0, 5, 0, 0],
    [4, 3, 0, 0, 0],
    [1, 0, 0, 0, 0]
  ]

  /** TILE_COUNTS[row][lo] + ... + TILE_COUNTS[row][hi - 1]. */
  function RowSum(row: nat, lo: nat, hi: nat): nat
    requires row < 5 && lo <= hi <= 5
    decreases hi - lo
  {
    if lo == hi then 0 else TILE_COUNTS[row][lo] + RowSum(row, lo + 1, hi)
  }

  /** The entries of rows rlo .. rhi-1 and columns clo .. chi-1, row by row. */
  function RectSum(rlo: nat, rhi: nat, clo: nat, chi: nat): nat
    requires rlo <= rhi <= 5 && clo <= chi <= 5
    decreases rhi - rlo
  {
    if rlo == rhi then 0 else RowSum(rlo, clo, chi) + RectSum(rlo + 1, rhi, clo, chi)
  }

  /** The table accounts for every tile of the deck exactly once. */
  lemma TileCountsTotal()
    ensures RectSum(0, 5, 0, 5) == TILE_COUNT
  {
    assert RowSum(0, 0, 5) == 28;
    assert RowSum(1, 0, 5) == 18;
    assert RowSum(2, 0, 5) == 18;
    assert RowSum(3, 0, 5) == 7;
    assert RowSum(4, 0, 5) == 1;
  }

  lemma {:induction false} RowSumMono(row: nat, lo: nat, hi: nat, lo': nat, hi': nat)
    requires row < 5 && lo' <= lo <= hi <= hi' <= 5
    ensures RowSum(row, lo, hi) <= RowSum(row, lo', hi')
    decreases (lo - lo') + (hi' - hi)
  {
    if lo' < lo {
      RowSumMono(row, lo, hi, lo' + 1, hi');
    } else if hi < hi' {
      RowSumSplit(row, lo, hi, hi');
    }
  }

  lemma {:induction false} RowSumSplit(row: nat, lo: nat, mid: nat, hi: nat)
    requires row < 5 && lo <= mid <= hi <= 5
    ensures RowSum(row, lo, hi) == RowSum(row, lo, mid) + RowSum(row, mid, hi)
    decreases mid - lo
  {
    if lo < mid {
      RowSumSplit(row, lo + 1, mid, hi);
    }
  }

  lemma {:induction false} RectSumSplit(rlo: nat, mid: nat, rhi: nat, clo: nat, chi: nat)
    requires rlo <= mid <= rhi <= 5 && clo <= chi <= 5
    ensures RectSum(rlo, rhi, clo, chi) == RectSum(rlo, mid, clo, chi) + RectSum(mid, rhi, clo, chi)
    decreases mid - rlo
  {
    if rlo < mid {
      RectSumSplit(rlo + 1, mid, rhi, clo, chi);
    }
  }

  lemma {:induction false} RectSumCols(rlo: nat, rhi: nat, clo: nat, chi: nat)
    requires rlo <= rhi <= 5 && clo <= chi <= 5
    ensures RectSum(rlo, rhi, clo, chi) <= RectSum(rlo, rhi, 0, 5)
    decreases rhi - rlo
  {
    if rlo < rhi {
      RowSumMono(rlo, clo, chi, 0, 5);
      RectSumCols(rlo + 1, rhi, clo, chi);
    }
  }

  /** A sub-rectangle of the table never counts more tiles than the deck holds. */
  lemma RectSumBound(rlo: nat, rhi: nat, clo: nat, chi: nat)
    requires rlo <= rhi <= 5 && clo <= chi <= 5
    ensures RectSum(rlo, rhi, clo, chi) <= TILE_COUNT
  {
    RectSumCols(rlo, rhi, clo, chi);
    RectSumSplit(0, rlo, 5, 0, 5);
    RectSumSplit(rlo, rhi, 5, 0, 5);
    TileCountsTotal();
  }

  /** What the four cells around a cell show: city sides, road sides and empty cells. */
  datatype Around = Around(cities: nat, roads: nat, unknown: nat)

  /** TILE_IDX[d]: the middle slot of side d (up 1, right 4, down 7, left 10). */
  function MiddleSlot(d: nat): (p: nat)
    requires d < 4
    ensures p < 12 && p == 3 * d + 1
  {
    3 * d + 1
  }

  /** The slot of the neighbour on side d that faces the cell: TILE_IDX[d] turned by six slots. */
  function FacingSlot(d: nat): (p: nat)
    requires d < 4
    ensures p < 12 && p == (MiddleSlot(d) + 6) % 12
  {
    if d == 0 then 7 else if d == 1 then 10 else if d == 2 then 1 else 4
  }

  function FacingType(n: Tile, d: nat): TileType
    requires d < 4
  {
    n.types[FacingSlot(d)]
  }

  /** The class of the cell on side d: 0 empty, 1 city facing, 2 road facing, 3 anything else. */
  function SideClass(b: Board, x: int, y: int, d: nat): nat
    requires d < 4
  {
    var n := Neighbour(b, x, y, d);
    if n.None? then 0 else if FacingType(n.value, d) == City then 1 else if FacingType(n.value, d) == Road then 2 else 3
  }

  /** The loop of tile_probability over the sides d .. 3 (up, right, down, left). */
  function AroundFrom(b: Board, x: int, y: int, d: nat, a: Around): Around
    requires d <= 4
    decreases 4 - d
  {
    if d == 4 then a else AroundFrom(b, x, y, d + 1, AddSide(a, SideClass(b, x, y, d)))
  }

  /** One side counted: an empty cell is unknown, a city or road facing side is counted as such. */
  function AddSide(a: Around, c: nat): Around
  {
    if c == 0 then a.(unknown := a.unknown + 1)
    else if c == 1 then a.(cities := a.cities + 1)
    else if c == 2 then a.(roads := a.roads + 1)
    else a
  }

  /** The sides from d on of the given class. */
  ghost function SidesOf(b: Board, x: int, y: int, d: nat, c: nat): set<nat>
  {
    set e | d <= e < 4 && SideClass(b, x, y, e) == c
  }

  lemma SidesStep(b: Board, x: int, y: int, d: nat, c: nat)
    requires d < 4
    ensures |SidesOf(b, x, y, d, c)| == |SidesOf(b, x, y, d + 1, c)| + (if SideClass(b, x, y, d) == c then 1 else 0)
  {
    var s, s' := SidesOf(b, x, y, d, c), SidesOf(b, x, y, d + 1, c);
    if SideClass(b, x, y, d) == c {
      assert s == s' + {d};
    } else {
      assert s == s';
    }
  }

  lemma {:induction false} AroundCounts(b: Board, x: int, y: int, d: nat, a: Around)
    requires d <= 4
    ensures var r := AroundFrom(b, x, y, d, a);
      && r.unknown == a.unknown + |SidesOf(b, x, y, d, 0)|
      && r.cities == a.cities + |SidesOf(b, x, y, d, 1)|
      && r.roads == a.roads + |SidesOf(b, x, y, d, 2)|
      && |SidesOf(b, x, y, d, 0)| + |SidesOf(b, x, y, d, 1)| + |SidesOf(b, x, y, d, 2)| <= 4 - d
    decreases 4 - d
  {
    if d == 4 {
      assert SidesOf(b, x, y, d, 0) == {};
      assert SidesOf(b, x, y, d, 1) == {};
      assert SidesOf(b, x, y, d, 2) == {};
    } else {
      var a' := AddSide(a, SideClass(b, x, y, d));
      AroundCounts(b, x, y, d + 1, a');
      SidesStep(b, x, y, d, 0);
      SidesStep(b, x, y, d, 1);
      SidesStep(b, x, y, d, 2);
    }
  }

  /**
   * The counts tile_probability collects: the empty neighbour cells, and the present
   * neighbours showing a city or a road on the facing side, at most four in all.
   */
  function Surroundings(b: Board, x: int, y: int): (a: Around)
    ensures a.unknown == |SidesOf(b, x, y, 0, 0)|
    ensures a.cities == |SidesOf(b, x, y, 0, 1)| && a.roads == |SidesOf(b, x, y, 0, 2)|
    ensures a.cities + a.roads + a.unknown <= 4
  {
    AroundCounts(b, x, y, 0, Around(0, 0, 0));
    AroundFrom(b, x, y, 0, Around(0, 0, 0))
  }

  /**
   * The summed table entries: every way the unknown sides could turn out to be cities or
   * roads. Every index stays within the table, and the sum within the deck.
   */
  function TilesFitting(b: Board, x: int, y: int): (n: nat)
    ensures n <= TILE_COUNT
  {
    var a := Surroundings(b, x, y);
    FittingSum(a)
  }

  /** The table entries for the given counts: known cities and roads, each unknown side either way. */
  function FittingSum(a: Around): (n: nat)
    requires a.cities + a.roads + a.unknown <= 4
    ensures n <= TILE_COUNT
  {
    var rhi, chi := a.cities + a.unknown + 1, a.roads + a.unknown + 1;
    RectSumBound(a.cities, rhi, a.roads, chi);
    RectSum(a.cities, rhi, a.roads, chi)
  }

  /** A cell with no neighbour at all is fitted by every tile. */
  lemma IsolatedCellFitsAll(b: Board, x: int, y: int)
    requires forall d | 0 <= d < 4 :: Neighbour(b, x, y, d).None?
    ensures TilesFitting(b, x, y) == TILE_COUNT
  {
    assert SidesOf(b, x, y, 0, 0) == {0, 1, 2, 3};
    TileCountsTotal();
  }

  function Pow(r: real, n: nat): real
  {
    if n == 0 then 1.0 else r * Pow(r, n - 1)
  }

  lemma {:induction false} PowUnit(r: real, n: nat)
    requires 0.0 <= r <= 1.0
    ensures 0.0 <= Pow(r, n) <= 1.0
  {
    if n > 0 {
      PowUnit(r, n - 1);
      MulUnit(r, Pow(r, n - 1));
    }
  }

  lemma {:induction false} PowAntitone(r: real, n: nat, m: nat)
    requires 0.0 <= r <= 1.0 && n <= m
    ensures Pow(r, m) <= Pow(r, n)
    decreases m - n
  {
    if n < m {
      var p := Pow(r, m - 1);
      PowAntitone(r, n, m - 1);
      PowUnit(r, m - 1);
      MulUnit(r, p);
      assert Pow(r, m) == r * p;
    }
  }

  /**
   * tile_probability: the chance that at least one of the remaining draws fits the cell,
   * taking every draw as independent with the fitting share of the deck.
   */
  function TileProbability(b: Board, x: int, y: int, remaining: nat): (p: real)
    ensures 0.0 <= p <= 1.0
  {
    var n := TilesFitting(b, x, y);
    var share := n as real / 72.0;
    assert 0.0 <= share <= 1.0;
    Chance(share, remaining)
  }

  /** The chance of at least one hit in n independent draws that each hit with the given share. */
  function Chance(share: real, n: nat): (c: real)
    requires 0.0 <= share <= 1.0
    ensures 0.0 <= c <= 1.0
  {
    PowUnit(1.0 - share, n);
    1.0 - Pow(1.0 - share, n)
  }

  lemma ChanceFacts(share: real, n: nat, m: nat)
    requires 0.0 <= share <= 1.0 && n <= m
    ensures Chance(share, 0) == 0.0
    ensures Chance(share, n) <= Chance(share, m)
    ensures share == 0.0 ==> Chance(share, n) == 0.0
    ensures share == 1.0 && n > 0 ==> Chance(share, n) == 1.0
  {
    PowAntitone(1.0 - share, n, m);
    if share == 0.0 {
      PowOne(n);
    }
    if share == 1.0 && n > 0 {
      assert Pow(0.0, n) == 0.0 * Pow(0.0, n - 1);
    }
  }

  /**
   * With nothing left to draw a cell stays open; more draws never lower the chance; a cell
   * that no tile fits is never filled, and a cell every tile fits is filled by the next draw.
   */
  lemma ProbabilityFacts(b: Board, x: int, y: int, remaining: nat, more: nat)
    requires remaining <= more
    ensures TileProbability(b, x, y, 0) == 0.0
    ensures TileProbability(b, x, y, remaining) <= TileProbability(b, x, y, more)
    ensures TilesFitting(b, x, y) == 0 ==> TileProbability(b, x, y, remaining) == 0.0
    ensures TilesFitting(b, x, y) == TILE_COUNT && remaining > 0 ==> TileProbability(b, x, y, remaining) == 1.0
  {
    var n := TilesFitting(b, x, y);
    var share := n as real / 72.0;
    assert 0.0 <= share <= 1.0;
    assert TileProbability(b, x, y, 0) == Chance(share, 0);
    assert TileProbability(b, x, y, remaining) == Chance(share, remaining);
    assert TileProbability(b, x, y, more) == Chance(share, more);
    ChanceFacts(share, remaining, more);
  }

  lemma {:induction false} PowOne(n: nat)
    ensures Pow(1.0, n) == 1.0
  {
    if n > 0 {
      PowOne(n - 1);
    }
  }

  // ---- features -----------------------------------------------------------------------------

  /** Meeple counts per colour, index 0 (MeepleNone) included. */
  type Counts = s: seq<nat> | |s| == MEEPLE_COLOR_COUNT + 1 witness [0, 0, 0, 0, 0, 0]

  const ZERO_COUNTS: Counts := [0, 0, 0, 0, 0, 0]

  /** A feature under evaluation: its type, its number, its points, its completion chance and its meeples. */
  datatype Feature = Feature(kind: TileType, id: nat, points: nat, cprob: real, meeple: Counts)

  /** What a feature is worth if it stays open: half for a city, the full points otherwise. */
  function OpenPoints(f: Feature): (p: nat)
    ensures p <= f.points && (f.kind != City ==> p == f.points)
  {
    if f.kind == City then f.points / 2 else f.points
  }

  /**
   * feature_value: the points weighted by the completion chance. For a chance between 0 and 1
   * it lies between the open and the closed worth; a certain feature is worth its points.
   */
  function FeatureValue(f: Feature): (v: real)
    ensures 0.0 <= f.cprob <= 1.0 ==> OpenPoints(f) as real <= v <= f.points as real
    ensures f.cprob == 1.0 ==> v == f.points as real
    ensures f.cprob == 0.0 ==> v == OpenPoints(f) as real
  {
    Weighted(f.cprob, f.points as real, OpenPoints(f) as real)
  }

  /** c * a + (1 - c) * b, the mean of a and b with weight c on a. */
  function Weighted(c: real, a: real, b: real): (v: real)
    requires b <= a
    ensures 0.0 <= c <= 1.0 ==> b <= v <= a
    ensures c == 1.0 ==> v == a
    ensures c == 0.0 ==> v == b
  {
    var v := c * a + (1.0 - c) * b;
    Mix(c, a, b, v);
    v
  }

  /** A weighted mean of two values lies between them and equals the weighted end at weight 0 or 1. */
  lemma Mix(c: real, a: real, b: real, v: real)
    requires b <= a && v == c * a + (1.0 - c) * b
    ensures 0.0 <= c <= 1.0 ==> b <= v <= a
    ensures c == 1.0 ==> v == a
    ensures c == 0.0 ==> v == b
  {
    Distribute(c, a, b);
    MulUnit(c, a - b);
  }

  lemma Distribute(c: real, a: real, b: real)
    ensures c * a + (1.0 - c) * b == b + c * (a - b)
  {
  }

  lemma MulUnit(x: real, y: real)
    requires 0.0 <= y
    ensures 0.0 <= x <= 1.0 ==> 0.0 <= x * y <= y
    ensures x == 1.0 ==> x * y == y
    ensures x == 0.0 ==> x * y == 0.0
  {
    if 0.0 <= x <= 1.0 {
      assert 0.0 <= (1.0 - x) * y;
      assert 0.0 <= x * y;
    }
  }

  /** The mover's count and the largest count of any other index, from index i on. */
  datatype Standing = Standing(own: nat, opponent: nat)

  function StandingFrom(counts: Counts, player: Color, i: nat, s: Standing): Standing
    requires i <= MEEPLE_COLOR_COUNT + 1
    decreases MEEPLE_COLOR_COUNT + 1 - i
  {
    if i == MEEPLE_COLOR_COUNT + 1 then s
    else if i == player then StandingFrom(counts, player, i + 1, s.(own := counts[i]))
    else StandingFrom(counts, player, i + 1, s.(opponent := if counts[i] > s.opponent then counts[i] else s.opponent))
  }

  lemma {:induction false} StandingFacts(counts: Counts, player: Color, i: nat, s: Standing)
    requires i <= MEEPLE_COLOR_COUNT + 1
    requires i <= player ==> s.own == 0
    requires i > player ==> s.own == counts[player]
    ensures var r := StandingFrom(counts, player, i, s);
      && r.own == counts[player]
      && s.opponent <= r.opponent
      && (forall j | i <= j < 6 && j != player :: counts[j] <= r.opponent)
      && (r.opponent == s.opponent || exists j | i <= j < 6 && j != player :: counts[j] == r.opponent)
    decreases MEEPLE_COLOR_COUNT + 1 - i
  {
    if i < MEEPLE_COLOR_COUNT + 1 {
      if i == player {
        StandingFacts(counts, player, i + 1, s.(own := counts[i]));
      } else {
        StandingFacts(counts, player, i + 1, s.(opponent := if counts[i] > s.opponent then counts[i] else s.opponent));
      }
    }
  }

  /**
   * feature_relative_value: nothing when nobody holds the feature; its value when the mover
   * holds at least as many meeples as every other colour; minus its value otherwise.
   */
  function RelativeValue(f: Feature, player: Color): (r: real)
    ensures (forall i | 0 <= i < 6 :: f.meeple[i] == 0) ==> r == 0.0
    ensures (exists i | 0 <= i < 6 :: f.meeple[i] != 0) && (forall i | 0 <= i < 6 && i != player :: f.meeple[i] <= f.meeple[player])
      ==> r == FeatureValue(f)
    ensures (exists i | 0 <= i < 6 && i != player :: f.meeple[i] > f.meeple[player]) ==> r == -FeatureValue(f)
  {
    var s := StandingFrom(f.meeple, player, 0, Standing(0, 0));
    StandingFacts(f.meeple, player, 0, Standing(0, 0));
    var value := FeatureValue(f);
    if s.own == 0 && s.opponent == 0 then 0.0 else if s.own >= s.opponent then value else -value
  }

  // ---- evaluate_feature ---------------------------------------------------------------------

  /** feature_ids: the feature number stamped on a mark (x, y, id); a mark with no entry holds 0. */
  type FeatureIds = map<Triple, nat>

  /** The feature being built, the stamps, and the cells of C_PROB that are set. */
  datatype Eval = Eval(feat: Feature, ids: FeatureIds, marks: set<Cell>)

  /** What a newly reached tile adds: 4 for a pennant city tile, 2 for a city tile, 1 otherwise. */
  function TileWorth(kind: TileType, t: Tile): nat
  {
    if kind == City then (if t.flags.pennant then 4 else 2) else 1
  }

  /** tile_probability of every cell, for the given number of remaining tiles. */
  function ProbOf(b: Board, remaining: nat): Cell -> real
  {
    (c: Cell) => TileProbability(b, c.0, c.1, remaining)
  }

  /** Every value of the table is a probability. */
  ghost predicate UnitProbs(prob: Cell -> real)
  {
    forall c :: 0.0 <= prob(c) <= 1.0
  }

  lemma ProbOfUnit(b: Board, remaining: nat)
    ensures UnitProbs(ProbOf(b, remaining))
  {
  }

  /** A chance multiplied by a probability, kept behind a name so that proofs about the walk see no real products. */
  function Times(chance: real, p: real): real
  {
    chance * p
  }

  /** Multiplying by a probability keeps a chance a chance and never raises it. */
  lemma TimesUnit(chance: real, p: real)
    requires 0.0 <= chance && 0.0 <= p <= 1.0
    ensures 0.0 <= Times(chance, p) <= chance
    ensures chance <= 1.0 ==> Times(chance, p) <= p
  {
    MulUnit(p, chance);
    MulUnit(chance, p);
    assert p * chance == chance * p;
  }

  /** The completion chance so far and the C_PROB cells. */
  datatype Chances = Chances(cprob: real, marks: set<Cell>)

  /** The empty cell beside side d of a segment whose id the middle slot of that side carries. */
  predicate OpenSide(b: Board, t: Tile, x: int, y: int, id: nat, d: nat)
    requires d < 4
  {
    t.ids[MiddleSlot(d)] == id && (x + DX(d), y + DY(d)) !in b.grid
  }

  /**
   * The side loop of evaluate_feature_cb from side d on: an open side whose cell is not in
   * C_PROB yet puts it there and multiplies the chance by that cell's tile_probability.
   */
  function SideChances(b: Board, prob: Cell -> real, t: Tile, x: int, y: int, id: nat, d: nat, c: Chances): Chances
    requires d <= 4
    decreases 4 - d
  {
    if d == 4 then c
    else
      var cell := (x + DX(d), y + DY(d));
      if !OpenSide(b, t, x, y, id, d) || cell in c.marks then SideChances(b, prob, t, x, y, id, d + 1, c)
      else SideChances(b, prob, t, x, y, id, d + 1, Chances(Times(c.cprob, prob(cell)), c.marks + {cell}))
  }

  /** evaluate_feature_cb for one callback. */
  function CbVisit(b: Board, prob: Cell -> real, acc: Eval, v: Visit): Eval
  {
    if (v.x, v.y) !in b.grid then acc
    else
    var t := b.grid[(v.x, v.y)];
    var id := t.ids[v.pos];
    var f := acc.feat;
    var points := if v.revisit then f.points else f.points + TileWorth(f.kind, t);
    var c := SideChances(b, prob, t, v.x, v.y, id, 0, Chances(f.cprob, acc.marks));
    var col := t.meeple.color;
    var meeple := if col != NO_COLOR && t.ids[t.meeple.pos] == id then f.meeple[col := f.meeple[col] + 1] else f.meeple;
    Eval(f.(points := points, cprob := c.cprob, meeple := meeple), acc.ids[(v.x, v.y, id) := f.id], c.marks)
  }

  /** The callbacks of a walk, in order (a walk only visits occupied cells). */
  function FeatureTrace(b: Board, prob: Cell -> real, acc: Eval, trace: seq<Visit>): Eval
    decreases |trace|
  {
    if |trace| == 0 then acc
    else
      var n := |trace| - 1;
      CbVisit(b, prob, FeatureTrace(b, prob, acc, trace[..n]), trace[n])
  }

  /** The monastery loop of evaluate_feature over the 3x3 block from cell k on. */
  function MonasteryFrom(b: Board, prob: Cell -> real, x: int, y: int, k: nat, f: Feature): Feature
    requires k <= 9
    decreases 9 - k
  {
    if k == 9 then f
    else
      var c := Points.BlockCell(x, y, k);
      var f' := if c in b.grid then f.(points := f.points + 1) else f.(cprob := Times(f.cprob, prob(c)));
      MonasteryFrom(b, prob, x, y, k + 1, f')
  }

  /**
   * evaluate_feature with the C_PROB cells it is given: stamps the start mark, starts the
   * feature at 0 points and chance 1, then counts a monastery's block or walks the feature.
   */
  function EvaluateFeatureWith(b: Board, x: int, y: int, pos: Pos, remaining: nat, ids: FeatureIds, fid: nat, marks: set<Cell>): Eval
    requires (x, y) in b.grid
  {
    var prob := ProbOf(b, remaining);
    var t := b.grid[(x, y)];
    var ids' := ids[(x, y, t.ids[pos]) := fid];
    var f := Feature(t.types[pos], fid, 0, 1.0, ZERO_COUNTS);
    if f.kind == Monastery then Eval(MonasteryFrom(b, prob, x, y, 0, f), ids', marks)
    else
      BfsTrace(b, x, y, pos);
      FeatureTrace(b, prob, Eval(f, ids', marks), Bfs(b, x, y, pos).trace)
  }

  // ---- what a walk evaluation computes ------------------------------------------------------

  lemma {:induction false} TraceStamps(b: Board, prob: Cell -> real, acc: Eval, trace: seq<Visit>)
    requires TraceOnBoard(b, trace)
    ensures var r := FeatureTrace(b, prob, acc, trace);
      && r.feat.id == acc.feat.id && r.feat.kind == acc.feat.kind
      && (forall tr | tr in TraceTriples(b, trace) :: tr in r.ids && r.ids[tr] == acc.feat.id)
      && (forall tr | tr !in TraceTriples(b, trace) ::
            (tr in r.ids <==> tr in acc.ids) && (tr in acc.ids ==> r.ids[tr] == acc.ids[tr]))
    decreases |trace|
  {
    if |trace| == 0 {
      assert TraceTriples(b, trace) == {};
    } else {
      var n := |trace| - 1;
      assert trace == trace[..n] + [trace[n]];
      assert TraceOnBoard(b, trace[..n]);
      TraceStamps(b, prob, acc, trace[..n]);
      TraceTriplesSnoc(b, trace[..n], trace[n]);
    }
  }

  /** A city feature counts every scoring point twice; any other feature counts it once. */
  function Scaled(kind: TileType, n: nat): nat
  {
    if kind == City then 2 * n else n
  }

  /** One callback adds a fresh tile's scaled scoring value and keeps kind and number. */
  lemma CbVisitPoints(b: Board, prob: Cell -> real, acc: Eval, v: Visit)
    requires (v.x, v.y) in b.grid
    ensures var r := CbVisit(b, prob, acc, v);
      && r.feat.kind == acc.feat.kind && r.feat.id == acc.feat.id
      && r.feat.points == acc.feat.points +
           (if v.revisit then 0 else Scaled(acc.feat.kind, Points.TileValue(b.grid[(v.x, v.y)], acc.feat.kind == City)))
  {
  }

  lemma {:induction false} TracePoints(b: Board, prob: Cell -> real, acc: Eval, trace: seq<Visit>)
    requires TraceOnBoard(b, trace) && RevisitFlags(trace)
    ensures FeatureTrace(b, prob, acc, trace).feat.kind == acc.feat.kind
    ensures FeatureTrace(b, prob, acc, trace).feat.points ==
      acc.feat.points + Scaled(acc.feat.kind, Points.CellsValue(b, Points.FreshCells(b, {}, trace), acc.feat.kind == City))
    decreases |trace|
  {
    var city := acc.feat.kind == City;
    if |trace| == 0 {
      assert Points.FreshCells(b, {}, trace) == {};
      assert Points.PennantCells(b, {}) == {};
      assert Points.CellsValue(b, Points.FreshCells(b, {}, trace), city) == 0;
      assert FeatureTrace(b, prob, acc, trace) == acc;
    } else {
      var n := |trace| - 1;
      var p, v := trace[..n], trace[n];
      assert trace == p + [v];
      assert TraceOnBoard(b, p);
      RevisitFlagsPrefix(trace, n);
      TracePoints(b, prob, acc, p);
      var a := FeatureTrace(b, prob, acc, p);
      assert FeatureTrace(b, prob, acc, trace) == CbVisit(b, prob, a, v);
      CbVisitPoints(b, prob, a, v);
      Points.FreshCellsSnoc(b, {}, p, v);
      if !v.revisit {
        var cells := Points.FreshCells(b, {}, p);
        Points.CellsValueAdd(b, cells, (v.x, v.y), city);
        var worth := Points.TileValue(b.grid[(v.x, v.y)], city);
        assert Points.FreshCells(b, {}, trace) == cells + {(v.x, v.y)};
        assert Points.CellsValue(b, Points.FreshCells(b, {}, trace), city) == Points.CellsValue(b, cells, city) + worth;
      } else {
        assert Points.FreshCells(b, {}, trace) == Points.FreshCells(b, {}, p);
        assert FeatureTrace(b, prob, acc, trace).feat.points == a.feat.points;
      }
    }
  }

  /**
   * The side loop only lowers the chance, keeps the chance below the probability of every
   * cell it puts into C_PROB, and leaves every open side's cell in C_PROB.
   */
  lemma {:induction false} SideChancesFacts(b: Board, prob: Cell -> real, t: Tile, x: int, y: int, id: nat, d: nat, c: Chances)
    requires d <= 4 && 0.0 <= c.cprob <= 1.0 && UnitProbs(prob)
    ensures var r := SideChances(b, prob, t, x, y, id, d, c);
      && 0.0 <= r.cprob <= c.cprob && c.marks <= r.marks
      && (forall m | m in r.marks - c.marks :: r.cprob <= prob(m))
      && (forall e | d <= e < 4 && OpenSide(b, t, x, y, id, e) :: (x + DX(e), y + DY(e)) in r.marks)
    decreases 4 - d
  {
    if d < 4 {
      var cell := (x + DX(d), y + DY(d));
      if !OpenSide(b, t, x, y, id, d) || cell in c.marks {
        assert SideChances(b, prob, t, x, y, id, d, c) == SideChances(b, prob, t, x, y, id, d + 1, c);
        SideChancesFacts(b, prob, t, x, y, id, d + 1, c);
      } else {
        var p := prob(cell);
        var c' := Chances(Times(c.cprob, p), c.marks + {cell});
        assert SideChances(b, prob, t, x, y, id, d, c) == SideChances(b, prob, t, x, y, id, d + 1, c');
        TimesUnit(c.cprob, p);
        SideChancesFacts(b, prob, t, x, y, id, d + 1, c');
      }
    }
  }

  /** The empty cells beside the sides of a visited segment whose middle slot carries its id. */
  ghost function VisitOpenCells(b: Board, v: Visit): set<Cell>
  {
    if (v.x, v.y) !in b.grid then {}
    else
    var t := b.grid[(v.x, v.y)];
    set d | 0 <= d < 4 && OpenSide(b, t, v.x, v.y, t.ids[v.pos], d) :: (v.x + DX(d), v.y + DY(d))
  }

  /** The empty cells beside the open sides of every segment a trace visits. */
  ghost function OpenCells(b: Board, trace: seq<Visit>): set<Cell>
    decreases |trace|
  {
    if |trace| == 0 then {}
    else
      var n := |trace| - 1;
      OpenCells(b, trace[..n]) + VisitOpenCells(b, trace[n])
  }

  /** One callback's chance and C_PROB cells are those of its side loop. */
  lemma CbVisitChances(b: Board, prob: Cell -> real, acc: Eval, v: Visit)
    requires (v.x, v.y) in b.grid
    ensures var t := b.grid[(v.x, v.y)];
      var c := SideChances(b, prob, t, v.x, v.y, t.ids[v.pos], 0, Chances(acc.feat.cprob, acc.marks));
      var r := CbVisit(b, prob, acc, v);
      r.feat.cprob == c.cprob && r.marks == c.marks
  {
  }

  /**
   * Along a walk the chance only falls, stays below the tile_probability of every cell the
   * walk puts into C_PROB, and C_PROB only grows.
   */
  lemma {:induction false} TraceChances(b: Board, prob: Cell -> real, acc: Eval, trace: seq<Visit>)
    requires TraceOnBoard(b, trace) && 0.0 <= acc.feat.cprob <= 1.0 && UnitProbs(prob)
    ensures var r := FeatureTrace(b, prob, acc, trace);
      && 0.0 <= r.feat.cprob <= acc.feat.cprob && acc.marks <= r.marks
      && (forall m | m in r.marks - acc.marks :: r.feat.cprob <= prob(m))
    decreases |trace|
  {
    if |trace| > 0 {
      var n := |trace| - 1;
      var p, v := trace[..n], trace[n];
      assert TraceOnBoard(b, p);
      TraceChances(b, prob, acc, p);
      var a := FeatureTrace(b, prob, acc, p);
      assert FeatureTrace(b, prob, acc, trace) == CbVisit(b, prob, a, v);
      var t := b.grid[(v.x, v.y)];
      CbVisitChances(b, prob, a, v);
      SideChancesFacts(b, prob, t, v.x, v.y, t.ids[v.pos], 0, Chances(a.feat.cprob, a.marks));
    }
  }

  /** One callback puts the cells beside its segment's open sides into C_PROB and keeps the others. */
  lemma CoverageStep(b: Board, prob: Cell -> real, a: Eval, v: Visit)
    requires (v.x, v.y) in b.grid && 0.0 <= a.feat.cprob <= 1.0 && UnitProbs(prob)
    ensures a.marks + VisitOpenCells(b, v) <= CbVisit(b, prob, a, v).marks
  {
    var t := b.grid[(v.x, v.y)];
    var c := SideChances(b, prob, t, v.x, v.y, t.ids[v.pos], 0, Chances(a.feat.cprob, a.marks));
    SideChancesFacts(b, prob, t, v.x, v.y, t.ids[v.pos], 0, Chances(a.feat.cprob, a.marks));
    forall m | m in VisitOpenCells(b, v) ensures m in c.marks {
      var d :| 0 <= d < 4 && OpenSide(b, t, v.x, v.y, t.ids[v.pos], d) && m == (v.x + DX(d), v.y + DY(d));
    }
    CbVisitChances(b, prob, a, v);
  }

  /** Every empty cell beside a segment of the walk ends up in C_PROB. */
  lemma {:induction false} TraceCoverage(b: Board, prob: Cell -> real, acc: Eval, trace: seq<Visit>)
    requires TraceOnBoard(b, trace) && 0.0 <= acc.feat.cprob <= 1.0 && UnitProbs(prob)
    ensures OpenCells(b, trace) <= FeatureTrace(b, prob, acc, trace).marks
    decreases |trace|
  {
    if |trace| > 0 {
      var n := |trace| - 1;
      var p, v := trace[..n], trace[n];
      assert TraceOnBoard(b, p);
      TraceCoverage(b, prob, acc, p);
      TraceChances(b, prob, acc, p);
      CoverageStep(b, prob, FeatureTrace(b, prob, acc, p), v);
    }
  }

  lemma {:induction false} TraceMeeples(b: Board, prob: Cell -> real, acc: Eval, trace: seq<Visit>)
    requires TraceOnBoard(b, trace)
    ensures var r := FeatureTrace(b, prob, acc, trace);
      && r.feat.meeple[0] == acc.feat.meeple[0]
      && forall col: Color | col != NO_COLOR ::
           r.feat.meeple[col] >= acc.feat.meeple[col]
           && (r.feat.meeple[col] > acc.feat.meeple[col] <==> ClaimedBy(b, TraceTriples(b, trace), col) != {})
    decreases |trace|
  {
    if |trace| == 0 {
      assert TraceTriples(b, trace) == {};
    } else {
      var n := |trace| - 1;
      var p, v := trace[..n], trace[n];
      assert trace == p + [v];
      assert TraceOnBoard(b, p);
      TraceMeeples(b, prob, acc, p);
      TraceTriplesSnoc(b, p, v);
      forall col: Color | col != NO_COLOR
        ensures ClaimedBy(b, TraceTriples(b, trace), col) ==
          ClaimedBy(b, TraceTriples(b, p), col) +
            (if b.grid[(v.x, v.y)].meeple.color == col && MeepleTriple(b, (v.x, v.y)) == VisitTriple(b, v) then {(v.x, v.y)} else {})
      {
        ClaimedByAdd(b, TraceTriples(b, p), VisitTriple(b, v), col);
      }
    }
  }

  // ---- the monastery branch -----------------------------------------------------------------

  /**
   * The monastery loop adds a point for every occupied cell of the 3x3 block, multiplies the
   * chance by the tile_probability of every empty one, and counts no meeples.
   */
  lemma {:induction false} MonasteryFacts(b: Board, prob: Cell -> real, x: int, y: int, k: nat, f: Feature)
    requires k <= 9 && 0.0 <= f.cprob <= 1.0 && UnitProbs(prob)
    ensures var r := MonasteryFrom(b, prob, x, y, k, f);
      && r.kind == f.kind && r.id == f.id && r.meeple == f.meeple
      && r.points == f.points + Points.CountBlockFrom(b, x, y, k)
      && 0.0 <= r.cprob <= f.cprob
      && (forall j | k <= j < 9 && Points.BlockCell(x, y, j) !in b.grid :: r.cprob <= prob(Points.BlockCell(x, y, j)))
    decreases 9 - k
  {
    if k < 9 {
      var c := Points.BlockCell(x, y, k);
      var f' := if c in b.grid then f.(points := f.points + 1) else f.(cprob := Times(f.cprob, prob(c)));
      assert MonasteryFrom(b, prob, x, y, k, f) == MonasteryFrom(b, prob, x, y, k + 1, f');
      TimesUnit(f.cprob, prob(c));
      MonasteryFacts(b, prob, x, y, k + 1, f');
    }
  }

  // ---- evaluate_feature as a whole -----------------------------------------------------------

  /**
   * The empty cells whose tile the feature still needs: the empty cells of a monastery's
   * block, or the empty cells beside the open sides of the segments the walk reaches.
   */
  ghost function NeededCells(b: Board, x: int, y: int, pos: Pos): set<Cell>
    requires (x, y) in b.grid
  {
    if b.grid[(x, y)].types[pos] == Monastery then
      set j | 0 <= j < 9 && Points.BlockCell(x, y, j) !in b.grid :: Points.BlockCell(x, y, j)
    else
      BfsTrace(b, x, y, pos);
      OpenCells(b, Bfs(b, x, y, pos).trace)
  }

  /**
   * What evaluate_feature computes, whatever C_PROB holds: the feature has the start
   * segment's type and the given number, its chance is a probability, and C_PROB only grows.
   */
  lemma EvaluateFeatureFacts(b: Board, x: int, y: int, pos: Pos, remaining: nat, ids: FeatureIds, fid: nat, marks: set<Cell>)
    requires (x, y) in b.grid
    ensures var r := EvaluateFeatureWith(b, x, y, pos, remaining, ids, fid, marks);
      && r.feat.kind == b.grid[(x, y)].types[pos] && r.feat.id == fid
      && 0.0 <= r.feat.cprob <= 1.0
      && marks <= r.marks
  {
    var prob := ProbOf(b, remaining);
    ProbOfUnit(b, remaining);
    var t := b.grid[(x, y)];
    var f := Feature(t.types[pos], fid, 0, 1.0, ZERO_COUNTS);
    if f.kind == Monastery {
      MonasteryFacts(b, prob, x, y, 0, f);
    } else {
      BfsTrace(b, x, y, pos);
      var acc := Eval(f, ids[(x, y, t.ids[pos]) := fid], marks);
      TraceStamps(b, prob, acc, Bfs(b, x, y, pos).trace);
      TraceChances(b, prob, acc, Bfs(b, x, y, pos).trace);
    }
  }

  /** A monastery has a point per occupied cell of its block, no meeples, and only its start stamped. */
  lemma EvaluatedMonastery(b: Board, x: int, y: int, pos: Pos, remaining: nat, ids: FeatureIds, fid: nat, marks: set<Cell>)
    requires (x, y) in b.grid && b.grid[(x, y)].types[pos] == Monastery
    ensures var r := EvaluateFeatureWith(b, x, y, pos, remaining, ids, fid, marks);
      && r.feat.points == |Points.Block(b, x, y)| && r.feat.meeple == ZERO_COUNTS
      && r.ids == ids[StartTriple(b, x, y, pos) := fid] && r.marks == marks
  {
    var prob := ProbOf(b, remaining);
    ProbOfUnit(b, remaining);
    var t := b.grid[(x, y)];
    var f := Feature(t.types[pos], fid, 0, 1.0, ZERO_COUNTS);
    var r := EvaluateFeatureWith(b, x, y, pos, remaining, ids, fid, marks);
    assert r == Eval(MonasteryFrom(b, prob, x, y, 0, f), ids[StartTriple(b, x, y, pos) := fid], marks);
    MonasteryFacts(b, prob, x, y, 0, f);
    Points.CountBlockIsSize(b, x, y, 0);
    Points.BlockFromZero(b, x, y);
  }

  /**
   * Any other feature stamps its number on exactly the segments the walk marks and has a
   * point per tile it reaches; a city has two, and two more per pennant tile.
   */
  lemma EvaluatedWalk(b: Board, x: int, y: int, pos: Pos, remaining: nat, ids: FeatureIds, fid: nat, marks: set<Cell>)
    requires (x, y) in b.grid && b.grid[(x, y)].types[pos] != Monastery
    ensures var kind := b.grid[(x, y)].types[pos];
      var r := EvaluateFeatureWith(b, x, y, pos, remaining, ids, fid, marks);
      var w := Bfs(b, x, y, pos);
      && r.feat.points == Scaled(kind, Points.CellsValue(b, TraceCells(w.trace), kind == City))
      && (forall tr | tr in w.visited :: tr in r.ids && r.ids[tr] == fid)
      && (forall tr | tr !in w.visited :: (tr in r.ids <==> tr in ids) && (tr in ids ==> r.ids[tr] == ids[tr]))
  {
    var prob := ProbOf(b, remaining);
    var t := b.grid[(x, y)];
    var w := Bfs(b, x, y, pos);
    BfsTrace(b, x, y, pos);
    BfsMarksStart(b, x, y, pos);
    var acc := Eval(Feature(t.types[pos], fid, 0, 1.0, ZERO_COUNTS), ids[(x, y, t.ids[pos]) := fid], marks);
    TraceStamps(b, prob, acc, w.trace);
    TracePoints(b, prob, acc, w.trace);
    Points.AllFresh(b, {}, w.trace);
  }

  /** The state evaluate_feature hands to the walk: the start stamped, 0 points, chance 1, no meeples. */
  function StartEval(b: Board, x: int, y: int, pos: Pos, ids: FeatureIds, fid: nat, marks: set<Cell>): Eval
    requires (x, y) in b.grid
  {
    var t := b.grid[(x, y)];
    Eval(Feature(t.types[pos], fid, 0, 1.0, ZERO_COUNTS), ids[(x, y, t.ids[pos]) := fid], marks)
  }

  /** Outside the monastery case, evaluate_feature is the walk's callbacks folded over the start state. */
  lemma WalkEvaluation(b: Board, x: int, y: int, pos: Pos, remaining: nat, ids: FeatureIds, fid: nat, marks: set<Cell>)
    requires (x, y) in b.grid && b.grid[(x, y)].types[pos] != Monastery
    ensures EvaluateFeatureWith(b, x, y, pos, remaining, ids, fid, marks) ==
      FeatureTrace(b, ProbOf(b, remaining), StartEval(b, x, y, pos, ids, fid, marks), Bfs(b, x, y, pos).trace)
  {
  }

  /** A walked feature counts a colour's meeples exactly when a meeple of that colour stands on it. */
  lemma EvaluatedMeeples(b: Board, x: int, y: int, pos: Pos, remaining: nat, ids: FeatureIds, fid: nat, marks: set<Cell>)
    requires (x, y) in b.grid && b.grid[(x, y)].types[pos] != Monastery
    ensures var r := EvaluateFeatureWith(b, x, y, pos, remaining, ids, fid, marks);
      && r.feat.meeple[NO_COLOR] == 0
      && (forall col: Color | col != NO_COLOR :: r.feat.meeple[col] > 0 <==> ClaimedBy(b, Bfs(b, x, y, pos).visited, col) != {})
  {
    BfsTrace(b, x, y, pos);
    WalkEvaluation(b, x, y, pos, remaining, ids, fid, marks);
    MeeplesFromNone(b, ProbOf(b, remaining), StartEval(b, x, y, pos, ids, fid, marks), Bfs(b, x, y, pos).trace);
  }

  /** Counting from no meeples, a colour's count is positive exactly when that colour claims a visited segment. */
  lemma MeeplesFromNone(b: Board, prob: Cell -> real, acc: Eval, trace: seq<Visit>)
    requires TraceOnBoard(b, trace) && acc.feat.meeple == ZERO_COUNTS
    ensures var r := FeatureTrace(b, prob, acc, trace);
      && r.feat.meeple[NO_COLOR] == 0
      && (forall col: Color | col != NO_COLOR :: r.feat.meeple[col] > 0 <==> ClaimedBy(b, TraceTriples(b, trace), col) != {})
  {
    TraceMeeples(b, prob, acc, trace);
    var r := FeatureTrace(b, prob, acc, trace);
    forall col: Color | col != NO_COLOR
      ensures r.feat.meeple[col] > 0 <==> ClaimedBy(b, TraceTriples(b, trace), col) != {}
    {
      assert acc.feat.meeple[col] == 0;
    }
  }

  /** An evaluated feature and the stamps after its evaluation. */
  datatype Stamped = Stamped(feat: Feature, ids: FeatureIds)

  /**
   * evaluate_feature with C_PROB cleared before every feature, so that each empty cell a
   * feature needs contributes its tile_probability once to that feature's chance.
   */
  function EvaluateFeature(b: Board, x: int, y: int, pos: Pos, remaining: nat, ids: FeatureIds, fid: nat): (r: Stamped)
    requires (x, y) in b.grid
    ensures r.feat.kind == b.grid[(x, y)].types[pos] && r.feat.id == fid
    ensures 0.0 <= r.feat.cprob <= 1.0
    ensures forall c | c in NeededCells(b, x, y, pos) :: r.feat.cprob <= TileProbability(b, c.0, c.1, remaining)
  {
    EvaluateFeatureFacts(b, x, y, pos, remaining, ids, fid, {});
    EvaluateFeatureChance(b, x, y, pos, remaining, ids, fid);
    var e := EvaluateFeatureWith(b, x, y, pos, remaining, ids, fid, {});
    Stamped(e.feat, e.ids)
  }

  /** With C_PROB empty at the start, the chance is at most the probability of every needed cell. */
  lemma EvaluateFeatureChance(b: Board, x: int, y: int, pos: Pos, remaining: nat, ids: FeatureIds, fid: nat)
    requires (x, y) in b.grid
    ensures var r := EvaluateFeatureWith(b, x, y, pos, remaining, ids, fid, {});
      forall c | c in NeededCells(b, x, y, pos) :: r.feat.cprob <= TileProbability(b, c.0, c.1, remaining)
  {
    if b.grid[(x, y)].types[pos] == Monastery {
      MonasteryChance(b, x, y, pos, remaining, ids, fid);
    } else {
      WalkChance(b, x, y, pos, remaining, ids, fid);
    }
  }

  lemma MonasteryChance(b: Board, x: int, y: int, pos: Pos, remaining: nat, ids: FeatureIds, fid: nat)
    requires (x, y) in b.grid && b.grid[(x, y)].types[pos] == Monastery
    ensures var r := EvaluateFeatureWith(b, x, y, pos, remaining, ids, fid, {});
      forall j | 0 <= j < 9 && Points.BlockCell(x, y, j) !in b.grid ::
        r.feat.cprob <= TileProbability(b, Points.BlockCell(x, y, j).0, Points.BlockCell(x, y, j).1, remaining)
  {
    var prob := ProbOf(b, remaining);
    ProbOfUnit(b, remaining);
    var t := b.grid[(x, y)];
    MonasteryFacts(b, prob, x, y, 0, Feature(t.types[pos], fid, 0, 1.0, ZERO_COUNTS));
  }

  lemma WalkChance(b: Board, x: int, y: int, pos: Pos, remaining: nat, ids: FeatureIds, fid: nat)
    requires (x, y) in b.grid && b.grid[(x, y)].types[pos] != Monastery
    ensures TraceOnBoard(b, Bfs(b, x, y, pos).trace)
    ensures var r := EvaluateFeatureWith(b, x, y, pos, remaining, ids, fid, {});
      forall c | c in OpenCells(b, Bfs(b, x, y, pos).trace) :: r.feat.cprob <= TileProbability(b, c.0, c.1, remaining)
  {
    var prob := ProbOf(b, remaining);
    ProbOfUnit(b, remaining);
    var t := b.grid[(x, y)];
    var w := Bfs(b, x, y, pos);
    BfsTrace(b, x, y, pos);
    var acc := Eval(Feature(t.types[pos], fid, 0, 1.0, ZERO_COUNTS), ids[(x, y, t.ids[pos]) := fid], {});
    var r := EvaluateFeatureWith(b, x, y, pos, remaining, ids, fid, {});
    assert r == FeatureTrace(b, prob, acc, w.trace);
    TraceChances(b, prob, acc, w.trace);
    TraceCoverage(b, prob, acc, w.trace);
    forall c | c in OpenCells(b, w.trace) ensures r.feat.cprob <= TileProbability(b, c.0, c.1, remaining) {
      assert r.feat.cprob <= prob(c);
    }
  }

  /** The stamps take no part in the feature itself: two walks from different stamps build the same feature. */
  lemma {:induction false} TraceIgnoresIds(b: Board, prob: Cell -> real, a1: Eval, a2: Eval, trace: seq<Visit>)
    requires a1.feat == a2.feat && a1.marks == a2.marks
    ensures FeatureTrace(b, prob, a1, trace).feat == FeatureTrace(b, prob, a2, trace).feat
    ensures FeatureTrace(b, prob, a1, trace).marks == FeatureTrace(b, prob, a2, trace).marks
    decreases |trace|
  {
    if |trace| > 0 {
      var n := |trace| - 1;
      TraceIgnoresIds(b, prob, a1, a2, trace[..n]);
    }
  }

  /** What evaluate_feature builds does not depend on the stamps it is given. */
  lemma FeatureIgnoresIds(b: Board, x: int, y: int, pos: Pos, remaining: nat, ids1: FeatureIds, ids2: FeatureIds, fid: nat)
    requires (x, y) in b.grid
    ensures EvaluateFeature(b, x, y, pos, remaining, ids1, fid).feat == EvaluateFeature(b, x, y, pos, remaining, ids2, fid).feat
  {
    if b.grid[(x, y)].types[pos] != Monastery {
      WalkEvaluation(b, x, y, pos, remaining, ids1, fid, {});
      WalkEvaluation(b, x, y, pos, remaining, ids2, fid, {});
      TraceIgnoresIds(b, ProbOf(b, remaining), StartEval(b, x, y, pos, ids1, fid, {}), StartEval(b, x, y, pos, ids2, fid, {}), Bfs(b, x, y, pos).trace);
    }
  }

  /**
   * evaluate_feature stamps its number on the start segment and, for a walked feature, on
   * every segment of the walk; every other stamp is kept, and no stamp is removed.
   */
  lemma EvaluateFeatureStamps(b: Board, x: int, y: int, pos: Pos, remaining: nat, ids: FeatureIds, fid: nat)
    requires (x, y) in b.grid
    ensures var r := EvaluateFeature(b, x, y, pos, remaining, ids, fid);
      && StartTriple(b, x, y, pos) in r.ids && r.ids[StartTriple(b, x, y, pos)] == fid
      && ids.Keys <= r.ids.Keys
      && (forall tr | tr in r.ids :: r.ids[tr] == fid || (tr in ids && r.ids[tr] == ids[tr]))
      && (b.grid[(x, y)].types[pos] != Monastery ==> forall tr | tr in Bfs(b, x, y, pos).visited :: tr in r.ids && r.ids[tr] == fid)
  {
    StampsWith(b, x, y, pos, remaining, ids, fid);
    assert EvaluateFeature(b, x, y, pos, remaining, ids, fid).ids == EvaluateFeatureWith(b, x, y, pos, remaining, ids, fid, {}).ids;
  }

  lemma StampsWith(b: Board, x: int, y: int, pos: Pos, remaining: nat, ids: FeatureIds, fid: nat)
    requires (x, y) in b.grid
    ensures var r := EvaluateFeatureWith(b, x, y, pos, remaining, ids, fid, {});
      && StartTriple(b, x, y, pos) in r.ids && r.ids[StartTriple(b, x, y, pos)] == fid
      && ids.Keys <= r.ids.Keys
      && (forall tr | tr in r.ids :: r.ids[tr] == fid || (tr in ids && r.ids[tr] == ids[tr]))
      && (b.grid[(x, y)].types[pos] != Monastery ==> forall tr | tr in Bfs(b, x, y, pos).visited :: tr in r.ids && r.ids[tr] == fid)
  {
    if b.grid[(x, y)].types[pos] == Monastery {
      EvaluatedMonastery(b, x, y, pos, remaining, ids, fid, {});
    } else {
      EvaluatedWalk(b, x, y, pos, remaining, ids, fid, {});
      BfsMarksStart(b, x, y, pos);
    }
  }

  // ---- C_PROB as written: never cleared ------------------------------------------------------

  /** A side loop whose open cells are all in C_PROB already changes nothing. */
  lemma {:induction false} SideChancesMarked(b: Board, prob: Cell -> real, t: Tile, x: int, y: int, id: nat, d: nat, c: Chances)
    requires d <= 4
    requires forall e | d <= e < 4 && OpenSide(b, t, x, y, id, e) :: (x + DX(e), y + DY(e)) in c.marks
    ensures SideChances(b, prob, t, x, y, id, d, c) == c
    decreases 4 - d
  {
    if d < 4 {
      assert SideChances(b, prob, t, x, y, id, d, c) == SideChances(b, prob, t, x, y, id, d + 1, c);
      SideChancesMarked(b, prob, t, x, y, id, d + 1, c);
    }
  }

  /** A callback whose open cells are all in C_PROB already leaves the chance and C_PROB as they were. */
  lemma MarkedStep(b: Board, prob: Cell -> real, a: Eval, v: Visit)
    requires (v.x, v.y) in b.grid && VisitOpenCells(b, v) <= a.marks
    ensures CbVisit(b, prob, a, v).feat.cprob == a.feat.cprob && CbVisit(b, prob, a, v).marks == a.marks
  {
    var t := b.grid[(v.x, v.y)];
    forall e | 0 <= e < 4 && OpenSide(b, t, v.x, v.y, t.ids[v.pos], e) ensures (v.x + DX(e), v.y + DY(e)) in a.marks {
      assert (v.x + DX(e), v.y + DY(e)) in VisitOpenCells(b, v);
    }
    SideChancesMarked(b, prob, t, v.x, v.y, t.ids[v.pos], 0, Chances(a.feat.cprob, a.marks));
    CbVisitChances(b, prob, a, v);
  }

  lemma {:induction false} TraceMarked(b: Board, prob: Cell -> real, acc: Eval, trace: seq<Visit>)
    requires TraceOnBoard(b, trace) && OpenCells(b, trace) <= acc.marks
    ensures FeatureTrace(b, prob, acc, trace).feat.cprob == acc.feat.cprob
    ensures FeatureTrace(b, prob, acc, trace).marks == acc.marks
    decreases |trace|
  {
    if |trace| > 0 {
      var n := |trace| - 1;
      var p, v := trace[..n], trace[n];
      assert TraceOnBoard(b, p);
      TraceMarked(b, prob, acc, p);
      MarkedStep(b, prob, FeatureTrace(b, prob, acc, p), v);
    }
  }

  /**
   * As written, evaluating a walked feature a second time with the C_PROB its first
   * evaluation left behind gives it chance 1, whatever the probabilities of its open cells.
   */
  lemma ReevaluatedIsCertain(b: Board, x: int, y: int, pos: Pos, remaining: nat, ids: FeatureIds, fid: nat, marks: set<Cell>)
    requires (x, y) in b.grid && b.grid[(x, y)].types[pos] != Monastery
    ensures var first := EvaluateFeatureWith(b, x, y, pos, remaining, ids, fid, marks);
      EvaluateFeatureWith(b, x, y, pos, remaining, first.ids, fid, first.marks).feat.cprob == 1.0
  {
    var prob := ProbOf(b, remaining);
    ProbOfUnit(b, remaining);
    var t := b.grid[(x, y)];
    var f := Feature(t.types[pos], fid, 0, 1.0, ZERO_COUNTS);
    var w := Bfs(b, x, y, pos);
    BfsTrace(b, x, y, pos);
    var first := EvaluateFeatureWith(b, x, y, pos, remaining, ids, fid, marks);
    TraceCoverage(b, prob, Eval(f, ids[(x, y, t.ids[pos]) := fid], marks), w.trace);
    TraceMarked(b, prob, Eval(f, first.ids[(x, y, t.ids[pos]) := fid], first.marks), w.trace);
  }
}
