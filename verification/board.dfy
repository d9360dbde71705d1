/**
 * Board: the grid of placed tiles, the legality test for a placement, permanent placement,
 * the undoable preview placement and meeple placement (board.c).
 */
module Board {
  import opened Wrappers
  import opened Tiles

  type Cell = (int, int)

  /**
   * The grid as a map from occupied cells to their tiles (a missing key is a NULL cell),
   * together with the number of tiles copied into the permanent store.
   */
  datatype Board = Board(grid: map<Cell, Tile>, tileCount: nat)

  /** board_init: no tile anywhere. */
  const EMPTY: Board := Board(map[], 0)

  /** The cells the placement loops range over: 1 .. BOARD_SIZE-1 in both directions. */
  predicate InBounds(x: int, y: int)
  {
    1 <= x < BOARD_SIZE && 1 <= y < BOARD_SIZE
  }

  /** board_tile_get */
  function Get(b: Board, x: int, y: int): (r: Option<Tile>)
    ensures r.Some? <==> (x, y) in b.grid
    ensures r.Some? ==> r.value == b.grid[(x, y)]
  {
    if (x, y) in b.grid then Some(b.grid[(x, y)]) else None
  }

  /** Direction d: 0 up, 1 right, 2 down, 3 left (the same numbering as the tile sides). */
  function DX(d: nat): int
    requires d < 4
  {
    if d == 1 then 1 else if d == 3 then -1 else 0
  }

  function DY(d: nat): int
    requires d < 4
  {
    if d == 0 then -1 else if d == 2 then 1 else 0
  }

  function Opposite(d: nat): (e: nat)
    requires d < 4
    ensures e < 4
  {
    (d + 2) % 4
  }

  /** The tile next to (x, y) in direction d, if any. */
  function Neighbour(b: Board, x: int, y: int, d: nat): Option<Tile>
    requires d < 4
  {
    Get(b, x + DX(d), y + DY(d))
  }

  /** Side d of t meets the opposite side of n in reverse order: the two edges have the same types. */
  predicate SideFits(t: Tile, n: Tile, d: nat)
    requires d < 4
  {
    Side(t, d) == Reverse(Side(n, Opposite(d)))
  }

  predicate HasNeighbour(b: Board, x: int, y: int)
  {
    exists d :: 0 <= d < 4 && Neighbour(b, x, y, d).Some?
  }

  /** Every present neighbour of (x, y) fits the tile t on the shared side. */
  predicate FitsAllNeighbours(b: Board, t: Tile, x: int, y: int)
  {
    forall d :: 0 <= d < 4 && Neighbour(b, x, y, d).Some? ==> SideFits(t, Neighbour(b, x, y, d).value, d)
  }

  lemma FitsAsMatches(t: Tile, n: Tile)
    ensures SideFits(t, n, 0) <==> MatchesV(n, t)
    ensures SideFits(t, n, 2) <==> MatchesV(t, n)
    ensures SideFits(t, n, 3) <==> MatchesH(n, t)
    ensures SideFits(t, n, 1) <==> MatchesH(t, n)
  {
    assert Opposite(0) == 2 && Opposite(1) == 3 && Opposite(2) == 0 && Opposite(3) == 1;
    EdgeMatchesIsReversal(t, n, 0, 2);
    EdgeMatchesIsReversal(t, n, 1, 3);
    EdgeMatchesIsReversal(t, n, 2, 0);
    EdgeMatchesIsReversal(t, n, 3, 1);
    EdgeMatchesSymmetric(t, n, 0, 6);
    EdgeMatchesSymmetric(t, n, 9, 3);
  }

  /** Fitting is symmetric: t fits n on side d exactly when n fits t on the opposite side. */
  lemma SideFitsSymmetric(t: Tile, n: Tile, d: nat)
    requires d < 4
    ensures SideFits(t, n, d) <==> SideFits(n, t, Opposite(d))
  {
    assert Opposite(Opposite(d)) == d;
    EdgeMatchesIsReversal(t, n, d, Opposite(d));
    EdgeMatchesIsReversal(n, t, Opposite(d), d);
    EdgeMatchesSymmetric(t, n, 3 * d, 3 * Opposite(d));
  }

  /**
   * board_tile_matches: false on an occupied cell and on a cell with no neighbour at all;
   * otherwise true exactly when every present neighbour fits on the shared side.
   */
  function TileMatches(b: Board, t: Tile, x: int, y: int): (r: bool)
    requires InBounds(x, y)
    ensures r <==> (x, y) !in b.grid && HasNeighbour(b, x, y) && FitsAllNeighbours(b, t, x, y)
  {
    FitsAsMatchesAll(b, t, x, y);
    if (x, y) in b.grid then false
    else
      var up, down, left, right := Get(b, x, y - 1), Get(b, x, y + 1), Get(b, x - 1, y), Get(b, x + 1, y);
      if up.None? && down.None? && left.None? && right.None? then false
      else if up.Some? && !MatchesV(up.value, t) then false
      else if down.Some? && !MatchesV(t, down.value) then false
      else if left.Some? && !MatchesH(left.value, t) then false
      else if right.Some? && !MatchesH(t, right.value) then false
      else true
  }

  lemma FitsAsMatchesAll(b: Board, t: Tile, x: int, y: int)
    ensures Neighbour(b, x, y, 0) == Get(b, x, y - 1) && Neighbour(b, x, y, 1) == Get(b, x + 1, y)
    ensures Neighbour(b, x, y, 2) == Get(b, x, y + 1) && Neighbour(b, x, y, 3) == Get(b, x - 1, y)
    ensures forall n :: (SideFits(t, n, 0) <==> MatchesV(n, t)) && (SideFits(t, n, 2) <==> MatchesV(t, n))
    ensures forall n :: (SideFits(t, n, 3) <==> MatchesH(n, t)) && (SideFits(t, n, 1) <==> MatchesH(t, n))
  {
    forall n ensures (SideFits(t, n, 0) <==> MatchesV(n, t)) && (SideFits(t, n, 2) <==> MatchesV(t, n))
                  && (SideFits(t, n, 3) <==> MatchesH(n, t)) && (SideFits(t, n, 1) <==> MatchesH(t, n))
    {
      FitsAsMatches(t, n);
    }
  }

  /** No cell of the placement range accepts the tile as it is turned. */
  ghost predicate FitsNowhere(b: Board, t: Tile)
  {
    forall x, y :: InBounds(x, y) ==> !TileMatches(b, t, x, y)
  }

  /** The row-by-row scan of the placement range for one rotation of the tile. */
  method FitsSomewhere(b: Board, t: Tile) returns (found: bool)
    ensures found <==> !FitsNowhere(b, t)
  {
    var y := 1;
    while y < BOARD_SIZE
      invariant 1 <= y <= BOARD_SIZE
      invariant forall x, y' :: 1 <= y' < y && InBounds(x, y') ==> !TileMatches(b, t, x, y')
    {
      var x := 1;
      while x < BOARD_SIZE
        invariant 1 <= x <= BOARD_SIZE
        invariant forall x', y' :: 1 <= y' < y && InBounds(x', y') ==> !TileMatches(b, t, x', y')
        invariant forall x' :: 1 <= x' < x ==> !TileMatches(b, t, x', y)
      {
        if TileMatches(b, t, x, y) {
          return true;
        }
        x := x + 1;
      }
      y := y + 1;
    }
    return false;
  }

  /**
   * board_tile_valid: tries the four rotations of a copy of the tile at every cell of the
   * placement range and reports whether any of them passes board_tile_matches.
   */
  method TileValid(b: Board, tile: Tile) returns (ok: bool)
    ensures ok <==> exists k, x, y :: 0 <= k < 4 && InBounds(x, y) && TileMatches(b, RotateN(tile, k), x, y)
  {
    var tmp := tile;
    var r := 0;
    while r < 4
      invariant 0 <= r <= 4
      invariant tmp == RotateN(tile, r)
      invariant forall k :: 0 <= k < r ==> FitsNowhere(b, RotateN(tile, k))
    {
      var found := FitsSomewhere(b, tmp);
      if found {
        return true;
      }
      ghost var done := r + 1;
      forall k | 0 <= k < done ensures FitsNowhere(b, RotateN(tile, k)) {
        if k == r {
          assert FitsNowhere(b, RotateN(tile, r));
        } else {
          assert k < r;
        }
      }
      tmp := Rotate(tmp);
      r := r + 1;
    }
    return false;
  }

  /** Every pair of adjacent tiles on the board fits on the shared side. */
  predicate Consistent(b: Board)
  {
    forall c, d :: c in b.grid && 0 <= d < 4 && Neighbour(b, c.0, c.1, d).Some? ==>
      SideFits(b.grid[c], Neighbour(b, c.0, c.1, d).value, d)
  }

  /**
   * board_tile_place: the cell now holds (a copy of) the tile and the permanent count
   * grows by one; every other cell is untouched. The permanent store holds TILE_COUNT tiles.
   */
  function TilePlace(b: Board, t: Tile, x: int, y: int): (r: Board)
    requires InBounds(x, y) && b.tileCount < TILE_COUNT
    ensures r.tileCount == b.tileCount + 1
    ensures (x, y) in r.grid && r.grid[(x, y)] == t
    ensures forall c :: c != (x, y) ==> Get(r, c.0, c.1) == Get(b, c.0, c.1)
  {
    Board(b.grid[(x, y) := t], b.tileCount + 1)
  }

  /** Placing a tile that passed board_tile_matches keeps every adjacent pair fitting. */
  lemma PlaceKeepsConsistent(b: Board, t: Tile, x: int, y: int)
    requires InBounds(x, y) && b.tileCount < TILE_COUNT
    requires Consistent(b) && TileMatches(b, t, x, y)
    ensures Consistent(TilePlace(b, t, x, y))
  {
    var r := TilePlace(b, t, x, y);
    forall c, d | c in r.grid && 0 <= d < 4 && Neighbour(r, c.0, c.1, d).Some?
      ensures SideFits(r.grid[c], Neighbour(r, c.0, c.1, d).value, d)
    {
      var n := (c.0 + DX(d), c.1 + DY(d));
      if c == (x, y) {
        assert Neighbour(r, x, y, d) == Neighbour(b, x, y, d);
      } else if n == (x, y) {
        var e := Opposite(d);
        assert (x + DX(e), y + DY(e)) == c;
        assert Neighbour(b, x, y, e) == Some(b.grid[c]);
        SideFitsSymmetric(t, b.grid[c], e);
        assert Opposite(e) == d;
      } else {
        assert Neighbour(r, c.0, c.1, d) == Neighbour(b, c.0, c.1, d);
      }
    }
  }

  /** board_tile_tmp: sets (Some) or clears (None) one cell without touching the permanent store. */
  function TileTmp(b: Board, t: Option<Tile>, x: int, y: int): (r: Board)
    requires InBounds(x, y)
    ensures r.tileCount == b.tileCount
    ensures Get(r, x, y) == t
    ensures forall c :: c != (x, y) ==> Get(r, c.0, c.1) == Get(b, c.0, c.1)
  {
    match t
    case Some(tile) => Board(b.grid[(x, y) := tile], b.tileCount)
    case None => Board(b.grid - {(x, y)}, b.tileCount)
  }

  /** A preview on an empty cell followed by board_tile_tmp(NULL) gives the board back unchanged. */
  lemma TmpUndo(b: Board, t: Tile, x: int, y: int)
    requires InBounds(x, y) && (x, y) !in b.grid
    ensures TileTmp(TileTmp(b, Some(t), x, y), None, x, y) == b
  {
    var r := TileTmp(TileTmp(b, Some(t), x, y), None, x, y);
    assert r.grid == b.grid by {
      forall c ensures c in r.grid <==> c in b.grid {
        assert Get(r, c.0, c.1) == Get(b, c.0, c.1);
      }
      forall c | c in r.grid ensures r.grid[c] == b.grid[c] {
        assert Get(r, c.0, c.1) == Get(b, c.0, c.1);
      }
    }
  }

  /** board_meeple_place: puts the meeple on the tile at (x, y); an empty cell is left alone. */
  function MeeplePlace(b: Board, m: Meeple, x: int, y: int): (r: Board)
    ensures r.tileCount == b.tileCount && r.grid.Keys == b.grid.Keys
    ensures (x, y) in b.grid ==> r.grid[(x, y)] == b.grid[(x, y)].(meeple := m)
    ensures forall c :: c != (x, y) ==> Get(r, c.0, c.1) == Get(b, c.0, c.1)
  {
    if (x, y) in b.grid then Board(b.grid[(x, y) := b.grid[(x, y)].(meeple := m)], b.tileCount) else b
  }
}
