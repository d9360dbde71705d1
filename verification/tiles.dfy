/** An optional value: a reference in the C program that may be NULL. */
module Wrappers {
  datatype Option<T> = None | Some(value: T)
}

/**
 * Tiles: the 13-segment tile record, its rotation and the edge-matching rule.
 *
 * Segment layout (three ring slots per side, clockwise, plus the centre):
 *
 *        0  1  2
 *    11           3
 *    10    12     4
 *     9           5
 *        8  7  6
 */
module Tiles {

  const TILE_COUNT: nat := 72
  const MEEPLE_COLOR_COUNT: nat := 5
  const BOARD_CENTER: nat := TILE_COUNT + 1
  const BOARD_SIZE: nat := 2 * BOARD_CENTER + 1

  /** Centre segment (TilePosCC). */
  const CENTRE: nat := 12

  datatype TileType = NoType | Field | Road | City | Monastery

  /** A meeple colour; 0 is MeepleNone, 1..5 are the player colours. */
  type Color = c: nat | c <= MEEPLE_COLOR_COUNT

  const NO_COLOR: Color := 0

  /** A segment index on a tile. */
  type Pos = p: nat | p < 13

  type Types13 = s: seq<TileType> | |s| == 13 witness seq(13, _ => NoType)
  type Ids13 = s: seq<nat> | |s| == 13 witness seq(13, _ => 0)

  datatype Meeple = Meeple(color: Color, pos: Pos)

  /** TileFlagStarting and TileFlagPennant. */
  datatype Flags = Flags(starting: bool, pennant: bool)

  /** The quarter-turn counter; tile_make starts it at 0 and tile_rotate keeps it masked to two bits. */
  type Rotation = r: nat | r < 4

  datatype Tile = Tile(meeple: Meeple, types: Types13, ids: Ids13, flags: Flags, rot: Rotation, bitmap: nat)

  /** The ring slot that sits at index i after one quarter turn comes from slot (i+9) mod 12. */
  function RingSource(i: nat): (j: nat)
    requires i < 12
    ensures j < 12 && j == (i + 9) % 12
  {
    if i < 3 then i + 9 else i - 3
  }

  /** tile_rotate: one clockwise quarter turn. */
  function Rotate(t: Tile): (r: Tile)
    ensures forall i :: 0 <= i < 12 ==> r.types[i] == t.types[RingSource(i)] && r.ids[i] == t.ids[RingSource(i)]
    ensures r.types[CENTRE] == t.types[CENTRE] && r.ids[CENTRE] == t.ids[CENTRE]
    ensures r.meeple == t.meeple && r.flags == t.flags && r.bitmap == t.bitmap
    ensures r.rot == (t.rot + 1) % 4
  {
    t.(types := t.types[9..12] + t.types[..9] + [t.types[12]],
       ids := t.ids[9..12] + t.ids[..9] + [t.ids[12]],
       rot := if t.rot == 3 then 0 else t.rot + 1)
  }

  /** k successive quarter turns. */
  function RotateN(t: Tile, k: nat): Tile
  {
    if k == 0 then t else Rotate(RotateN(t, k - 1))
  }

  /** Four quarter turns give the tile back. */
  lemma RotateFour(t: Tile)
    ensures RotateN(t, 4) == t
  {
    var r4 := Rotate(Rotate(Rotate(Rotate(t))));
    assert RotateN(t, 4) == r4 by {
      assert RotateN(t, 0) == t;
      assert RotateN(t, 1) == Rotate(t);
      assert RotateN(t, 2) == Rotate(Rotate(t));
      assert RotateN(t, 3) == Rotate(Rotate(Rotate(t)));
    }
    RotateFourRing(t);
    assert r4.types == t.types by {
      assert forall i :: 0 <= i < 13 ==> r4.types[i] == t.types[i];
    }
    assert r4.ids == t.ids by {
      assert forall i :: 0 <= i < 13 ==> r4.ids[i] == t.ids[i];
    }
    assert r4.meeple == t.meeple && r4.flags == t.flags && r4.bitmap == t.bitmap;
    assert r4.rot == t.rot;
  }

  lemma RotateFourRing(t: Tile)
    ensures var r4 := Rotate(Rotate(Rotate(Rotate(t))));
      forall i :: 0 <= i < 13 ==> r4.types[i] == t.types[i] && r4.ids[i] == t.ids[i]
  {
    var r1 := Rotate(t);
    var r2 := Rotate(r1);
    var r3 := Rotate(r2);
    var r4 := Rotate(r3);
    forall i | 0 <= i < 12
      ensures r4.types[i] == t.types[i] && r4.ids[i] == t.ids[i]
    {
      var a := RingSource(i);
      var b := RingSource(a);
      var c := RingSource(b);
      assert RingSource(c) == i;
      assert r4.types[i] == r3.types[a] == r2.types[b] == r1.types[c] == t.types[i];
      assert r4.ids[i] == r3.ids[a] == r2.ids[b] == r1.ids[c] == t.ids[i];
    }
  }

  /**
   * TILE_MATCHES(A, B, AI, BI): the triple of A starting at AI equals the triple of B
   * starting at BI read backwards.
   */
  predicate EdgeMatches(a: Tile, b: Tile, ai: nat, bi: nat)
    requires ai + 2 < 13 && bi + 2 < 13
  {
    a.types[ai + 0] == b.types[bi + 2] && a.types[ai + 1] == b.types[bi + 1] && a.types[ai + 2] == b.types[bi + 0]
  }

  /** TILE_MATCHES_V(UP, DOWN): bottom side of the upper tile against the top side of the lower one. */
  predicate MatchesV(up: Tile, down: Tile)
  {
    EdgeMatches(up, down, 6, 0)
  }

  /** TILE_MATCHES_H(LEFT, RIGHT): right side of the left tile against the left side of the right one. */
  predicate MatchesH(left: Tile, right: Tile)
  {
    EdgeMatches(left, right, 3, 9)
  }

  /** The three types on side d (0 top, 1 right, 2 bottom, 3 left), in clockwise order. */
  function Side(t: Tile, d: nat): (s: seq<TileType>)
    requires d < 4
    ensures |s| == 3
    ensures forall k :: 0 <= k < 3 ==> s[k] == t.types[3 * d + k]
  {
    t.types[3 * d .. 3 * d + 3]
  }

  function Reverse<T>(s: seq<T>): (r: seq<T>)
    ensures |r| == |s|
    ensures forall k :: 0 <= k < |s| ==> r[k] == s[|s| - 1 - k]
  {
    if |s| == 0 then [] else Reverse(s[1..]) + [s[0]]
  }

  /** Edge matching is equality of one side with the facing side read in the opposite direction. */
  lemma EdgeMatchesIsReversal(a: Tile, b: Tile, da: nat, db: nat)
    requires da < 4 && db < 4
    ensures EdgeMatches(a, b, 3 * da, 3 * db) <==> Side(a, da) == Reverse(Side(b, db))
  {
    var sa, sb := Side(a, da), Side(b, db);
    var rb := Reverse(sb);
    assert rb[0] == sb[2] && rb[1] == sb[1] && rb[2] == sb[0];
    assert sa == rb <==> sa[0] == rb[0] && sa[1] == rb[1] && sa[2] == rb[2];
  }

  /** The matching relation is symmetric: swapping the two tiles and their offsets changes nothing. */
  lemma EdgeMatchesSymmetric(a: Tile, b: Tile, ai: nat, bi: nat)
    requires ai + 2 < 13 && bi + 2 < 13
    ensures EdgeMatches(a, b, ai, bi) <==> EdgeMatches(b, a, bi, ai)
  {
  }

  /**
   * Turning a vertically adjacent pair a quarter turn clockwise makes it a horizontally
   * adjacent pair (the lower tile ends up on the left): matching is preserved.
   */
  lemma MatchesRotationCovariant(up: Tile, down: Tile)
    ensures MatchesV(up, down) <==> MatchesH(Rotate(down), Rotate(up))
  {
    assert RingSource(3) == 0 && RingSource(4) == 1 && RingSource(5) == 2;
    assert RingSource(9) == 6 && RingSource(10) == 7 && RingSource(11) == 8;
  }
}
