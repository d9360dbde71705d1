/**
 * Deck: tile_make, the tile definitions of deck_init, and the deck operations (deck.c).
 *
 * A tile definition is the string the T macro builds: the four sides "X1 X2 X3" and the centre
 * chunk, separated by single spaces, so that segment i is described by the two characters at
 * 3 * i and 3 * i + 1: a type letter and an id digit, or ".." for no feature.
 */
module Deck {
  import opened Wrappers
  import opened Tiles

  /** TYPE_MAP; a letter outside the map reads the array's zero initialiser. */
  function TypeOf(c: char): TileType
  {
    match c
    case 'F' => Field
    case 'R' => Road
    case 'C' => City
    case 'M' => Monastery
    case _ => NoType
  }

  /** A slot of the ids[TYPE][digit] table of tile_make. */
  type Key = (TileType, char)

  /** Length of the definition string up to the centre chunk. */
  const DEF_LENGTH: nat := 38

  predicate IsBlank(defs: seq<char>, i: nat)
    requires |defs| >= DEF_LENGTH && i < 13
  {
    defs[3 * i] == '.'
  }

  function KeyAt(defs: seq<char>, i: nat): Key
    requires |defs| >= DEF_LENGTH && i < 13
  {
    (TypeOf(defs[3 * i]), defs[3 * i + 1])
  }

  /** The partly built tile: types and ids of the first segments, the id table and last_id. */
  datatype Making = Making(types: seq<TileType>, ids: seq<nat>, table: map<Key, nat>, last: nat)

  /**
   * What the loop of tile_make keeps true after i segments: blank segments have no type and
   * id 0; every other one has the type of its letter and the id its key holds in the table;
   * the table gives distinct keys distinct ids between 1 and last_id, and last_id <= i.
   */
  ghost predicate MakingInv(defs: seq<char>, i: nat, m: Making)
    requires |defs| >= DEF_LENGTH && i <= 13
  {
    && |m.types| == i && |m.ids| == i && m.last <= i
    && (forall j | 0 <= j < i && IsBlank(defs, j) :: m.types[j] == NoType && m.ids[j] == 0)
    && (forall j | 0 <= j < i && !IsBlank(defs, j) ::
          m.types[j] == TypeOf(defs[3 * j]) && KeyAt(defs, j) in m.table && m.ids[j] == m.table[KeyAt(defs, j)])
    && (forall k | k in m.table :: 1 <= m.table[k] <= m.last)
    && (forall k1, k2 | k1 in m.table && k2 in m.table && m.table[k1] == m.table[k2] :: k1 == k2)
  }

  /** TILE_ID_HELPER for segment i: a new key gets ++last_id. */
  function MakeStep(defs: seq<char>, i: nat, m: Making): Making
    requires |defs| >= DEF_LENGTH && i < 13
  {
    if IsBlank(defs, i) then Making(m.types + [NoType], m.ids + [0], m.table, m.last)
    else
      var k := KeyAt(defs, i);
      if k in m.table then Making(m.types + [k.0], m.ids + [m.table[k]], m.table, m.last)
      else Making(m.types + [k.0], m.ids + [m.last + 1], m.table[k := m.last + 1], m.last + 1)
  }

  lemma MakeStepInv(defs: seq<char>, i: nat, m: Making)
    requires |defs| >= DEF_LENGTH && i < 13 && MakingInv(defs, i, m)
    ensures MakingInv(defs, i + 1, MakeStep(defs, i, m))
  {
    var m' := MakeStep(defs, i, m);
    forall j | 0 <= j < i ensures m'.types[j] == m.types[j] && m'.ids[j] == m.ids[j] {
    }
    if !IsBlank(defs, i) && KeyAt(defs, i) !in m.table {
      var k := KeyAt(defs, i);
      forall j | 0 <= j < i && !IsBlank(defs, j) ensures KeyAt(defs, j) in m'.table && m'.ids[j] == m'.table[KeyAt(defs, j)] {
        assert KeyAt(defs, j) != k;
      }
    }
  }

  /** The loop over the 13 segments, from segment i on. */
  function MakeFrom(defs: seq<char>, i: nat, m: Making): Making
    requires |defs| >= DEF_LENGTH && i <= 13
    decreases 13 - i
  {
    if i == 13 then m else MakeFrom(defs, i + 1, MakeStep(defs, i, m))
  }

  lemma {:induction false} MakeFromInv(defs: seq<char>, i: nat, m: Making)
    requires |defs| >= DEF_LENGTH && i <= 13 && MakingInv(defs, i, m)
    ensures MakingInv(defs, 13, MakeFrom(defs, i, m))
    decreases 13 - i
  {
    if i < 13 {
      MakeStepInv(defs, i, m);
      MakeFromInv(defs, i + 1, MakeStep(defs, i, m));
    }
  }

  /** TILE_FLAG_HELPER over the flag string: '.' and unknown letters add nothing. */
  function FlagsOf(flags: seq<char>): (f: Flags)
    ensures f.starting <==> 'S' in flags
    ensures f.pennant <==> 'P' in flags
  {
    if |flags| == 0 then Flags(false, false)
    else
      var rest := FlagsOf(flags[1..]);
      assert flags == [flags[0]] + flags[1..];
      Flags(rest.starting || flags[0] == 'S', rest.pennant || flags[0] == 'P')
  }

  /** tile_make: the tile starts zeroed (no meeple, rotation 0). */
  function TileMake(defs: seq<char>, flags: seq<char>, bitmap: nat): Tile
    requires |defs| >= DEF_LENGTH
  {
    var m := MakeFrom(defs, 0, Making([], [], map[], 0));
    MakeFromInv(defs, 0, Making([], [], map[], 0));
    Tile(Meeple(NO_COLOR, 0), m.types, m.ids, FlagsOf(flags), 0, bitmap)
  }

  /**
   * A blank chunk gives a segment with no type and id 0; any other chunk gives its letter's
   * type and a non-zero id; two such segments share an id exactly when their chunks name the
   * same type and digit; and every id is at most the segment count.
   */
  lemma TileMakeFacts(defs: seq<char>, flags: seq<char>, bitmap: nat)
    requires |defs| >= DEF_LENGTH
    ensures var t := TileMake(defs, flags, bitmap);
      && (forall i | 0 <= i < 13 && IsBlank(defs, i) :: t.types[i] == NoType && t.ids[i] == 0)
      && (forall i | 0 <= i < 13 && !IsBlank(defs, i) :: t.types[i] == TypeOf(defs[3 * i]) && 1 <= t.ids[i] <= 13)
      && (forall i, j | 0 <= i < 13 && 0 <= j < 13 && !IsBlank(defs, i) && !IsBlank(defs, j) ::
            t.ids[i] == t.ids[j] <==> KeyAt(defs, i) == KeyAt(defs, j))
      && t.flags.starting == ('S' in flags) && t.flags.pennant == ('P' in flags)
      && t.meeple.color == NO_COLOR && t.rot == 0 && t.bitmap == bitmap
  {
    var m0 := Making([], [], map[], 0);
    MakeFromInv(defs, 0, m0);
  }

  // ---- the deck -----------------------------------------------------------------------------

  /** The deck's array, bottom first; its length is deck.size. */
  datatype Deck = Deck(tiles: seq<Tile>)

  /** deck_size */
  function Size(d: Deck): nat
  {
    |d.tiles|
  }

  /** deck_push: count copies of the tile on top; the array holds TILE_COUNT tiles. */
  function Push(d: Deck, count: nat, t: Tile): (r: Deck)
    requires |d.tiles| + count <= TILE_COUNT
    ensures Size(r) == Size(d) + count
    ensures r.tiles[..Size(d)] == d.tiles
    ensures forall i | Size(d) <= i < Size(r) :: r.tiles[i] == t
  {
    Deck(d.tiles + seq(count, _ => t))
  }

  /** deck_pop: the top tile, or nothing when the deck is empty. */
  function Pop(d: Deck): (r: (Option<Tile>, Deck))
    ensures r.0.None? <==> Size(d) == 0
    ensures r.0.Some? ==> Size(r.1) == Size(d) - 1 && d.tiles == r.1.tiles + [r.0.value]
    ensures r.0.None? ==> r.1 == d
  {
    if |d.tiles| == 0 then (None, d)
    else (Some(d.tiles[|d.tiles| - 1]), Deck(d.tiles[..|d.tiles| - 1]))
  }

  /** Popping right after pushing one tile gives that tile and the deck before the push. */
  lemma PushPop(d: Deck, t: Tile)
    requires Size(d) < TILE_COUNT
    ensures Pop(Push(d, 1, t)) == (Some(t), d)
  {
    var r := Push(d, 1, t);
    assert r.tiles[..Size(d)] == d.tiles;
  }

  function Swap<T>(s: seq<T>, i: nat, j: nat): (r: seq<T>)
    requires i < |s| && j < |s|
    ensures |r| == |s| && multiset(r) == multiset(s)
    ensures r[i] == s[j] && r[j] == s[i]
    ensures forall k | 0 <= k < |s| && k != i && k != j :: r[k] == s[k]
  {
    s[i := s[j]][j := s[i]]
  }

  /**
   * deck_shuffle: tile i is swapped with tile rolls[i] mod size (rolls stand for the values of
   * rand()); then the first starting tile is swapped to the top, so that it is popped first.
   */
  method Shuffle(d: Deck, rolls: seq<nat>) returns (r: Deck)
    requires |rolls| == Size(d)
    ensures Size(r) == Size(d) && multiset(r.tiles) == multiset(d.tiles)
    ensures (exists i | 0 <= i < Size(d) :: d.tiles[i].flags.starting) ==> r.tiles[Size(r) - 1].flags.starting
  {
    var s := d.tiles;
    var n := |s|;
    var i := 0;
    while i < n
      invariant 0 <= i <= n && |s| == n
      invariant multiset(s) == multiset(d.tiles)
    {
      s := Swap(s, i, rolls[i] % n);
      i := i + 1;
    }
    i := 0;
    while i < n
      invariant 0 <= i <= n && |s| == n
      invariant multiset(s) == multiset(d.tiles)
      invariant forall k | 0 <= k < i :: !s[k].flags.starting
    {
      if s[i].flags.starting {
        s := Swap(s, i, n - 1);
        break;
      }
      i := i + 1;
    }
    r := Deck(s);
    if exists k | 0 <= k < n :: d.tiles[k].flags.starting {
      var k :| 0 <= k < n && d.tiles[k].flags.starting;
      assert d.tiles[k] in multiset(s);
    }
  }

  // ---- deck_init ----------------------------------------------------------------------------

  /** One T(...) line: copy count, the four sides, the centre, the flags and the bitmap index. */
  datatype Def = Def(count: nat, up: string, right: string, down: string, left: string, centre: string, flags: string, bitmap: nat)

  /** The string the T macro pastes together. */
  function DefString(d: Def): string
  {
    d.up + " " + d.right + " " + d.down + " " + d.left + " " + d.centre
  }

  /** A well-formed line: sides of eight characters and a centre of two. */
  predicate WellFormed(d: Def)
  {
    |d.up| == 8 && |d.right| == 8 && |d.down| == 8 && |d.left| == 8 && |d.centre| == 2
  }

  /** The tile definitions of deck_init, in order. */
  const DEFS: seq<Def> := [
    Def(4, "F1 F1 F1", "F1 F1 F1", "F1 F1 F1", "F1 F1 F1", "M1", ".", 0),
    Def(2, "F1 F1 F1", "F1 F1 F1", "F1 R1 F1", "F1 F1 F1", "M1", ".", 1),
    Def(8, "F1 F1 F1", "F1 R1 F2", "F2 F2 F2", "F2 R1 F1", "R1", ".", 2),
    Def(9, "F1 F1 F1", "F1 F1 F1", "F1 R1 F2", "F2 R1 F1", "R1", ".", 3),
    Def(4, "F1 F1 F1", "F1 R1 F2", "F2 R2 F3", "F3 R3 F1", "..", ".", 4),
    Def(1, "F1 R1 F2", "F2 R2 F3", "F3 R3 F4", "F4 R4 F1", "..", ".", 5),
    Def(5, "C1 C1 C1", "F1 F1 F1", "F1 F1 F1", "F1 F1 F1", "F1", ".", 6),
    Def(1, "C1 C1 C1", "F1 R1 F2", "F2 F2 F2", "F2 R1 F1", "R1", "S", 7),
    Def(3, "C1 C1 C1", "F1 R1 F2", "F2 F2 F2", "F2 R1 F1", "R1", ".", 7),
    Def(3, "C1 C1 C1", "F1 F1 F1", "F1 R1 F2", "F2 R1 F1", "R1", ".", 8),
    Def(3, "C1 C1 C1", "F1 R1 F2", "F2 R1 F1", "F1 F1 F1", "R1", ".", 9),
    Def(3, "C1 C1 C1", "F1 R1 F2", "F2 R2 F3", "F3 R3 F1", "..", ".", 10),
    Def(1, "F1 F1 F1", "C1 C1 C1", "F2 F2 F2", "C1 C1 C1", "C1", ".", 11),
    Def(2, "F1 F1 F1", "C1 C1 C1", "F2 F2 F2", "C1 C1 C1", "C1", "P", 12),
    Def(3, "C1 C1 C1", "C1 C1 C1", "F1 F1 F1", "F1 F1 F1", "..", ".", 13),
    Def(2, "C1 C1 C1", "C1 C1 C1", "F1 F1 F1", "F1 F1 F1", "..", "P", 14),
    Def(3, "C1 C1 C1", "F1 F1 F1", "C2 C2 C2", "F1 F1 F1", "F1", ".", 15),
    Def(2, "C1 C1 C1", "C2 C2 C2", "F1 F1 F1", "F1 F1 F1", "F1", ".", 16),
    Def(3, "C1 C1 C1", "C1 C1 C1", "F1 R1 F2", "F2 R1 F1", "..", ".", 17),
    Def(2, "C1 C1 C1", "C1 C1 C1", "F1 R1 F2", "F2 R1 F1", "..", "P", 18),
    Def(3, "C1 C1 C1", "C1 C1 C1", "F1 F1 F1", "C1 C1 C1", "C1", ".", 19),
    Def(1, "C1 C1 C1", "C1 C1 C1", "F1 F1 F1", "C1 C1 C1", "C1", "P", 20),
    Def(1, "C1 C1 C1", "C1 C1 C1", "F1 R1 F2", "C1 C1 C1", "C1", ".", 21),
    Def(2, "C1 C1 C1", "C1 C1 C1", "F1 R1 F2", "C1 C1 C1", "C1", "P", 22),
    Def(1, "C1 C1 C1", "C1 C1 C1", "C1 C1 C1", "C1 C1 C1", "C1", "P", 23)
  ]

  lemma DefsWellFormed()
    ensures forall k | 0 <= k < |DEFS| :: WellFormed(DEFS[k])
  {
  }

  lemma DefStringLength(d: Def)
    requires WellFormed(d)
    ensures |DefString(d)| == DEF_LENGTH
  {
  }

  /** The tile a definition line makes. */
  function DefTile(d: Def): Tile
    requires WellFormed(d)
  {
    DefStringLength(d);
    TileMake(DefString(d), d.flags, d.bitmap)
  }

  /** The copies lines k, k + 1, ... push, bottom first. */
  function Expand(defs: seq<Def>, k: nat): seq<Tile>
    requires forall j | 0 <= j < |defs| :: WellFormed(defs[j])
    decreases |defs| - k
  {
    if k >= |defs| then [] else seq(defs[k].count, _ => DefTile(defs[k])) + Expand(defs, k + 1)
  }

  function TotalCount(defs: seq<Def>, k: nat): nat
    decreases |defs| - k
  {
    if k >= |defs| then 0 else defs[k].count + TotalCount(defs, k + 1)
  }

  /** How many copies the lines flagged 'S' push. */
  function StartingCount(defs: seq<Def>, k: nat): nat
    decreases |defs| - k
  {
    if k >= |defs| then 0 else (if 'S' in defs[k].flags then defs[k].count else 0) + StartingCount(defs, k + 1)
  }

  function CountStarting(tiles: seq<Tile>): nat
  {
    if |tiles| == 0 then 0 else (if tiles[0].flags.starting then 1 else 0) + CountStarting(tiles[1..])
  }

  lemma CountStartingAppend(a: seq<Tile>, b: seq<Tile>)
    ensures CountStarting(a + b) == CountStarting(a) + CountStarting(b)
  {
    if |a| > 0 {
      assert (a + b)[1..] == a[1..] + b;
      CountStartingAppend(a[1..], b);
    } else {
      assert a + b == b;
    }
  }

  lemma {:induction false} CountStartingCopies(n: nat, t: Tile)
    ensures CountStarting(seq(n, _ => t)) == if t.flags.starting then n else 0
  {
    if n > 0 {
      assert seq(n, _ => t)[1..] == seq(n - 1, _ => t);
      CountStartingCopies(n - 1, t);
    }
  }

  /** The expansion has as many tiles as the lines' counts add up to, and as many starting tiles as the 'S' lines push. */
  lemma {:induction false} ExpandFacts(defs: seq<Def>, k: nat)
    requires forall j | 0 <= j < |defs| :: WellFormed(defs[j])
    ensures |Expand(defs, k)| == TotalCount(defs, k)
    ensures CountStarting(Expand(defs, k)) == StartingCount(defs, k)
    decreases |defs| - k
  {
    if k < |defs| {
      var d := defs[k];
      ExpandFacts(defs, k + 1);
      CountStartingAppend(seq(d.count, _ => DefTile(d)), Expand(defs, k + 1));
      CountStartingCopies(d.count, DefTile(d));
      TileMakeFacts(DefString(d), d.flags, d.bitmap);
    }
  }

  /** deck_init: the deck is emptied and every line pushes its copies. */
  function DeckInit(): Deck
  {
    DefsWellFormed();
    Deck(Expand(DEFS, 0))
  }

  /** The line counts add up to 72, and only the one 'S' line, with a count of 1, is a starting tile. */
  lemma DefsTotals()
    ensures TotalCount(DEFS, 0) == 72 && StartingCount(DEFS, 0) == 1
  {
    assert TotalCount(DEFS, 25) == 0 && StartingCount(DEFS, 25) == 0;
    assert TotalCount(DEFS, 24) == 1 && StartingCount(DEFS, 24) == 0;
    assert TotalCount(DEFS, 23) == 3 && StartingCount(DEFS, 23) == 0;
    assert TotalCount(DEFS, 22) == 4 && StartingCount(DEFS, 22) == 0;
    assert TotalCount(DEFS, 21) == 5 && StartingCount(DEFS, 21) == 0;
    assert TotalCount(DEFS, 20) == 8 && StartingCount(DEFS, 20) == 0;
    assert TotalCount(DEFS, 19) == 10 && StartingCount(DEFS, 19) == 0;
    assert TotalCount(DEFS, 18) == 13 && StartingCount(DEFS, 18) == 0;
    assert TotalCount(DEFS, 17) == 15 && StartingCount(DEFS, 17) == 0;
    assert TotalCount(DEFS, 16) == 18 && StartingCount(DEFS, 16) == 0;
    assert TotalCount(DEFS, 15) == 20 && StartingCount(DEFS, 15) == 0;
    assert TotalCount(DEFS, 14) == 23 && StartingCount(DEFS, 14) == 0;
    assert TotalCount(DEFS, 13) == 25 && StartingCount(DEFS, 13) == 0;
    assert TotalCount(DEFS, 12) == 26 && StartingCount(DEFS, 12) == 0;
    assert TotalCount(DEFS, 11) == 29 && StartingCount(DEFS, 11) == 0;
    assert TotalCount(DEFS, 10) == 32 && StartingCount(DEFS, 10) == 0;
    assert TotalCount(DEFS, 9) == 35 && StartingCount(DEFS, 9) == 0;
    assert TotalCount(DEFS, 8) == 38 && StartingCount(DEFS, 8) == 0;
    assert TotalCount(DEFS, 7) == 39 && StartingCount(DEFS, 7) == 1;
    assert TotalCount(DEFS, 6) == 44 && StartingCount(DEFS, 6) == 1;
    assert TotalCount(DEFS, 5) == 45 && StartingCount(DEFS, 5) == 1;
    assert TotalCount(DEFS, 4) == 49 && StartingCount(DEFS, 4) == 1;
    assert TotalCount(DEFS, 3) == 58 && StartingCount(DEFS, 3) == 1;
    assert TotalCount(DEFS, 2) == 66 && StartingCount(DEFS, 2) == 1;
    assert TotalCount(DEFS, 1) == 68 && StartingCount(DEFS, 1) == 1;
    assert TotalCount(DEFS, 0) == 72 && StartingCount(DEFS, 0) == 1;
  }

  /** deck_init fills the array exactly: 72 tiles, exactly one of them the starting tile. */
  lemma DeckInitFacts()
    ensures Size(DeckInit()) == TILE_COUNT
    ensures CountStarting(DeckInit().tiles) == 1
  {
    DefsWellFormed();
    ExpandFacts(DEFS, 0);
    DefsTotals();
  }
}
