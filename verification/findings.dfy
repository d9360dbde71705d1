/**
 * A board on which the field scoring as written and as intended disagree.
 *
 * In collect_points_field_cb the bordering city slot is marked with CITY_VISIT(x, y, t->ids[i]);
 * CITY_VISIT expects a segment position and looks the id up again, so the mark set is
 * ids[ids[i]] rather than ids[i].
 *
 * The board holds two copies of deck line 6 (a city on the top side, field elsewhere):
 * the upper one turned twice, so that its city faces down, and the lower one unturned, so
 * that the two city edges close one city between them. The field of the upper tile borders
 * that closed city, so at the end of the game it is worth 3 points; as written it is worth 0.
 */
module Findings {
  import opened Wrappers
  import opened Tiles
  import opened Board
  import opened Walk
  import opened Points
  import opened Deck

  const C1: nat := 1
  const F1: nat := 2

  /** Deck line 6 as tile_make builds it: city id 1 on slots 0-2, field id 2 everywhere else. */
  const LOWER: Tile := Tile(Meeple(NO_COLOR, 0),
    seq(13, i => if i < 3 then City else Field),
    seq(13, i => if i < 3 then C1 else F1),
    Flags(false, false), 0, 6)

  /** The same tile after two quarter turns: the city is on slots 6-8. */
  const UPPER: Tile := Tile(Meeple(NO_COLOR, 0),
    seq(13, i => if 6 <= i <= 8 then City else Field),
    seq(13, i => if 6 <= i <= 8 then C1 else F1),
    Flags(false, false), 2, 6)

  const X: int := BOARD_CENTER
  const Y: int := BOARD_CENTER

  const SAMPLE: Board := Board(map[(X, Y) := UPPER, (X, Y + 1) := LOWER], 2)

  /** The string the T macro builds for deck line 6. */
  const LOWER_DEFS: string := "C1 C1 C1 F1 F1 F1 F1 F1 F1 F1 F1 F1 F1"

  const CITY_KEY: Key := (City, '1')
  const FIELD_KEY: Key := (Field, '1')

  /** What the loop of tile_make holds on deck line 6 after k segments. */
  function LowerMaking(k: nat): Making
    requires k <= 13
  {
    Making(seq(k, i => if i < 3 then City else Field), seq(k, i => if i < 3 then C1 else F1),
      if k == 0 then map[] else if k <= 3 then map[CITY_KEY := C1] else map[CITY_KEY := C1, FIELD_KEY := F1],
      if k == 0 then 0 else if k <= 3 then 1 else 2)
  }

  /** One segment of tile_make on deck line 6: the city key is new at 0, the field key at 3. */
  lemma LowerStep(k: nat)
    requires k < 13
    ensures MakeStep(LOWER_DEFS, k, LowerMaking(k)) == LowerMaking(k + 1)
  {
    var m := LowerMaking(k);
    var m' := LowerMaking(k + 1);
    var key := if k < 3 then CITY_KEY else FIELD_KEY;
    LowerChars(k);
    assert KeyAt(LOWER_DEFS, k) == key;
    var r := MakeStep(LOWER_DEFS, k, m);
    assert r.types == m'.types;
    assert r.ids == m'.ids;
  }

  /** Segment k of deck line 6 is written C1 for k < 3 and F1 after. */
  lemma LowerChars(k: nat)
    requires k < 13
    ensures LOWER_DEFS[3 * k] == (if k < 3 then 'C' else 'F') && LOWER_DEFS[3 * k + 1] == '1'
  {
  }

  lemma {:induction false} LowerFrom(k: nat)
    requires k <= 13
    ensures MakeFrom(LOWER_DEFS, k, LowerMaking(k)) == LowerMaking(13)
    decreases 13 - k
  {
    if k < 13 {
      LowerStep(k);
      LowerFrom(k + 1);
    }
  }

  /** tile_make on the string of deck line 6 gives the lower tile. */
  lemma LowerTileMake()
    ensures |LOWER_DEFS| >= DEF_LENGTH && TileMake(LOWER_DEFS, ".", 6) == LOWER
  {
    assert LowerMaking(0) == Making([], [], map[], 0);
    LowerFrom(0);
    assert FlagsOf(".") == Flags(false, false);
  }

  const LINE_6: Def := Def(5, "C1 C1 C1", "F1 F1 F1", "F1 F1 F1", "F1 F1 F1", "F1", ".", 6)

  lemma Line6()
    ensures DEFS[6] == LINE_6
  {
  }

  lemma Line6String()
    ensures WellFormed(LINE_6) && DefString(LINE_6) == LOWER_DEFS
  {
  }

  /** Line 6 of deck_init makes the lower tile. */
  lemma LowerIsDeckTile()
    ensures WellFormed(DEFS[6]) && DefTile(DEFS[6]) == LOWER
  {
    Line6();
    Line6String();
    LowerTileMake();
  }

  /** The upper tile is the lower one after two calls of tile_rotate. */
  lemma UpperIsLowerTurnedTwice()
    ensures Rotate(Rotate(LOWER)) == UPPER
  {
    var r := Rotate(Rotate(LOWER));
    assert forall i | 0 <= i < 13 :: r.types[i] == UPPER.types[i] && r.ids[i] == UPPER.ids[i];
    assert r.types == UPPER.types && r.ids == UPPER.ids;
  }

  // ---- the walks on the sample board --------------------------------------------------------

  lemma SampleCells()
    ensures SAMPLE.grid.Keys == {(X, Y), (X, Y + 1)}
    ensures SAMPLE.grid[(X, Y)] == UPPER && SAMPLE.grid[(X, Y + 1)] == LOWER
    ensures IdsBelow13(SAMPLE) && WithinArrays(SAMPLE)
  {
  }

  /** The field of the upper tile faces empty cells above, left and right; below is its city. */
  lemma UpperFieldOutcomes()
    ensures Outcomes(SAMPLE, UPPER, X, Y, F1) == [Open, Nothing, Open, Open]
  {
    SampleCells();
    assert SideScan(SAMPLE, UPPER, X, Y - 1, F1, 0, 6, 0) == Open;
    assert SideScan(SAMPLE, UPPER, X, Y + 1, F1, 6, 0, 3) == Nothing;
    assert SideScan(SAMPLE, UPPER, X, Y + 1, F1, 6, 0, 2) == Nothing;
    assert SideScan(SAMPLE, UPPER, X, Y + 1, F1, 6, 0, 1) == Nothing;
    assert SideScan(SAMPLE, UPPER, X, Y + 1, F1, 6, 0, 0) == Nothing;
    assert SideScan(SAMPLE, UPPER, X - 1, Y, F1, 9, 3, 0) == Open;
    assert SideScan(SAMPLE, UPPER, X + 1, Y, F1, 3, 9, 0) == Open;
  }

  /** No joined side, nothing queued. */
  lemma EnqueueNoJoin(b: Board, os: seq<SideOutcome>, vis: set<Triple>)
    requires forall o | o in os :: !o.Join?
    ensures Enqueue(b, os, vis) == []
  {
    if |os| > 0 {
      assert os[0] in os;
      EnqueueNoJoin(b, os[1..], vis);
    }
  }

  /** The field walk from slot 0 of the upper tile visits that one segment and is open. */
  lemma UpperFieldWalk()
    ensures Bfs(SAMPLE, X, Y, 0) == WalkResult([Visit(X, Y, 0, false)], {(X, Y, F1)}, false)
  {
    SampleCells();
    UpperFieldOutcomes();
    var q := [Entry(X, Y, 0)];
    assert q[0] in q;
    var s := Step(SAMPLE, q, {});
    var os := Outcomes(SAMPLE, UPPER, X, Y, F1);
    var news := Enqueue(SAMPLE, os, s.vis);
    EnqueueNoJoin(SAMPLE, os, s.vis);
    assert q[1..] == [];
    assert UPPER.ids[0] == F1;
    assert s.queue == news;
    assert s.queue == [];
    assert s.vis == {(X, Y, F1)};
    assert s.visit == Visit(X, Y, 0, false);
    assert s.open;
    StepDecreases(SAMPLE, q, {});
    var none: seq<Visit> := [];
    assert Run(SAMPLE, q, {}, none, true) == Run(SAMPLE, s.queue, s.vis, none + [s.visit], true && !s.open);
  }

  /** The city slots of the two tiles face each other and join; no city slot faces an empty cell. */
  lemma CityOutcomes()
    ensures Outcomes(SAMPLE, UPPER, X, Y, C1) == [Nothing, Join(Entry(X, Y + 1, 0)), Nothing, Nothing]
    ensures Outcomes(SAMPLE, LOWER, X, Y + 1, C1) == [Join(Entry(X, Y, 6)), Nothing, Nothing, Nothing]
  {
    SampleCells();
    assert SideScan(SAMPLE, UPPER, X, Y - 1, C1, 0, 6, 0) == Nothing;
    assert SideScan(SAMPLE, UPPER, X, Y + 1, C1, 6, 0, 0) == Join(Entry(X, Y + 1, 0));
    assert SideScan(SAMPLE, UPPER, X - 1, Y, C1, 9, 3, 0) == Nothing;
    assert SideScan(SAMPLE, UPPER, X + 1, Y, C1, 3, 9, 0) == Nothing;
    assert SideScan(SAMPLE, LOWER, X, Y, C1, 0, 6, 0) == Join(Entry(X, Y, 6));
    assert SideScan(SAMPLE, LOWER, X, Y + 2, C1, 6, 0, 0) == Nothing;
    assert SideScan(SAMPLE, LOWER, X - 1, Y + 1, C1, 9, 3, 0) == Nothing;
    assert SideScan(SAMPLE, LOWER, X + 1, Y + 1, C1, 3, 9, 0) == Nothing;
  }

  lemma UpperCitySucc()
    ensures Succ(SAMPLE, (X, Y, C1)) == {(X, Y + 1, C1)} && !OpenAt(SAMPLE, (X, Y, C1))
  {
    SampleCells();
    CityOutcomes();
    var os := Outcomes(SAMPLE, UPPER, X, Y, C1);
    assert os[1] in os;
  }

  lemma LowerCitySucc()
    ensures Succ(SAMPLE, (X, Y + 1, C1)) == {(X, Y, C1)} && !OpenAt(SAMPLE, (X, Y + 1, C1))
  {
    SampleCells();
    CityOutcomes();
    var os := Outcomes(SAMPLE, LOWER, X, Y + 1, C1);
    assert os[0] in os;
  }

  /** The city walk from the upper tile's city is closed. */
  lemma CityWalkClosed()
    ensures Bfs(SAMPLE, X, Y, 6).closed
  {
    SampleCells();
    UpperCitySucc();
    LowerCitySucc();
    var c: set<Triple> := {(X, Y, C1), (X, Y + 1, C1)};
    assert SuccClosed(SAMPLE, c);
    assert StartTriple(SAMPLE, X, Y, 6) in c;
    BfsWithin(SAMPLE, X, Y, 6, c);
    BfsClosed(SAMPLE, X, Y, 6);
  }

  // ---- the two scores -----------------------------------------------------------------------

  /** As written, the field of the upper tile marks its own id as a city and scores nothing. */
  lemma FieldAsWrittenScoresNothing()
    ensures IdsBelow13(SAMPLE) && (X, Y) in SAMPLE.grid
    ensures CollectFieldAsWritten(SAMPLE, {}, X, Y, 0, true).points == 0
  {
    SampleCells();
    UpperFieldWalk();
    var v := Visit(X, Y, 0, false);
    assert CityMarksAsWritten(SAMPLE, v) == {(X, Y, F1)} by {
      assert BordersField(UPPER, 6, F1) && UPPER.ids[UPPER.ids[6]] == F1;
    }
    assert [v][1..] == [];
    assert VisitTriple(SAMPLE, v) == (X, Y, F1);
    var acc1 := FieldWalk({(X, Y, F1)}, {} + CityMarksAsWritten(SAMPLE, v));
    assert FieldPhase1(SAMPLE, FieldWalk({}, {}), [v], true) == FieldPhase1(SAMPLE, acc1, [], true);
    var p1 := FieldPhase1(SAMPLE, FieldWalk({}, {}), [v], true);
    assert p1.cities == {(X, Y, F1)};
    SingleMarkScan(SAMPLE, Entry(X, Y, 0));
  }

  /** Corrected, the field borders the closed city of the two tiles and scores 3. */
  lemma FieldScoresClosedCity()
    ensures (X, Y) in SAMPLE.grid
    ensures CollectField(SAMPLE, {}, X, Y, 0, true).points == 3
  {
    SampleCells();
    UpperFieldWalk();
    var v := Visit(X, Y, 0, false);
    assert CityMarks(SAMPLE, v) == {(X, Y, C1)} by {
      assert BordersField(UPPER, 6, F1);
    }
    assert [v][1..] == [];
    assert VisitTriple(SAMPLE, v) == (X, Y, F1);
    var acc1 := FieldWalk({(X, Y, F1)}, {} + CityMarks(SAMPLE, v));
    assert FieldPhase1(SAMPLE, FieldWalk({}, {}), [v], false) == FieldPhase1(SAMPLE, acc1, [], false);
    var p1 := FieldPhase1(SAMPLE, FieldWalk({}, {}), [v], false);
    assert p1.cities == {(X, Y, C1)};
    SingleMarkScan(SAMPLE, Entry(X, Y, 6));
    CityWalkClosed();
  }
}
