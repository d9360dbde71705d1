/**
 * The bot's choice of move (bot_turn in bot.c): every placement of the drawn tile that
 * board_tile_matches accepts, in each of the four rotations, is weighed with evaluate_turn,
 * and the first one with the greatest score is kept.
 */
module BotSearch {
  import opened Tiles
  import opened Board
  import opened Turns
  import opened BotEval


  /** A candidate placement: the number of quarter turns of the drawn tile, and the cell. */
  datatype Placement = Placement(rot: nat, x: int, y: int)

  /** The scan order of bot_turn: by rotation, then by row, then by column. */
  predicate Before(p: Placement, q: Placement)
  {
    p.rot < q.rot || (p.rot == q.rot && (p.y < q.y || (p.y == q.y && p.x < q.x)))
  }

  predicate InScanOrder(ps: seq<Placement>)
  {
    forall i, j | 0 <= i < j < |ps| :: Before(ps[i], ps[j])
  }

  /** A placement bot_turn tries: a rotation 0 .. 3, a cell of the loops, and board_tile_matches accepts it. */
  ghost predicate Fits(b: Board, t: Tile, p: Placement)
  {
    p.rot < 4 && OnGrid(p) && Accepts(b, t)(p.rot, p.x, p.y)
  }

  /** A test of a rotation and a cell, as a value. */
  type Accept = (nat, int, int) -> bool

  /** board_tile_matches for the tile t turned r times, at a cell of the loops. */
  function Accepts(b: Board, t: Tile): Accept
  {
    (r: nat, x: int, y: int) => InBounds(x, y) && TileMatches(b, RotateN(t, r), x, y)
  }

  /** A cursor of the loops of bot_turn: a rotation 0 .. 4 (4 once they are done), a cell of the grid. */
  predicate OnGrid(p: Placement)
  {
    p.rot <= 4 && 1 <= p.x < BOARD_SIZE && 1 <= p.y < BOARD_SIZE
  }

  /** The step of the loops: the next column, else the next row, else the next rotation. */
  function Next(p: Placement): Placement
  {
    if p.x + 1 < BOARD_SIZE then p.(x := p.x + 1)
    else if p.y + 1 < BOARD_SIZE then p.(x := 1, y := p.y + 1)
    else Placement(p.rot + 1, 1, 1)
  }

  /** The accepted placements from the cursor p on, in the order of the loops of bot_turn. */
  function Placements(ok: Accept, p: Placement): seq<Placement>
    requires OnGrid(p)
    decreases 4 - p.rot, BOARD_SIZE - p.y, BOARD_SIZE - p.x
  {
    if p.rot == 4 then []
    else (if ok(p.rot, p.x, p.y) then [p] else []) + Placements(ok, Next(p))
  }

  lemma NextFacts(p: Placement, q: Placement)
    requires OnGrid(p) && p.rot < 4 && OnGrid(q)
    ensures OnGrid(Next(p))
    ensures q == Next(p) || Before(Next(p), q) <==> Before(p, q)
  {
  }

  lemma ScanOrderCons(p: Placement, c: seq<Placement>)
    requires InScanOrder(c)
    requires forall q | q in c :: Before(p, q)
    ensures InScanOrder([p] + c)
  {
    forall i, j | 0 <= i < j < |[p] + c| ensures Before(([p] + c)[i], ([p] + c)[j]) {
      assert ([p] + c)[j] == c[j - 1];
      if i > 0 {
        assert ([p] + c)[i] == c[i - 1];
      }
    }
  }

  /** The placements bot_turn weighs are exactly the accepted ones from the cursor on, each once, in the order of its loops. */
  lemma {:induction false} PlacementsFacts(ok: Accept, p: Placement)
    requires OnGrid(p)
    ensures forall q :: q in Placements(ok, p) <==> OnGrid(q) && q.rot < 4 && ok(q.rot, q.x, q.y) && (q == p || Before(p, q))
    ensures InScanOrder(Placements(ok, p))
    decreases 4 - p.rot, BOARD_SIZE - p.y, BOARD_SIZE - p.x
  {
    if p.rot < 4 {
      var n := Next(p);
      NextFacts(p, p);
      PlacementsFacts(ok, n);
      var rest := Placements(ok, n);
      forall q ensures q in rest <==> OnGrid(q) && q.rot < 4 && ok(q.rot, q.x, q.y) && Before(p, q) {
        if OnGrid(q) { NextFacts(p, q); }
      }
      if ok(p.rot, p.x, p.y) {
        ScanOrderCons(p, rest);
      }
    }
  }

  /** A weighed placement: the placement, the turn bot_turn would play for it, and its score. */
  datatype Scored = Scored(place: Placement, turn: Turn, value: real)

  /** A scored turn is the given one moved to the placement, with the tile turned and the meeple evaluate_turn picked. */
  ghost predicate TurnAt(base: Turn, player: Player, sc: Scored)
  {
    && sc.turn.x == sc.place.x && sc.turn.y == sc.place.y && sc.turn.tile == RotateN(base.tile, sc.place.rot)
    && sc.turn.active == base.active && sc.turn.skip == base.skip
    && (sc.turn.meeple == NO_MEEPLE ||
        (player.meeple > 0 && sc.turn.meeple.color == player.color && sc.turn.meeple.pos in {1, 4, 7, 10, 12}))
  }

  /** evaluate_turn on every placement in turn, the draws running on from one to the next. */
  function Score(b: Board, an: Analysis, player: Player, base: Turn, remaining: nat, roll: nat -> real,
                 ps: seq<Placement>, draws: nat): (r: seq<Scored>)
    requires Numbered(an) && forall p | p in ps :: InBounds(p.x, p.y)
    ensures |r| == |ps|
    decreases |ps|
  {
    if |ps| == 0 then []
    else
      var (sc, next) := ScoreOne(b, an, player, base, remaining, roll, ps[0], draws);
      [sc] + Score(b, an, player, base, remaining, roll, ps[1..], next)
  }

  /** Weighing keeps each placement in its slot, and every scored turn is the given one moved there. */
  lemma {:induction false} ScoreFacts(b: Board, an: Analysis, player: Player, base: Turn, remaining: nat,
                                      roll: nat -> real, ps: seq<Placement>, draws: nat)
    requires Numbered(an) && forall p | p in ps :: InBounds(p.x, p.y)
    ensures var r := Score(b, an, player, base, remaining, roll, ps, draws);
      forall i | 0 <= i < |ps| :: r[i].place == ps[i] && TurnAt(base, player, r[i])
    decreases |ps|
  {
    if |ps| > 0 {
      var (sc, next) := ScoreOne(b, an, player, base, remaining, roll, ps[0], draws);
      var tail := Score(b, an, player, base, remaining, roll, ps[1..], next);
      ScoreFacts(b, an, player, base, remaining, roll, ps[1..], next);
      var r := Score(b, an, player, base, remaining, roll, ps, draws);
      assert r == [sc] + tail;
      forall i | 0 <= i < |ps| ensures r[i].place == ps[i] && TurnAt(base, player, r[i]) {
        if i > 0 { assert r[i] == tail[i - 1] && ps[i] == ps[1..][i - 1]; }
      }
    }
  }

  /** evaluate_turn on one placement: the turn moved there, and the draw count after it. */
  function ScoreOne(b: Board, an: Analysis, player: Player, base: Turn, remaining: nat, roll: nat -> real,
                    p: Placement, draws: nat): (r: (Scored, nat))
    requires Numbered(an) && InBounds(p.x, p.y)
    ensures r.0.place == p && TurnAt(base, player, r.0) && draws <= r.1
  {
    var t := base.(x := p.x, y := p.y, tile := RotateN(base.tile, p.rot));
    var e := EvaluateTurn(b, an, player, t, remaining, roll, draws);
    (Scored(p, t.(meeple := e.meeple), e.value), e.draws)
  }

  /** Entry i is the first strict maximum of the scores, and beats the threshold. */
  ghost predicate FirstBest(scored: seq<Scored>, threshold: real, i: int)
  {
    && 0 <= i < |scored| && scored[i].value > threshold
    && (forall j | 0 <= j < |scored| :: scored[j].value <= scored[i].value)
    && (forall j | 0 <= j < i :: scored[j].value < scored[i].value)
  }

  /** The comparison of bot_turn: a turn replaces the best so far only with a strictly greater score. */
  function Choose(current: Turn, best: real, scored: seq<Scored>): Turn
    decreases |scored|
  {
    if |scored| == 0 then current
    else if scored[0].value > best then Choose(scored[0].turn, scored[0].value, scored[1..])
    else Choose(current, best, scored[1..])
  }

  /**
   * Choose keeps the current turn when no score beats the threshold, and otherwise picks the
   * first entry with the greatest score.
   */
  lemma {:induction false} ChooseFacts(current: Turn, best: real, scored: seq<Scored>)
    ensures (forall i | 0 <= i < |scored| :: scored[i].value <= best) ==> Choose(current, best, scored) == current
    ensures (exists i | 0 <= i < |scored| :: scored[i].value > best) ==>
      exists i :: FirstBest(scored, best, i) && Choose(current, best, scored) == scored[i].turn
    decreases |scored|
  {
    if |scored| > 0 {
      var rest := scored[1..];
      var v := scored[0].value;
      if v > best {
        ChooseFacts(scored[0].turn, v, rest);
        if exists i | 0 <= i < |rest| :: rest[i].value > v {
          var i :| FirstBest(rest, v, i) && Choose(scored[0].turn, v, rest) == rest[i].turn;
          ShiftBest(scored, v, best, i);
        } else {
          HeadBest(scored, best);
        }
      } else {
        ChooseFacts(current, best, rest);
        if exists i | 0 <= i < |rest| :: rest[i].value > best {
          var i :| FirstBest(rest, best, i) && Choose(current, best, rest) == rest[i].turn;
          ShiftBest(scored, best, best, i);
        } else {
          forall i | 0 <= i < |scored| ensures scored[i].value <= best {
            if i > 0 { assert scored[i] == rest[i - 1]; }
          }
        }
      }
    }
  }

  /** The first best of the tail, beating the head, is the first best of the whole sequence. */
  lemma ShiftBest(scored: seq<Scored>, threshold: real, best: real, i: int)
    requires |scored| > 0 && best <= threshold && FirstBest(scored[1..], threshold, i)
    requires scored[0].value < scored[1..][i].value
    ensures FirstBest(scored, best, i + 1) && scored[i + 1] == scored[1..][i]
  {
    var rest := scored[1..];
    forall j | 0 <= j < |scored| ensures scored[j].value <= scored[i + 1].value {
      if j > 0 { assert scored[j] == rest[j - 1]; }
    }
    forall j | 0 <= j < i + 1 ensures scored[j].value < scored[i + 1].value {
      if j > 0 { assert scored[j] == rest[j - 1]; }
    }
  }

  /** A head above the threshold that nothing after it beats is the first best. */
  lemma HeadBest(scored: seq<Scored>, best: real)
    requires |scored| > 0 && scored[0].value > best
    requires forall i | 0 <= i < |scored| - 1 :: scored[1..][i].value <= scored[0].value
    ensures FirstBest(scored, best, 0)
  {
    forall j | 0 <= j < |scored| ensures scored[j].value <= scored[0].value {
      if j > 0 { assert scored[j] == scored[1..][j - 1]; }
    }
  }

  /** Where the loops of bot_turn start: no rotation, the cell (1, 1). */
  const START: Placement := Placement(0, 1, 1)

  /** The placements bot_turn weighs are exactly those that fit, in the order of its loops. */
  lemma PlacementsFit(b: Board, t: Tile)
    ensures forall p :: p in Placements(Accepts(b, t), START) <==> Fits(b, t, p)
    ensures InScanOrder(Placements(Accepts(b, t), START))
  {
    PlacementsFacts(Accepts(b, t), START);
  }

  /** Weighing keeps the placements: every one that fits is weighed, and nothing else, in scan order. */
  lemma ScoredFacts(b: Board, t: Tile, ps: seq<Placement>, scored: seq<Scored>)
    requires forall p :: p in ps <==> Fits(b, t, p)
    requires InScanOrder(ps)
    requires |scored| == |ps| && forall i | 0 <= i < |ps| :: scored[i].place == ps[i]
    ensures forall p :: Fits(b, t, p) <==> exists i | 0 <= i < |scored| :: scored[i].place == p
    ensures forall i | 0 <= i < |scored| :: Fits(b, t, scored[i].place)
    ensures forall i, j | 0 <= i < j < |scored| :: Before(scored[i].place, scored[j].place)
  {
    forall p ensures Fits(b, t, p) <==> exists i | 0 <= i < |scored| :: scored[i].place == p {
      if Fits(b, t, p) {
        var i :| 0 <= i < |ps| && ps[i] == p;
        assert scored[i].place == p;
      }
    }
    forall i | 0 <= i < |scored| ensures Fits(b, t, scored[i].place) {
      assert ps[i] in ps;
    }
  }

  /** A weighed turn is played where its placement fits: the turned tile matches the board at its cell. */
  lemma ScoredTurnFits(b: Board, base: Turn, player: Player, sc: Scored)
    requires Fits(b, base.tile, sc.place) && TurnAt(base, player, sc)
    ensures InBounds(sc.turn.x, sc.turn.y) && TileMatches(b, sc.turn.tile, sc.turn.x, sc.turn.y)
  {
  }

  /** The score bot_turn starts from: a move must beat -1000 to be taken. */
  const NO_SCORE: real := -1000.0

  /**
   * bot_turn: numbers the board's features, weighs every placement board_tile_matches accepts
   * for the four rotations in the order of its loops, and keeps the first one with the
   * greatest score above -1000; without one the turn is left as it was.
   */
  method BotTurn(b: Board, player: Player, turn: Turn, remaining: nat, roll: nat -> real, draws: nat)
    returns (chosen: Turn, scored: seq<Scored>)
    ensures forall p :: Fits(b, turn.tile, p) <==> exists i | 0 <= i < |scored| :: scored[i].place == p
    ensures forall i | 0 <= i < |scored| :: TurnAt(turn, player, scored[i])
    ensures forall i, j | 0 <= i < j < |scored| :: Before(scored[i].place, scored[j].place)
    ensures (forall i | 0 <= i < |scored| :: scored[i].value <= NO_SCORE) ==> chosen == turn
    ensures (exists i | 0 <= i < |scored| :: scored[i].value > NO_SCORE) ==>
      exists i :: FirstBest(scored, NO_SCORE, i) && chosen == scored[i].turn
    ensures chosen == turn || (InBounds(chosen.x, chosen.y) && TileMatches(b, chosen.tile, chosen.x, chosen.y))
  {
    var an := EvaluateAllFeatures(b, remaining);
    var ps := Placements(Accepts(b, turn.tile), START);
    PlacementsFit(b, turn.tile);
    scored := Score(b, an, player, turn, remaining, roll, ps, draws);
    ScoreFacts(b, an, player, turn, remaining, roll, ps, draws);
    ScoredFacts(b, turn.tile, ps, scored);
    chosen := Choose(turn, NO_SCORE, scored);
    ChooseFacts(turn, NO_SCORE, scored);
    if chosen != turn {
      ghost var i :| FirstBest(scored, NO_SCORE, i) && chosen == scored[i].turn;
      ScoredTurnFits(b, turn, player, scored[i]);
    }
  }
}
